/** The per-upstream circuit breaker and the retry loop that drives it. */
module CircuitBreaker {
  import opened Basics

  datatype Config = Config(threshold: int, recovery: real)
  datatype State = State(failures: nat, openedAt: real, halfOpen: bool)
  datatype Report = Success | Failure | Throttled | Liveness

  /** What happens to a breaker: a call asks, later reports one classified outcome, or ends
      without reporting. */
  datatype Event = Ask(call: nat, at: real) | Tell(call: nat, report: Report, at: real) | Vanish(call: nat, at: real)

  const Closed := State(0, 0.0, false)

  predicate IsOpen(c: Config, s: State) { s.failures >= c.threshold }

  /** Does `before_call` let a request through at this time? */
  predicate Admits(c: Config, s: State, now: real) {
    !IsOpen(c, s) || (now - s.openedAt >= c.recovery && !s.halfOpen)
  }

  function Asked(c: Config, s: State, now: real): State {
    if IsOpen(c, s) && Admits(c, s, now) then s.(halfOpen := true) else s
  }

  function Reported(s: State, r: Report, now: real): State {
    match r
    case Success => Closed
    case Failure => State(s.failures + 1, now, false)
    case Throttled => s.(openedAt := now, halfOpen := false)
    case Liveness => if s.halfOpen then Closed else s
  }

  /** A success, or a 4xx while a trial is out, closes the breaker. */
  predicate Closes(s: State, r: Report) { r == Success || (r == Liveness && s.halfOpen) }

  class Breaker {
    const config: Config
    var failures: nat
    var openedAt: real
    var halfOpen: bool

    constructor (config: Config)
      ensures this.config == config && Now() == Closed
    {
      this.config := config;
      failures, openedAt, halfOpen := 0, 0.0, false;
    }

    function Now(): State
      reads this
    {
      State(failures, openedAt, halfOpen)
    }

    method BeforeCall(now: real) returns (proceed: bool)
      modifies this
      ensures proceed == Admits(config, old(Now()), now)
      ensures Now() == Asked(config, old(Now()), now)
    {
      if failures < config.threshold { return true; }
      if now - openedAt < config.recovery { return false; }
      if halfOpen { return false; }
      halfOpen := true;
      proceed := true;
    }

    method OnSuccess()
      modifies this
      ensures forall now :: Now() == Reported(old(Now()), Success, now)
    {
      failures, openedAt, halfOpen := 0, 0.0, false;
    }

    method OnFailure(now: real)
      modifies this
      ensures Now() == Reported(old(Now()), Failure, now)
    {
      failures, openedAt, halfOpen := failures + 1, now, false;
    }

    method OnThrottled(now: real)
      modifies this
      ensures Now() == Reported(old(Now()), Throttled, now)
    {
      halfOpen, openedAt := false, now;
    }

    method OnLiveness()
      modifies this
      ensures forall now :: Now() == Reported(old(Now()), Liveness, now)
    {
      if halfOpen {
        failures, openedAt, halfOpen := 0, 0.0, false;
      }
    }

    /** Whatever other calls do while this one is suspended. */
    method OthersAct(events: seq<Event>)
      modifies this
      ensures Now() == AllHappened(config, old(Now()), events)
    {
      for i := 0 to |events|
        invariant Now() == AllHappened(config, old(Now()), events[..i])
      {
        assert events[..i + 1][..i] == events[..i];
        One(events[i]);
      }
      assert events[..|events|] == events;
    }

    method One(e: Event)
      modifies this
      ensures Now() == Happened(config, old(Now()), e)
    {
      match e
      case Ask(_, at) => var _ := BeforeCall(at);
      case Tell(_, report, at) =>
        match report {
          case Success => OnSuccess(); assert Now() == Reported(old(Now()), Success, at);
          case Failure => OnFailure(at);
          case Throttled => OnThrottled(at);
          case Liveness => OnLiveness(); assert Now() == Reported(old(Now()), Liveness, at);
        }
      case Vanish(_, _) =>
    }
  }

  function Happened(c: Config, s: State, e: Event): State {
    match e
    case Ask(_, at) => Asked(c, s, at)
    case Tell(_, report, at) => Reported(s, report, at)
    case Vanish(_, _) => s
  }

  ghost function AllHappened(c: Config, s: State, events: seq<Event>): State {
    if events == [] then s else Happened(c, AllHappened(c, s, events[..|events| - 1]), events[|events| - 1])
  }

  // ----- The retry loop -----

  /** How one HTTP attempt can end. `Foreign` is any exception no handler names. */
  datatype Reply =
    | Answered
    | Status(code: int, retryAfter: Option<real>)
    | Transport
    | Foreign

  datatype CallResult = Response | CircuitOpen | Raised(reply: Reply) | NothingToRaise

  const RETRY_AFTER_MAX: real := 30.0

  /** The delay a `Retry-After` header is worth; None for absent or non-numeric headers too. */
  function RetryAfterSeconds(header: Option<real>): (d: Option<real>)
    ensures d.Some? <==> header.Some? && 0.0 <= header.value <= RETRY_AFTER_MAX
    ensures d.Some? ==> d == header
  {
    if header == None then None
    else if header.value < 0.0 || header.value > RETRY_AFTER_MAX then None
    else header
  }

  /** Which callback a reply leads to, if any. */
  function Classify(reply: Reply): Option<Report> {
    match reply
    case Answered => Some(Success)
    case Status(code, _) =>
      if code == 429 then Some(Throttled) else if 400 <= code < 500 then Some(Liveness) else Some(Failure)
    case Transport => Some(Failure)
    case Foreign => None
  }

  /** Worth another attempt: an outage, or a throttle that said when to come back. */
  predicate Retryable(reply: Reply) {
    || Classify(reply) == Some(Failure)
    || (reply.Status? && reply.code == 429 && RetryAfterSeconds(reply.retryAfter).Some?)
  }

  /** What surrounds one call: attempt `k` asks at `askAt(k)`, is answered by `replies(k)`
      at `doneAt(k)`; `others(k)` is what the rest of the process does to the breaker while it
      is out, and `slept(k)` what it does while the call sleeps before its next attempt. */
  datatype Script = Script(replies: nat -> Reply, askAt: nat -> real, doneAt: nat -> real,
                           others: nat -> seq<Event>, slept: nat -> seq<Event>)

  ghost function Classified(script: Script, n: nat): seq<Report> {
    if n == 0 then []
    else
      var report := Classify(script.replies(n - 1));
      Classified(script, n - 1) + if report.Some? then [report.value] else []
  }

  ghost function AfterAttempt(c: Config, s: State, script: Script, k: nat): State {
    var waited := AllHappened(c, Asked(c, s, script.askAt(k)), script.others(k));
    var report := Classify(script.replies(k));
    if report.Some? then Reported(waited, report.value, script.doneAt(k)) else waited
  }

  /** The breaker after `n` attempts of this call and everything done meanwhile. */
  ghost function Driven(c: Config, s: State, script: Script, n: nat): State
    decreases n, 0
  {
    if n == 0 then s else AfterAttempt(c, Ready(c, s, script, n - 1), script, n - 1)
  }

  /** The breaker when attempt `n` asks, after the sleep behind the attempt before. */
  ghost function Ready(c: Config, s: State, script: Script, n: nat): State
    decreases n, 1
  {
    if n == 0 then s else AllHappened(c, Driven(c, s, script, n), script.slept(n - 1))
  }

  /** The first `n` attempts were each let through, and each but the last deserved a retry. */
  ghost predicate Attempts(c: Config, s: State, script: Script, n: nat) {
    n == 0 || (
      && Attempts(c, s, script, n - 1)
      && Admits(c, Ready(c, s, script, n - 1), script.askAt(n - 1))
      && (n > 1 ==> Retryable(script.replies(n - 2))))
  }

  /** A 5xx, a status no client error explains, or a transport error: an outage. */
  predicate Outage(reply: Reply) { reply.Transport? || (reply.Status? && !(400 <= reply.code < 500)) }

  /** A 429 that says to come back within half a minute. */
  predicate ShortThrottle(reply: Reply) {
    reply.Status? && reply.code == 429 && reply.retryAfter.Some? && 0.0 <= reply.retryAfter.value <= 30.0
  }

  /** What an attempt leaves of the breaker it comes back to, by the code of the reply: a
      success closes it, an outage counts and re-arms it, a 429 re-arms it without counting, any
      other 4xx closes a half-open one and leaves all others alone, and an unhandled exception
      leaves it as it is. */
  lemma RepliesMoveBreaker(c: Config, s: State, script: Script, k: nat)
    ensures var waited := AllHappened(c, Asked(c, s, script.askAt(k)), script.others(k));
            var after, at, reply := AfterAttempt(c, s, script, k), script.doneAt(k), script.replies(k);
            && (reply.Answered? ==> after == State(0, 0.0, false))
            && (Outage(reply) ==> after == State(waited.failures + 1, at, false))
            && (reply.Status? && reply.code == 429 ==> after == State(waited.failures, at, false))
            && (reply.Status? && reply.code != 429 && 400 <= reply.code < 500 ==>
                  after == if waited.halfOpen then State(0, 0.0, false) else waited)
            && (reply.Foreign? ==> after == waited)
  {
  }

  /** An attempt is followed by another only after an outage or a short throttle. */
  lemma {:induction false} OnlyTheseAreRetried(c: Config, s: State, script: Script, n: nat, k: nat)
    requires Attempts(c, s, script, n) && k + 1 < n
    ensures Outage(script.replies(k)) || ShortThrottle(script.replies(k))
  {
    if k + 2 < n { OnlyTheseAreRetried(c, s, script, n - 1, k); }
  }

  /** Each short throttle adds the delay it asked for, and no other reply adds any. */
  lemma ThrottleWaitGrows(script: Script, k: nat)
    ensures ThrottleWait(script, k + 1) - ThrottleWait(script, k) ==
            if ShortThrottle(script.replies(k)) then script.replies(k).retryAfter.value else 0.0
  {
  }

  /** How long the call sits through the throttles of its first `n` attempts. */
  ghost function ThrottleWait(script: Script, n: nat): real {
    if n == 0 then 0.0
    else
      var d := ThrottleDelay(script.replies(n - 1));
      ThrottleWait(script, n - 1) + if d.Some? then d.value else 0.0
  }

  /** The sleep a throttled reply earns. */
  function ThrottleDelay(reply: Reply): Option<real> {
    if reply.Status? && reply.code == 429 then RetryAfterSeconds(reply.retryAfter) else None
  }

  /** The longest the whole call can be kept asleep by Retry-After headers. */
  lemma {:induction false} ThrottleWaitBounded(script: Script, n: nat)
    ensures 0.0 <= ThrottleWait(script, n) <= RETRY_AFTER_MAX * n as real
  {
    if n > 0 { ThrottleWaitBounded(script, n - 1); }
  }

  /** `_api_call`. */
  method ApiCall(b: Breaker, maxRetries: int, script: Script)
    returns (result: CallResult, sent: nat, reports: seq<Report>, slept: real)
    modifies b
    ensures sent <= (if maxRetries < 0 then 0 else 1 + maxRetries)
    ensures b.Now() == if result == CircuitOpen then Ready(b.config, old(b.Now()), script, sent)
                       else Driven(b.config, old(b.Now()), script, sent)
    ensures Attempts(b.config, old(b.Now()), script, sent)
    ensures reports == Classified(script, sent)
    ensures slept == ThrottleWait(script, if result == CircuitOpen || sent == 0 then sent else sent - 1)
    ensures maxRetries >= 0 ==> 0.0 <= slept <= 30.0 * maxRetries as real
    ensures match result
            case NothingToRaise => maxRetries < 0
            case Response => sent > 0 && script.replies(sent - 1) == Answered
            case Raised(reply) =>
              && sent > 0 && reply == script.replies(sent - 1) && reply != Answered
              && (Outage(reply) || ShortThrottle(reply) ==> sent == 1 + maxRetries)
            case CircuitOpen =>
              && sent <= maxRetries && (sent > 0 ==> Outage(script.replies(sent - 1)) || ShortThrottle(script.replies(sent - 1)))
              && !Admits(b.config, b.Now(), script.askAt(sent))
  {
    sent, reports, slept := 0, [], 0.0;
    if maxRetries < 0 { return NothingToRaise, 0, [], 0.0; }
    ghost var start := b.Now();
    for attempt := 0 to 1 + maxRetries
      invariant attempt <= maxRetries
      invariant sent == attempt && reports == Classified(script, sent)
      invariant b.Now() == Ready(b.config, start, script, sent)
      invariant Attempts(b.config, start, script, sent)
      invariant sent > 0 ==> Retryable(script.replies(sent - 1))
      invariant slept == ThrottleWait(script, sent)
    {
      WithinLimit(script, attempt, maxRetries);
      var proceed, report := Attempt(b, script, attempt);
      if !proceed { return CircuitOpen, sent, reports, slept; }
      var reply := script.replies(attempt);
      sent := sent + 1;
      if report.Some? { reports := reports + [report.value]; }
      if reply == Answered { return Response, sent, reports, slept; }
      if !Retryable(reply) || attempt >= maxRetries { return Raised(reply), sent, reports, slept; }
      if ThrottleDelay(reply).Some? { slept := slept + ThrottleDelay(reply).value; }
      b.OthersAct(script.slept(attempt));
    }
    assert false;
  }

  lemma WithinLimit(script: Script, n: nat, maxRetries: nat)
    requires n <= maxRetries
    ensures 0.0 <= ThrottleWait(script, n) <= RETRY_AFTER_MAX * maxRetries as real
  {
    ThrottleWaitBounded(script, n);
  }

  /** A call whose replies are all classified reports exactly once for every request sent. */
  lemma {:induction false} OneReportPerRequest(script: Script, n: nat)
    requires forall k: nat :: k < n ==> script.replies(k) != Foreign
    ensures |Classified(script, n)| == n
    ensures forall k: nat :: k < n ==> Some(Classified(script, n)[k]) == Classify(script.replies(k))
  {
    if n > 0 { OneReportPerRequest(script, n - 1); }
  }

  /** One pass of the loop: ask, send, wait, settle. */
  method Attempt(b: Breaker, script: Script, k: nat) returns (proceed: bool, report: Option<Report>)
    modifies b
    ensures proceed == Admits(b.config, old(b.Now()), script.askAt(k))
    ensures proceed ==> report == Classify(script.replies(k))
    ensures b.Now() == if proceed then AfterAttempt(b.config, old(b.Now()), script, k) else old(b.Now())
  {
    report := None;
    proceed := b.BeforeCall(script.askAt(k));
    if proceed {
      b.OthersAct(script.others(k));
      report := Settle(b, script.replies(k), script.doneAt(k));
    }
  }

  /** The callback one reply leads to: success, a handled exception, or none. */
  method Settle(b: Breaker, reply: Reply, now: real) returns (report: Option<Report>)
    modifies b
    ensures report == Classify(reply)
    ensures b.Now() == if report.Some? then Reported(old(b.Now()), report.value, now) else old(b.Now())
  {
    report := None;
    match reply
    case Answered =>
      b.OnSuccess();
      assert b.Now() == Reported(old(b.Now()), Success, now);
      report := Some(Success);
    case Status(code, _) =>
      if code == 429 {
        b.OnThrottled(now);
        report := Some(Throttled);
      } else if 400 <= code < 500 {
        b.OnLiveness();
        assert b.Now() == Reported(old(b.Now()), Liveness, now);
        report := Some(Liveness);
      } else {
        b.OnFailure(now);
        report := Some(Failure);
      }
    case Transport =>
      b.OnFailure(now);
      report := Some(Failure);
    case Foreign =>
  }
}
