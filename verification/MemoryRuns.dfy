/** Every sequence of writes keeps the trust discipline. */
module MemoryRuns {
  import opened FiniteSets
  import opened MemoryTable
  import opened Eviction
  import opened Consolidation
  import opened MemoryUpsert

  // ----- Units as the writers build them -----

  function DecisionUnit(id: int, now: int, subject: string, verdict: string, advisory: bool): Row {
    Row(id,
        if advisory then Observation else World,
        subject,
        "verdict " + verdict + " for " + subject + ", recorded by " +
        (if advisory then "the investigation workflow" else "an analyst"),
        now, now, 1,
        if advisory then "workflow" else "verdict",
        if advisory then ToolOutput else Analyst,
        advisory, "", Decision, verdict,
        DecisionKey(subject, verdict, advisory))
  }

  const MAX_TEXT_CHARS := 4000

  function ReasonUnit(id: int, decision: Row, body: string): Row {
    decision.(id := id, utype := Observation, provenance := ToolOutput, tainted := true,
              text := if |body| > MAX_TEXT_CHARS then body[..MAX_TEXT_CHARS] else body,
              kind := Reason, value := "", key := ReasonKey(decision.subject, body))
  }

  /** The rules a row must satisfy to have come from one of the writers. */
  ghost predicate Trusted(u: Row) {
    && u.utype != OtherType && u.provenance != OtherProvenance && u.kind != OtherKind
    && (u.utype == World ==> u.provenance == Analyst && u.source in ANALYST_SOURCES)
    && (u.tainted <==> Tainted(u.provenance))
    && (u.kind == Decision ==> u.value in VERDICTS && u.key == DecisionKey(u.subject, u.value, u.utype != World))
    && (u.kind == Reason ==> u.utype == Observation && u.tainted)
  }

  datatype Op =
    | Write(unit: Row)
    | Record(unit: Row)
    | Invalidate(id: int, note: string)
    | PruneAll(subjects: seq<string>)

  /** `prune_memory`: fold, then expire, one subject at a time. */
  ghost function PrunedAll(env: Env, t: Table, subjects: seq<string>): Table {
    if subjects == [] then t
    else
      var before := PrunedAll(env, t, subjects[..|subjects| - 1]);
      var s := subjects[|subjects| - 1];
      Pruned(env, Folded(env, before, s), s, false)
  }

  ghost function After(env: Env, t: Table, op: Op): Table {
    match op
    case Write(unit) => Upserted(env, t, unit)
    case Record(unit) => t[unit.id := unit]
    case Invalidate(id, note) => if id in t then t[id := t[id].(invalidatedBy := note)] else t
    case PruneAll(subjects) => PrunedAll(env, t, subjects)
  }

  /** What the public entry points let through to the table. */
  ghost predicate Legal(t: Table, op: Op) {
    match op
    case Write(unit) => FreshUnit(t, unit) && Trusted(unit)
    case Record(unit) => FreshUnit(t, unit) && Trusted(unit) && unit.key == NoKey && unit.kind == NoKind
    case Invalidate(id, note) => note != ""
    case PruneAll(_) => true
  }

  lemma BuiltUnitsAreTrusted(id: int, rid: int, now: int, subject: string, verdict: string, advisory: bool, body: string)
    requires verdict in VERDICTS
    ensures var d := DecisionUnit(id, now, subject, verdict, advisory);
            && Trusted(d) && d.support == 1
            && (Protected(d) <==> !advisory)
            && Trusted(ReasonUnit(rid, d, body)) && !Protected(ReasonUnit(rid, d, body))
  {
    assert "verdict" == ANALYST_SOURCES[1];
  }

  /** A decision says its verdict, its subject and when; a reason belongs to the decision's
      subject and moment, holds the first 4000 characters of the note and is keyed by all of it. */
  lemma BuiltUnitsSay(id: int, rid: int, now: int, subject: string, verdict: string, advisory: bool, body: string)
    ensures var d := DecisionUnit(id, now, subject, verdict, advisory);
            && d.id == id && d.subject == subject && d.kind == Decision && d.value == verdict && d.firstSeen == d.lastSeen == now
            && "verdict " + verdict + " for " + subject <= d.text && (advisory <==> d.utype == Observation) && d.invalidatedBy == ""
            && (d.source == if advisory then "workflow" else "verdict") && (d.provenance == if advisory then ToolOutput else Analyst)
            && d.key == DecisionKey(subject, verdict, advisory)
            && var r := ReasonUnit(rid, d, body);
               && r.id == rid && r.subject == subject && r.kind == Reason && r.value == "" && r.firstSeen == r.lastSeen == now
               && r.text <= body && |r.text| == (if |body| < 4000 then |body| else 4000)
               && r.key == ReasonKey(subject, body) && r.invalidatedBy == "" && r.support == 1 && r.source == d.source
  {
    var d := DecisionUnit(id, now, subject, verdict, advisory);
    assert d.text == "verdict " + verdict + " for " + subject + ", recorded by " + if advisory then "the investigation workflow" else "an analyst";
  }

  /** The columns no write may change. */
  ghost predicate SameTrust(x: Row, y: Row) {
    && x.id == y.id && x.utype == y.utype && x.subject == y.subject && x.text == y.text && x.source == y.source
    && x.firstSeen == y.firstSeen && x.provenance == y.provenance && x.tainted == y.tainted
    && x.kind == y.kind && x.value == y.value && x.key == y.key
    && (x.invalidatedBy != "" ==> y.invalidatedBy != "")
  }

  ghost predicate Keeps(t: Table, t': Table) {
    && (forall id :: id in t && id in t' ==> SameTrust(t[id], t'[id]))
    && (forall id :: id in t && Protected(t[id]) ==> id in t')
  }

  lemma {:induction false} PrunedAllKeeps(env: Env, t: Table, subjects: seq<string>)
    requires WellFormed(t)
    ensures WellFormed(PrunedAll(env, t, subjects))
    ensures PrunedAll(env, t, subjects).Keys <= t.Keys
    ensures Keeps(t, PrunedAll(env, t, subjects))
  {
    if subjects != [] {
      var before := PrunedAll(env, t, subjects[..|subjects| - 1]);
      var s := subjects[|subjects| - 1];
      PrunedAllKeeps(env, t, subjects[..|subjects| - 1]);
      FoldKeepsRows(env, before, s);
      var f := Folded(env, before, s);
      PrunedKeeps(env, f, s, false);
      forall id | id in before && Protected(before[id]) ensures id in f && f[id] == before[id] {
        assert id !in FoldedIds(env, before, SubjectKeys(env, before, s));
      }
    }
  }

  lemma UpsertedKeeps(env: Env, t: Table, unit: Row)
    requires WellFormed(t) && FreshUnit(t, unit)
    ensures Keeps(t, Upserted(env, t, unit))
    ensures forall id :: id in Upserted(env, t, unit) && id !in t ==> id == unit.id && Upserted(env, t, unit)[id] == unit
  {
    var r := Relieved(env, t, unit.subject);
    RelievedKeeps(env, t, unit.subject);
    WrittenKeeps(r, unit);
  }

  /** One step, whatever the table held before: the trust columns stay, protected rows
      stay, and a new row is one the rules allow. */
  lemma StepKeeps(env: Env, t: Table, op: Op)
    requires WellFormed(t) && Legal(t, op)
    ensures WellFormed(After(env, t, op)) && Keeps(t, After(env, t, op))
    ensures forall id :: id in After(env, t, op) && id !in t ==> op.Write? || op.Record?
    ensures forall id :: id in After(env, t, op) && id !in t ==> id == op.unit.id && After(env, t, op)[id] == op.unit
  {
    match op
    case Write(unit) =>
      UpsertedKeeps(env, t, unit);
      UpsertedWellFormed(env, t, unit);
    case PruneAll(subjects) =>
      PrunedAllKeeps(env, t, subjects);
    case _ =>
  }

  /** Nothing more to do: no row of the subject may be evicted and no two of its reasons are copies. */
  ghost predicate Tidy(env: Env, t: Table, s: string) {
    && (forall id :: id in t && t[id].subject == s ==> !Evictable(env, t[id]))
    && (forall i, j :: i in t && j in t && i != j && t[i].subject == s ==> !SameNote(env, t[i], t[j]))
  }

  lemma SweptIsTidy(env: Env, t: Table, s: string)
    requires WellFormed(t)
    ensures Tidy(env, Pruned(env, Folded(env, t, s), s, false), s)
  {
    var f := Folded(env, t, s);
    var p := Pruned(env, f, s, false);
    FoldKeepsRows(env, t, s);
    PrunedKeeps(env, f, s, false);
    forall i, j | i in p && j in p && i != j && p[i].subject == s ensures !SameNote(env, p[i], p[j]) {
      NoCopiesLeft(env, t, s, i, j);
    }
  }

  lemma SweepTouchesNoOther(env: Env, t: Table, s: string, id: int)
    requires WellFormed(t) && (id in t ==> t[id].subject != s)
    ensures var p := Pruned(env, Folded(env, t, s), s, false);
            (id in p <==> id in t) && (id in t ==> p[id] == t[id])
  {
    FoldKeepsRows(env, t, s);
    if id in t { FoldTouchesNoOther(env, t, s, id); }
  }

  /** Every subject swept is tidy afterwards and no other subject is touched. */
  lemma {:induction false} SweepLeavesAllTidy(env: Env, t: Table, subjects: seq<string>, s: string)
    requires WellFormed(t)
    ensures s in subjects ==> Tidy(env, PrunedAll(env, t, subjects), s)
    ensures s !in subjects ==>
              var after := PrunedAll(env, t, subjects);
              forall id :: (id in t && t[id].subject == s) || (id in after && after[id].subject == s) ==>
                id in t && id in after && after[id] == t[id]
  {
    if subjects != [] {
      var n := |subjects| - 1;
      var before, last, after := PrunedAll(env, t, subjects[..n]), subjects[n], PrunedAll(env, t, subjects);
      assert subjects == subjects[..n] + [last];
      PrunedAllKeeps(env, t, subjects[..n]);
      SweepLeavesAllTidy(env, t, subjects[..n], s);
      if s == last {
        SweptIsTidy(env, before, s);
      } else {
        SameElsewhere(env, before, last, s);
      }
    }
  }

  /** When the sweep lists every subject there is, the whole table is tidy. */
  lemma WholeTableTidy(env: Env, t: Table, subjects: seq<string>, s: string)
    requires WellFormed(t) && forall id :: id in t ==> t[id].subject in subjects
    ensures Tidy(env, PrunedAll(env, t, subjects), s)
  {
    SweepLeavesAllTidy(env, t, subjects, s);
  }

  lemma SameElsewhere(env: Env, t: Table, last: string, s: string)
    requires WellFormed(t) && s != last
    ensures var p := Pruned(env, Folded(env, t, last), last, false);
            && (forall id :: id in p && p[id].subject == s ==> id in t && p[id] == t[id])
            && (forall id :: id in t && t[id].subject == s ==> id in p && p[id] == t[id])
            && (Tidy(env, t, s) ==> Tidy(env, p, s))
  {
    var p := Pruned(env, Folded(env, t, last), last, false);
    FoldKeepsRows(env, t, last);
    forall id | id in t && t[id].subject == s ensures id in p && p[id] == t[id] { SweepTouchesNoOther(env, t, last, id); }
    forall id | id in p && p[id].subject == s ensures id in t && p[id] == t[id] { SweepTouchesNoOther(env, t, last, id); }
    if Tidy(env, t, s) {
      forall i, j | i in p && j in p && i != j && p[i].subject == s ensures !SameNote(env, p[i], p[j]) {
        if p[j].subject == s { assert p[i] == t[i] && p[j] == t[j]; }
      }
    }
  }

  ghost predicate AllTrusted(t: Table) {
    WellFormed(t) && forall id :: id in t ==> Trusted(t[id])
  }

  lemma StepKeepsTrust(env: Env, t: Table, op: Op)
    requires AllTrusted(t) && Legal(t, op)
    ensures AllTrusted(After(env, t, op))
  {
    StepKeeps(env, t, op);
    var t' := After(env, t, op);
    forall id | id in t' ensures Trusted(t'[id]) {
      if id in t { assert SameTrust(t[id], t'[id]); }
    }
  }

  // ----- Runs -----

  /** Any number of operations, each under its own clock and configuration. Ids are
      random 48-bit numbers; a run never draws one twice. */
  ghost predicate Run(states: seq<Table>, envs: seq<Env>, ops: seq<Op>) {
    && |states| == |ops| + 1 && |envs| == |ops|
    && WellFormed(states[0])
    && (forall i :: 0 <= i < |ops| ==> Legal(states[i], ops[i]) && states[i + 1] == After(envs[i], states[i], ops[i]))
    && (forall i, k :: 0 <= k <= i < |ops| && (ops[i].Write? || ops[i].Record?) ==> ops[i].unit.id !in states[k])
  }

  lemma {:induction false} RunWellFormed(states: seq<Table>, envs: seq<Env>, ops: seq<Op>, j: nat)
    requires Run(states, envs, ops) && j < |states|
    ensures WellFormed(states[j])
  {
    if j > 0 {
      RunWellFormed(states, envs, ops, j - 1);
      StepKeeps(envs[j - 1], states[j - 1], ops[j - 1]);
    }
  }

  /** From each state to the next rows keep their trust columns and their protection, and
      an id that has gone does not come back. */
  ghost predicate StepsKeep(states: seq<Table>) {
    && (forall j :: 0 <= j < |states| - 1 ==> Keeps(states[j], states[j + 1]))
    && (forall i, j, id :: 0 <= i <= j < |states| - 1 && id in states[i] && id !in states[j] ==> id !in states[j + 1])
  }

  lemma RunStepsKeep(states: seq<Table>, envs: seq<Env>, ops: seq<Op>)
    requires Run(states, envs, ops)
    ensures StepsKeep(states)
  {
    forall j | 0 <= j < |ops| ensures Keeps(states[j], states[j + 1]) {
      RunWellFormed(states, envs, ops, j);
      StepKeeps(envs[j], states[j], ops[j]);
    }
    forall i, j, id | 0 <= i <= j < |ops| && id in states[i] && id !in states[j] ensures id !in states[j + 1] {
      RunWellFormed(states, envs, ops, j);
      StepKeeps(envs[j], states[j], ops[j]);
    }
  }

  lemma {:induction false} TrustStays(states: seq<Table>, i: nat, j: nat, id: int)
    requires StepsKeep(states) && i <= j < |states| && id in states[i] && id in states[j]
    ensures SameTrust(states[i][id], states[j][id])
  {
    if i < j {
      assert id in states[j - 1];
      TrustStays(states, i, j - 1, id);
      assert Keeps(states[j - 1], states[j]);
    }
  }

  lemma {:induction false} ProtectionStays(states: seq<Table>, i: nat, j: nat, id: int)
    requires StepsKeep(states) && i <= j < |states| && id in states[i] && Protected(states[i][id])
    ensures id in states[j] && Protected(states[j][id])
  {
    if i < j {
      ProtectionStays(states, i, j - 1, id);
      assert Keeps(states[j - 1], states[j]);
    }
  }

  /** No row ever changes its type, provenance, taint, kind, value or key, even in a
      table that started out with forged rows. */
  lemma TrustColumnsNeverChange(states: seq<Table>, envs: seq<Env>, ops: seq<Op>, i: nat, j: nat, id: int)
    requires Run(states, envs, ops) && i <= j < |states|
    requires id in states[i] && id in states[j]
    ensures SameTrust(states[i][id], states[j][id])
  {
    RunStepsKeep(states, envs, ops);
    TrustStays(states, i, j, id);
  }

  /** A protected row is in every later state, and still protected. */
  lemma ProtectedForever(states: seq<Table>, envs: seq<Env>, ops: seq<Op>, i: nat, j: nat, id: int)
    requires Run(states, envs, ops) && i <= j < |states|
    requires id in states[i] && Protected(states[i][id])
    ensures id in states[j] && Protected(states[j][id])
  {
    RunStepsKeep(states, envs, ops);
    ProtectionStays(states, i, j, id);
  }

  /** From a trusted table every state is trusted: a `world` row is an analyst's, and
      taint is what the provenance says. */
  lemma {:induction false} TrustHoldsThroughout(states: seq<Table>, envs: seq<Env>, ops: seq<Op>, j: nat)
    requires Run(states, envs, ops) && j < |states| && AllTrusted(states[0])
    ensures AllTrusted(states[j])
  {
    if j > 0 {
      TrustHoldsThroughout(states, envs, ops, j - 1);
      StepKeepsTrust(envs[j - 1], states[j - 1], ops[j - 1]);
    }
  }

  // ----- Analyst decisions are bounded on their own -----

  ghost function AnalystDecisions(t: Table, subject: string): set<int> {
    set id | id in t && t[id].subject == subject && t[id].kind == Decision && t[id].utype == World
  }

  lemma {:induction false} InjectionSize(ids: set<int>, f: int -> string, values: set<string>)
    requires forall id :: id in ids ==> f(id) in values
    requires forall i, j :: i in ids && j in ids && f(i) == f(j) ==> i == j
    ensures |ids| <= |values|
  {
    if ids != {} {
      var x := Pick(ids);
      InjectionSize(ids - {x}, f, values - {f(x)});
    }
  }

  lemma VerdictCount()
    ensures |set v | v in VERDICTS| <= 5
  {
    assert (set v | v in VERDICTS) == {VERDICTS[0], VERDICTS[1], VERDICTS[2], VERDICTS[3], VERDICTS[4]};
  }

  /** A subject never holds more rows that retention must keep as decisions than there
      are verdicts, so permanent rows cannot fill it. */
  lemma AtMostFiveAnalystDecisions(t: Table, subject: string)
    requires AllTrusted(t)
    ensures |AnalystDecisions(t, subject)| <= 5
  {
    VerdictCount();
    var ids := AnalystDecisions(t, subject);
    var f := (id: int) => if id in t then t[id].value else "";
    forall i, j | i in ids && j in ids && f(i) == f(j) ensures i == j {
      assert t[i].key == t[j].key;
    }
    InjectionSize(ids, f, set v | v in VERDICTS);
  }
}
