/** Any number of writers of every kind interleaving statement by statement. BEGIN IMMEDIATE
    gives the write lock to one transaction at a time; it works on its own uncommitted copy of
    the table until it commits or rolls back. A single statement is a transaction of its own. */
module MemoryWriters {
  import opened Basics
  import opened MemoryTable
  import opened Eviction
  import opened Consolidation
  import opened MemoryUpsert
  import opened FiniteSets
  import MemoryRuns

  /** `_upsert`, `record_unit`, `invalidate_unit`, and `prune_memory` in the order its SELECT
      DISTINCT answers. */
  datatype Job = Upserting(unit: Row) | Recording(unit: Row) | Invalidating(id: int, note: string) | Sweeping(order: seq<string>)

  function OpOf(job: Job): MemoryRuns.Op {
    match job
    case Upserting(unit) => MemoryRuns.Write(unit)
    case Recording(unit) => MemoryRuns.Record(unit)
    case Invalidating(id, note) => MemoryRuns.Invalidate(id, note)
    case Sweeping(order) => MemoryRuns.PruneAll(order)
  }

  predicate AddsRow(job: Job) { job.Upserting? || job.Recording? }

  datatype Stage =
    | Waiting
    | Begun
    | Counted(stored: nat)
    | Folding
    | Ready
    | Wrote(support: int)
    | Recounted(total: nat)
    | Swept(n: nat)
    | Done(outcome: Outcome)
    | Finished
    | Failed

  datatype Writer = Writer(env: Env, job: Job, stage: Stage, work: Table)

  /** `log` records who committed or rolled back at the cap, in that order. */
  datatype System = System(committed: Table, lock: Option<nat>, writers: seq<Writer>, log: seq<nat>)

  datatype Action =
    | Begin(w: nat) | Busy(w: nat) | Count(w: nat) | Fold(w: nat) | Expire(w: nat) | Skip(w: nat)
    | Insert(w: nat) | Recount(w: nat) | Commit(w: nat) | Refuse(w: nat) | Abort(w: nat)
    | Apply(w: nat) | List(w: nat) | Sweep(w: nat)

  /** Which statements belong to which kind of transaction. */
  predicate Suits(job: Job, a: Action) {
    match a
    case Begin(_) => job.Upserting? || job.Sweeping?
    case Apply(_) => job.Recording? || job.Invalidating?
    case List(_) => job.Sweeping?
    case Sweep(_) => job.Sweeping?
    case Commit(_) => job.Upserting? || job.Sweeping?
    case Busy(_) => true
    case Abort(_) => true
    case _ => job.Upserting?
  }

  /** The subjects a sweep lists are the ones the table holds. */
  ghost predicate ListsSubjects(t: Table, order: seq<string>) {
    forall s :: s in order <==> exists id :: id in t && t[id].subject == s
  }

  ghost predicate Enabled(s: System, a: Action) {
    && a.w < |s.writers| && Suits(s.writers[a.w].job, a)
    && var me := s.writers[a.w];
       var cap := MaxUnitsPerSubject(me.env);
       var mine := s.lock == Some(a.w);
       match a
       case Begin(_) => me.stage == Waiting && s.lock == None
       case Busy(_) => me.stage == Waiting && s.lock.Some?
       case Count(_) => mine && me.stage == Begun
       case Fold(_) => mine && me.stage.Counted? && me.stage.stored >= cap
       case Expire(_) => mine && me.stage == Folding
       case Skip(_) => mine && me.stage.Counted? && me.stage.stored < cap
       case Insert(_) => mine && me.stage == Ready
       case Recount(_) => mine && me.stage == Wrote(1)
       case Commit(_) => mine && MayCommit(me)
       case Refuse(_) => mine && me.stage.Recounted? && me.stage.total > cap
       case Abort(_) => mine
       case Apply(_) => me.stage == Waiting && s.lock == None
       case List(_) => mine && me.stage == Begun && ListsSubjects(me.work, me.job.order)
       case Sweep(_) => mine && me.stage.Swept? && me.stage.n < |me.job.order|
  }

  predicate MayCommit(me: Writer) {
    || (me.job.Upserting? && me.stage.Wrote? && me.stage.support != 1)
    || (me.job.Upserting? && me.stage.Recounted? && me.stage.total <= MaxUnitsPerSubject(me.env))
    || (me.job.Sweeping? && me.stage == Swept(|me.job.order|))
  }

  ghost function Advance(me: Writer, committed: Table, a: Action): (w: Writer)
    requires Suits(me.job, a) && (a.Sweep? ==> me.stage.Swept? && me.stage.n < |me.job.order|)
    ensures w.env == me.env && w.job == me.job
  {
    match a
    case Begin(_) => me.(stage := Begun, work := committed)
    case Busy(_) => me.(stage := Failed)
    case Count(_) => me.(stage := Counted(CountOf(me.work, me.job.unit.subject)))
    case Fold(_) => me.(stage := Folding, work := Folded(me.env, me.work, me.job.unit.subject))
    case Expire(_) => me.(stage := Ready, work := Pruned(me.env, me.work, me.job.unit.subject, true))
    case Skip(_) => me.(stage := Ready)
    case Insert(_) => me.(stage := Wrote(Returned(me.work, me.job.unit)), work := Written(me.work, me.job.unit))
    case Recount(_) => me.(stage := Recounted(CountOf(me.work, me.job.unit.subject)))
    case Commit(_) => me.(stage := if me.job.Sweeping? then Finished else Done(if me.stage.Recounted? then Inserted else Reaffirmed))
    case Refuse(_) => me.(stage := Done(Capacity))
    case Abort(_) => me.(stage := Failed)
    case Apply(_) => me.(stage := Finished)
    case List(_) => me.(stage := Swept(0))
    case Sweep(_) =>
      var subject := me.job.order[me.stage.n];
      me.(stage := Swept(me.stage.n + 1), work := Pruned(me.env, Folded(me.env, me.work, subject), subject, false))
  }

  ghost function Next(s: System, a: Action): System
    requires Enabled(s, a)
  {
    var me := s.writers[a.w];
    System(
      if a.Commit? then me.work else if a.Apply? then MemoryRuns.After(me.env, s.committed, OpOf(me.job)) else s.committed,
      if a.Begin? then Some(a.w) else if a.Commit? || a.Refuse? || a.Abort? then None else s.lock,
      s.writers[a.w := Advance(me, s.committed, a)],
      if Ends(a) then s.log + [a.w] else s.log)
  }

  /** The steps that end a transaction with its effect. */
  predicate Ends(a: Action) { a.Commit? || a.Refuse? || a.Apply? }

  ghost predicate FreshJob(t: Table, job: Job) { AddsRow(job) ==> FreshUnit(t, job.unit) }

  ghost predicate Apart(a: Job, b: Job) { AddsRow(a) && AddsRow(b) ==> a.unit.id != b.unit.id }

  /** What the public entry points hand to the table. */
  ghost predicate Proper(job: Job) {
    match job
    case Upserting(unit) => MemoryRuns.Trusted(unit)
    case Recording(unit) => MemoryRuns.Trusted(unit) && unit.key == NoKey && unit.kind == NoKind
    case Invalidating(_, note) => note != ""
    case Sweeping(_) => true
  }

  ghost predicate Start(s: System) {
    && WellFormed(s.committed) && s.lock == None && s.log == []
    && (forall w :: 0 <= w < |s.writers| ==>
          s.writers[w].stage == Waiting && FreshJob(s.committed, s.writers[w].job) && Proper(s.writers[w].job))
    && (forall v, w :: 0 <= v < w < |s.writers| ==> Apart(s.writers[v].job, s.writers[w].job))
  }

  // ----- What holds at every step -----

  /** The uncommitted copy is what the statements so far make of the committed table. */
  ghost predicate InStep(me: Writer, committed: Table) {
    if me.job.Upserting? then
      var s := me.job.unit.subject;
      var r := Relieved(me.env, committed, s);
      match me.stage
      case Begun => me.work == committed
      case Counted(n) => me.work == committed && n == CountOf(committed, s)
      case Folding => CountOf(committed, s) >= MaxUnitsPerSubject(me.env) && me.work == Folded(me.env, committed, s)
      case Ready => me.work == r
      case Wrote(k) => me.work == Written(r, me.job.unit) && k == Returned(r, me.job.unit)
      case Recounted(n) => me.work == Written(r, me.job.unit) && Returned(r, me.job.unit) == 1 && n == CountOf(me.work, s)
      case _ => false
    else
      && me.job.Sweeping?
      && match me.stage
         case Begun => me.work == committed
         case Swept(n) => n <= |me.job.order| && me.work == MemoryRuns.PrunedAll(me.env, committed, me.job.order[..n])
         case _ => false
  }

  ghost predicate Settled(w: Writer) { w.stage.Done? || w.stage == Finished || w.stage == Failed }

  ghost predicate Idle(w: Writer) { w.stage == Waiting || Settled(w) }

  /** Replaying the logged writers one after another, each as one atomic operation. */
  ghost function Replay(start: Table, writers: seq<Writer>, log: seq<nat>): Table
    requires forall i :: 0 <= i < |log| ==> log[i] < |writers|
  {
    if log == [] then start
    else
      var n := |log| - 1;
      var me := writers[log[n]];
      MemoryRuns.After(me.env, Replay(start, writers, log[..n]), OpOf(me.job))
  }

  ghost predicate LogValid(s: System) {
    forall i :: 0 <= i < |s.log| ==> s.log[i] < |s.writers|
  }

  ghost predicate LockHeld(s: System) {
    && (s.lock.Some? ==> s.lock.value < |s.writers| && InStep(s.writers[s.lock.value], s.committed))
    && (forall w :: 0 <= w < |s.writers| && s.lock != Some(w) ==> Idle(s.writers[w]))
  }

  ghost predicate JobsFresh(s: System) {
    && (forall w :: 0 <= w < |s.writers| && !Settled(s.writers[w]) ==> FreshJob(s.committed, s.writers[w].job))
    && (forall v, w :: 0 <= v < w < |s.writers| ==> Apart(s.writers[v].job, s.writers[w].job))
    && (forall w :: 0 <= w < |s.writers| ==> Proper(s.writers[w].job))
  }

  ghost predicate Invariant(start: Table, s: System) {
    && WellFormed(s.committed) && LockHeld(s) && JobsFresh(s)
    && LogValid(s) && s.committed == Replay(start, s.writers, s.log)
  }

  lemma {:induction false} ReplayIgnoresStages(start: Table, a: seq<Writer>, b: seq<Writer>, log: seq<nat>)
    requires |a| == |b| && forall i :: 0 <= i < |a| ==> a[i].env == b[i].env && a[i].job == b[i].job
    requires forall i :: 0 <= i < |log| ==> log[i] < |a|
    ensures Replay(start, a, log) == Replay(start, b, log)
  {
    if log != [] {
      ReplayIgnoresStages(start, a, b, log[..|log| - 1]);
    }
  }

  lemma CommitIsUpsert(me: Writer, committed: Table)
    requires me.job.Upserting? && InStep(me, committed) && MayCommit(me)
    ensures me.work == Upserted(me.env, committed, me.job.unit)
    ensures UpsertOutcome(me.env, committed, me.job.unit) == if me.stage.Recounted? then Inserted else Reaffirmed
  {
  }

  lemma RefuseIsCapacity(me: Writer, committed: Table)
    requires me.job.Upserting? && InStep(me, committed) && me.stage.Recounted? && me.stage.total > MaxUnitsPerSubject(me.env)
    ensures UpsertOutcome(me.env, committed, me.job.unit) == Capacity
    ensures Upserted(me.env, committed, me.job.unit) == committed
  {
  }

  lemma CommitIsSweep(me: Writer, committed: Table)
    requires me.job.Sweeping? && InStep(me, committed) && MayCommit(me)
    ensures me.work == MemoryRuns.PrunedAll(me.env, committed, me.job.order)
  {
    assert me.job.order[..|me.job.order|] == me.job.order;
  }

  /** A step that ends a transaction is the atomic operation, with its answer; every other
      step leaves the committed table alone. */
  lemma StepRefines(start: Table, s: System, a: Action)
    requires Invariant(start, s) && Enabled(s, a)
    ensures var me := s.writers[a.w];
            var s' := Next(s, a);
            && s'.committed == (if Ends(a) then MemoryRuns.After(me.env, s.committed, OpOf(me.job)) else s.committed)
            && (Ends(a) && me.job.Upserting? ==> s'.writers[a.w].stage == Done(UpsertOutcome(me.env, s.committed, me.job.unit)))
  {
    var me := s.writers[a.w];
    if a.Commit? {
      if me.job.Upserting? { CommitIsUpsert(me, s.committed); } else { CommitIsSweep(me, s.committed); }
    } else if a.Refuse? {
      RefuseIsCapacity(me, s.committed);
    }
  }

  lemma UpsertAdvances(s: System, a: Action)
    requires Enabled(s, a) && s.writers[a.w].job.Upserting? && !a.Busy? && !a.Abort? && !Ends(a)
    requires !a.Begin? ==> InStep(s.writers[a.w], s.committed)
    ensures InStep(Advance(s.writers[a.w], s.committed, a), s.committed)
  {
  }

  lemma SweepAdvances(s: System, a: Action)
    requires Enabled(s, a) && s.writers[a.w].job.Sweeping? && !a.Busy? && !a.Abort? && !Ends(a)
    requires !a.Begin? ==> InStep(s.writers[a.w], s.committed)
    ensures InStep(Advance(s.writers[a.w], s.committed, a), s.committed)
  {
    var me := s.writers[a.w];
    if a.Sweep? { OneMoreSubject(me.env, s.committed, me.job.order, me.stage.n); }
  }

  lemma OneMoreSubject(env: Env, t: Table, order: seq<string>, n: nat)
    requires n < |order|
    ensures var before := MemoryRuns.PrunedAll(env, t, order[..n]);
            MemoryRuns.PrunedAll(env, t, order[..n + 1]) == Pruned(env, Folded(env, before, order[n]), order[n], false)
  {
    assert order[..n + 1][..n] == order[..n];
  }

  lemma FreshAfter(env: Env, t: Table, job: Job, other: Job)
    requires WellFormed(t) && FreshJob(t, job) && FreshJob(t, other) && Apart(job, other)
    ensures FreshJob(MemoryRuns.After(env, t, OpOf(job)), other)
  {
    match job
    case Upserting(unit) => RelievedKeeps(env, t, unit.subject);
    case Sweeping(order) => MemoryRuns.PrunedAllKeeps(env, t, order);
    case _ =>
  }

  lemma ReplayOneMore(start: Table, writers: seq<Writer>, log: seq<nat>, w: nat)
    requires forall i :: 0 <= i < |log| ==> log[i] < |writers|
    requires w < |writers|
    ensures Replay(start, writers, log + [w]) == MemoryRuns.After(writers[w].env, Replay(start, writers, log), OpOf(writers[w].job))
  {
    assert (log + [w])[..|log|] == log;
  }

  lemma ReplayAdvances(start: Table, writers: seq<Writer>, log: seq<nat>, w: nat, me: Writer)
    requires w < |writers| && me.env == writers[w].env && me.job == writers[w].job
    requires forall i :: 0 <= i < |log| ==> log[i] < |writers|
    ensures Replay(start, writers[w := me], log) == Replay(start, writers, log)
    ensures Replay(start, writers[w := me], log + [w]) == MemoryRuns.After(me.env, Replay(start, writers, log), OpOf(me.job))
  {
    ReplayIgnoresStages(start, writers, writers[w := me], log);
    ReplayOneMore(start, writers[w := me], log, w);
  }

  lemma StepKeepsReplay(start: Table, s: System, a: Action)
    requires Invariant(start, s) && Enabled(s, a)
    ensures var s' := Next(s, a);
            LogValid(s') && s'.committed == Replay(start, s'.writers, s'.log)
  {
    StepRefines(start, s, a);
    ReplayAdvances(start, s.writers, s.log, a.w, Advance(s.writers[a.w], s.committed, a));
  }

  lemma StepKeepsFresh(start: Table, s: System, a: Action, w: nat)
    requires Invariant(start, s) && Enabled(s, a)
    requires w < |s.writers| && !Settled(Next(s, a).writers[w])
    ensures FreshJob(Next(s, a).committed, s.writers[w].job)
  {
    StepRefines(start, s, a);
    if Ends(a) {
      assert w != a.w;
      FreshAfter(s.writers[a.w].env, s.committed, s.writers[a.w].job, s.writers[w].job);
    }
  }

  lemma StepKeepsJobs(start: Table, s: System, a: Action)
    requires Invariant(start, s) && Enabled(s, a)
    ensures JobsFresh(Next(s, a))
  {
    var s' := Next(s, a);
    assert forall w :: 0 <= w < |s.writers| ==> s'.writers[w].job == s.writers[w].job;
    forall w | 0 <= w < |s'.writers| && !Settled(s'.writers[w]) ensures FreshJob(s'.committed, s'.writers[w].job) {
      StepKeepsFresh(start, s, a, w);
    }
  }

  lemma AfterWellFormed(env: Env, t: Table, job: Job)
    requires WellFormed(t) && FreshJob(t, job) && Proper(job)
    ensures WellFormed(MemoryRuns.After(env, t, OpOf(job)))
  {
    MemoryRuns.StepKeeps(env, t, OpOf(job));
  }

  lemma StepKeepsWellFormed(start: Table, s: System, a: Action)
    requires Invariant(start, s) && Enabled(s, a)
    ensures WellFormed(Next(s, a).committed)
  {
    StepRefines(start, s, a);
    if Ends(a) { AfterWellFormed(s.writers[a.w].env, s.committed, s.writers[a.w].job); }
  }

  lemma StepKeepsLock(start: Table, s: System, a: Action)
    requires Invariant(start, s) && Enabled(s, a)
    ensures LockHeld(Next(s, a))
  {
    var me := s.writers[a.w];
    if !a.Busy? && !a.Abort? && !Ends(a) {
      if me.job.Upserting? { UpsertAdvances(s, a); } else { SweepAdvances(s, a); }
    }
  }

  lemma StepKeepsInvariant(start: Table, s: System, a: Action)
    requires Invariant(start, s) && Enabled(s, a)
    ensures Invariant(start, Next(s, a))
  {
    StepKeepsWellFormed(start, s, a);
    StepKeepsReplay(start, s, a);
    StepKeepsLock(start, s, a);
    StepKeepsJobs(start, s, a);
  }

  // ----- Whole runs -----

  ghost predicate Run(states: seq<System>, actions: seq<Action>) {
    && |states| == |actions| + 1 && Start(states[0])
    && forall i :: 0 <= i < |actions| ==> Enabled(states[i], actions[i]) && states[i + 1] == Next(states[i], actions[i])
  }

  lemma {:induction false} RunInvariant(states: seq<System>, actions: seq<Action>, j: nat)
    requires Run(states, actions) && j < |states|
    ensures Invariant(states[0].committed, states[j])
  {
    if j > 0 {
      RunInvariant(states, actions, j - 1);
      StepKeepsInvariant(states[0].committed, states[j - 1], actions[j - 1]);
    }
  }

  /** Every interleaving is some serial order of whole operations: the committed table
      is always the logged writers replayed one at a time. */
  lemma EveryInterleavingIsSerial(states: seq<System>, actions: seq<Action>, j: nat)
    requires Run(states, actions) && j < |states|
    ensures LogValid(states[j])
    ensures states[j].committed == Replay(states[0].committed, states[j].writers, states[j].log)
  {
    RunInvariant(states, actions, j);
  }

  lemma {:induction false} SameWriters(states: seq<System>, actions: seq<Action>, j: nat)
    requires Run(states, actions) && j < |states|
    ensures |states[j].writers| == |states[0].writers|
    ensures forall w :: 0 <= w < |states[0].writers| ==>
              states[j].writers[w].env == states[0].writers[w].env && states[j].writers[w].job == states[0].writers[w].job
  {
    if j > 0 { SameWriters(states, actions, j - 1); }
  }

  // ----- What serial runs keep, interleaved runs keep -----

  /** From one committed table to the next rows keep their trust columns and their protection. */
  lemma CommitsKeep(states: seq<System>, actions: seq<Action>, j: nat)
    requires Run(states, actions) && j < |actions|
    ensures MemoryRuns.Keeps(states[j].committed, states[j + 1].committed)
    ensures MemoryRuns.AllTrusted(states[j].committed) ==> MemoryRuns.AllTrusted(states[j + 1].committed)
  {
    RunInvariant(states, actions, j);
    var s, a := states[j], actions[j];
    StepRefines(states[0].committed, s, a);
    if Ends(a) {
      var me := s.writers[a.w];
      LegalOp(s.committed, me.job);
      MemoryRuns.StepKeeps(me.env, s.committed, OpOf(me.job));
      if MemoryRuns.AllTrusted(s.committed) { MemoryRuns.StepKeepsTrust(me.env, s.committed, OpOf(me.job)); }
    }
  }

  lemma CommitKeepsRow(states: seq<System>, actions: seq<Action>, j: nat, id: int)
    requires Run(states, actions) && j < |actions|
    requires id in states[j].committed && Protected(states[j].committed[id])
    ensures id in states[j + 1].committed && Protected(states[j + 1].committed[id])
  {
    CommitsKeep(states, actions, j);
    assert MemoryRuns.SameTrust(states[j].committed[id], states[j + 1].committed[id]);
  }

  lemma LegalOp(t: Table, job: Job)
    requires FreshJob(t, job) && Proper(job)
    ensures MemoryRuns.Legal(t, OpOf(job))
  {
  }

  /** Under any interleaving a protected row is in every later committed table. */
  lemma {:induction false} ProtectedInEveryInterleaving(states: seq<System>, actions: seq<Action>, i: nat, j: nat, id: int)
    requires Run(states, actions) && i <= j < |states|
    requires id in states[i].committed && Protected(states[i].committed[id])
    ensures id in states[j].committed && Protected(states[j].committed[id])
  {
    if i < j {
      ProtectedInEveryInterleaving(states, actions, i, j - 1, id);
      CommitKeepsRow(states, actions, j - 1, id);
    }
  }

  /** Under any interleaving a trusted table stays trusted. */
  lemma {:induction false} TrustInEveryInterleaving(states: seq<System>, actions: seq<Action>, j: nat)
    requires Run(states, actions) && j < |states| && MemoryRuns.AllTrusted(states[0].committed)
    ensures MemoryRuns.AllTrusted(states[j].committed)
  {
    if j > 0 {
      TrustInEveryInterleaving(states, actions, j - 1);
      CommitsKeep(states, actions, j - 1);
    }
  }

  // ----- The cap -----

  lemma FewerRows(t: Table, t': Table, subject: string)
    requires t'.Keys <= t.Keys && forall id :: id in t' ==> t'[id].subject == t[id].subject
    ensures CountOf(t', subject) <= CountOf(t, subject)
  {
    var before, after := SubjectIds(t, subject), SubjectIds(t', subject);
    forall id | id in after ensures id in before {
      assert id in t'.Keys && id in t.Keys;
    }
    SubsetSize(after, before);
  }

  /** Every operation but `record_unit` keeps every subject within the cap or where it stood. */
  lemma AfterKeepsCap(env: Env, t: Table, job: Job, subject: string)
    requires WellFormed(t) && FreshJob(t, job) && !job.Recording?
    ensures CountOf(MemoryRuns.After(env, t, OpOf(job)), subject) <= Max(MaxUnitsPerSubject(env), CountOf(t, subject))
  {
    match job
    case Upserting(unit) => UpsertKeepsCap(env, t, unit, subject);
    case Invalidating(id, note) => FewerRows(t, MemoryRuns.After(env, t, OpOf(job)), subject);
    case Sweeping(order) =>
      MemoryRuns.PrunedAllKeeps(env, t, order);
      var p := MemoryRuns.PrunedAll(env, t, order);
      forall id | id in p ensures p[id].subject == t[id].subject { assert MemoryRuns.SameTrust(t[id], p[id]); }
      FewerRows(t, p, subject);
  }

  lemma StepKeepsCap(start: Table, s: System, a: Action, cap: int, subject: string)
    requires Invariant(start, s) && Enabled(s, a)
    requires !s.writers[a.w].job.Recording? && MaxUnitsPerSubject(s.writers[a.w].env) <= cap
    ensures CountOf(Next(s, a).committed, subject) <= Max(cap, CountOf(s.committed, subject))
  {
    StepRefines(start, s, a);
    if Ends(a) { AfterKeepsCap(s.writers[a.w].env, s.committed, s.writers[a.w].job, subject); }
  }

  lemma CapStep(states: seq<System>, actions: seq<Action>, j: nat, cap: int, subject: string)
    requires Run(states, actions) && j < |actions|
    requires forall w :: 0 <= w < |states[0].writers| ==>
               !states[0].writers[w].job.Recording? && MaxUnitsPerSubject(states[0].writers[w].env) <= cap
    ensures CountOf(states[j + 1].committed, subject) <= Max(cap, CountOf(states[j].committed, subject))
  {
    RunInvariant(states, actions, j);
    SameWriters(states, actions, j);
    StepKeepsCap(states[0].committed, states[j], actions[j], cap, subject);
  }

  /** The cap holds in every committed state of every interleaving of any writers but
      `record_unit`, which checks none. */
  lemma {:induction false} CapHoldsInEveryInterleaving(states: seq<System>, actions: seq<Action>, j: nat, cap: int, subject: string)
    requires Run(states, actions) && j < |states|
    requires forall w :: 0 <= w < |states[0].writers| ==>
               !states[0].writers[w].job.Recording? && MaxUnitsPerSubject(states[0].writers[w].env) <= cap
    ensures CountOf(states[j].committed, subject) <= Max(cap, CountOf(states[0].committed, subject))
  {
    if j > 0 {
      CapHoldsInEveryInterleaving(states, actions, j - 1, cap, subject);
      CapStep(states, actions, j - 1, cap, subject);
    }
  }
}
