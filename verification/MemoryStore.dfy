/** The store itself: methods that change the units table row by row, each proved against
    the functions the guarantees are stated about. */
module MemoryStore {
  import opened Basics
  import opened FiniteSets
  import opened StableSort
  import opened Text
  import opened MemoryTable
  import opened Eviction
  import opened Consolidation
  import opened MemoryUpsert
  import opened MemoryRuns
  import opened MemoryRecall

  const AUTO_VERDICT_NOTE := "auto investigation workflow"
  const SUBJECT_KINDS := ["srcip", "campaign", "env", "cve", "indicator", "alert"]

  datatype Refusal = UnknownType | UnknownProvenance | BadSubject | NoText | TooLong | NotAuthoritative
  datatype Result<+T> = Ok(value: T) | Refused(why: Refusal)

  datatype DecisionStatus =
    | Recorded(decision: Outcome, reason: Option<Outcome>)
    | UnknownVerdict

  /** `subject.split(":", 1)[0]` when there is a colon, else empty. */
  function KindOf(subject: string): string {
    if ':' !in subject then ""
    else if subject[0] == ':' then ""
    else [subject[0]] + KindOf(subject[1..])
  }

  /** Every decision and reason the writers store can be read back. */
  lemma WritersAreReadable(u: Row)
    requires Trusted(u) && (u.kind == Decision || u.kind == Reason)
    ensures TrustShapeOk(u)
  {
  }

  /** The kind is what stands before the first colon; without a colon there is none. */
  lemma {:induction false} KindIsBeforeColon(kind: string, rest: string)
    requires ':' !in kind
    ensures KindOf(kind + ":" + rest) == kind && KindOf(kind) == ""
  {
    if kind != "" {
      assert kind[0] in kind && forall c :: c in kind[1..] ==> c in kind;
      KindIsBeforeColon(kind[1..], rest);
      assert kind == [kind[0]] + kind[1..];
      assert (kind + ":" + rest)[1..] == kind[1..] + ":" + rest;
    }
    assert (kind + ":" + rest)[|kind|] == ':';
  }

  class MemoryDb {
    var units: Table

    constructor ()
      ensures units == map[] && AllTrusted(units)
    {
      units := map[];
    }

    /** SELECT * FROM units WHERE subject = ?, in whatever order the engine picks. */
    method Select(subject: string) returns (rows: seq<Row>)
      requires WellFormed(units)
      ensures Enumerates(rows, units, subject)
    {
      rows := [];
      var ids := SubjectIds(units, subject);
      while ids != {}
        invariant ids <= SubjectIds(units, subject)
        invariant Distinct(rows)
        invariant forall i :: 0 <= i < |rows| ==>
                    rows[i].id in units && units[rows[i].id] == rows[i] && rows[i].subject == subject && rows[i].id !in ids
        invariant forall id :: id in SubjectIds(units, subject) ==> id in ids || units[id] in rows
        decreases |ids|
      {
        var id := PickOne(ids);
        rows := rows + [units[id]];
        ids := ids - {id};
      }
    }

    /** Fold duplicate reasons: one UPDATE and some DELETEs for each group. */
    method ConsolidateSubject(env: Env, subject: string) returns (merged: int)
      requires WellFormed(units)
      modifies this
      ensures units == Folded(env, old(units), subject)
      ensures WellFormed(units)
      ensures merged == |old(units)| - |units|
    {
      ghost var start := units;
      var rows := Select(subject);
      merged := 0;
      var keys, groups := ConsolidationGroups(env, rows);
      assert FoldKeys(env, start, KeySet([])) == start by { assert FoldedIds(env, start, KeySet([])) == {}; }
      for i := 0 to |keys|
        invariant units == FoldKeys(env, start, KeySet(keys[..i]))
        invariant merged == |start| - |units|
      {
        GroupIsClass(env, start, subject, rows, keys[i]);
        FoldNext(env, start, keys, i);
        var removed := MergeGroup(groups[keys[i]], start, ClassIds(env, start, keys[i]));
        merged := merged + removed;
      }
      assert keys[..|keys|] == keys;
      AllFolded(env, start, subject, rows, keys);
      FoldKeepsRows(env, start, subject);
    }

    /** The survivor takes the group's earliest and latest stamps and its whole support. */
    method MergeGroup(group: seq<Row>, ghost start: Table, ghost ids: set<int>) returns (removed: int)
      requires WellFormed(start) && group != [] && Lists(group, start, ids)
      requires ids <= start.Keys && ids != {} && ids <= units.Keys
      requires units[Earliest(start, ids)] == start[Earliest(start, ids)]
      modifies this
      ensures units == old(units)[Earliest(start, ids) := MergedSurvivor(start, ids)] - (ids - {Earliest(start, ids)})
      ensures removed == |old(units)| - |units|
    {
      GroupRows(group, start, ids);
      MergedRowIs(group, start, ids);
      removed := WriteGroup(group, MergedSurvivor(start, ids), ids - {Earliest(start, ids)});
    }

    /** One UPDATE of the survivor and one DELETE for each other row. */
    method WriteGroup(group: seq<Row>, ghost merged: Row, ghost others: set<int>) returns (removed: int)
      requires group != [] && Distinct(group) && Survivor(group).id in units && others <= units.Keys
      requires units[Survivor(group).id].(firstSeen := MinFirstSeen(group), lastSeen := MaxLastSeen(group), support := SumSupport(group)) == merged
      requires (set u | u in group && u.id != Survivor(group).id :: u.id) == others
      modifies this
      ensures units == old(units)[Survivor(group).id := merged] - others
      ensures removed == |old(units)| - |units|
    {
      var s := Survivor(group).id;
      units := units[s := units[s].(firstSeen := MinFirstSeen(group), lastSeen := MaxLastSeen(group), support := SumSupport(group))];
      var losers := set u | u in group && u.id != s :: u.id;
      DifferenceSize(units, losers);
      assert units.Keys == old(units).Keys;
      units := units - losers;
      removed := |losers|;
    }

    /** The rows a pass deletes: every expired one, or under pressure only as many as are
        needed, the least first. */
    method Candidates(env: Env, subject: string, makeRoom: bool) returns (candidates: seq<Row>)
      requires WellFormed(units)
      ensures (set u | u in candidates :: u.id) == DoomedIds(env, units, subject, makeRoom)
      ensures |candidates| == |DoomedIds(env, units, subject, makeRoom)|
      ensures |candidates| == var evictable := |EvictableIds(env, units, subject)|;
                              if makeRoom then Min(evictable, Max(0, CountOf(units, subject) - MaxUnitsPerSubject(env) + 1)) else evictable
    {
      var rows := Select(subject);
      candidates := EvictionOrder(env, rows);
      EnumerationSize(rows, units, subject);
      PrefixIsDoomed(env, units, subject, rows, candidates, makeRoom);
      EvictableCount(env, units, subject, rows, candidates);
      assert candidates[..|candidates|] == candidates;
      if makeRoom {
        var room := Max(0, |rows| - MaxUnitsPerSubject(env) + 1);
        candidates := if room < |candidates| then candidates[..room] else candidates;
      }
    }

    /** DELETE them. */
    method PruneSubject(env: Env, subject: string, makeRoom: bool) returns (removed: int)
      requires WellFormed(units)
      modifies this
      ensures units == Pruned(env, old(units), subject, makeRoom)
      ensures WellFormed(units)
      ensures removed == |DoomedIds(env, old(units), subject, makeRoom)|
      ensures removed == var evictable := |EvictableIds(env, old(units), subject)|;
                         if makeRoom then Min(evictable, Max(0, CountOf(old(units), subject) - MaxUnitsPerSubject(env) + 1)) else evictable
    {
      var candidates := Candidates(env, subject, makeRoom);
      PrunedKeeps(env, units, subject, makeRoom);
      removed := |candidates|;
      units := units - set u | u in candidates :: u.id;
    }

    method ExecUpsert(unit: Row) returns (support: int)
      requires WellFormed(units)
      modifies this
      ensures units == Written(old(units), unit) && support == Returned(old(units), unit)
    {
      var same := set id | id in units && units[id].key == unit.key;
      if unit.key != NoKey && same != {} {
        var id := PickOne(same);
        assert units[id].key == unit.key;
        assert id == Holder(units, unit.key);
        support := units[id].support + 1;
        units := units[id := units[id].(lastSeen := unit.lastSeen, support := support)];
      } else {
        assert forall id :: id in units && units[id].key == unit.key ==> id in same;
        support := unit.support;
        units := units[unit.id := unit];
      }
    }

    /** One transaction; `snapshot` is what ROLLBACK restores. */
    method Upsert(env: Env, unit: Row) returns (outcome: Outcome)
      requires WellFormed(units) && FreshUnit(units, unit)
      modifies this
      ensures units == Upserted(env, old(units), unit)
      ensures outcome == UpsertOutcome(env, old(units), unit)
      ensures WellFormed(units)
    {
      UpsertedWellFormed(env, units, unit);
      var snapshot := units;
      var cap := MaxUnitsPerSubject(env);
      var stored := CountOf(units, unit.subject);
      if stored >= cap {
        var _ := ConsolidateSubject(env, unit.subject);
        var _ := PruneSubject(env, unit.subject, true);
      }
      RelievedKeeps(env, snapshot, unit.subject);
      var support := ExecUpsert(unit);
      var created := support == 1;
      if created {
        stored := CountOf(units, unit.subject);
        if stored > cap {
          units := snapshot;
          return Capacity;
        }
      }
      outcome := if created then Inserted else Reaffirmed;
    }

    /** A verdict becomes a decision row, and an analyst's note a tainted reason row. */
    method RecordDecision(env: Env, srcip: string, verdict: string, notes: string, recordedBy: string,
                          now: int, id: int, reasonId: int)
      returns (status: DecisionStatus)
      requires AllTrusted(units) && id !in units && reasonId !in units && id != reasonId
      modifies this
      ensures AllTrusted(units)
      ensures verdict !in VERDICTS ==> status == UnknownVerdict && units == old(units)
      ensures verdict in VERDICTS ==>
                var subject := Strip("srcip:" + env.lower(Strip(srcip)));
                var body := Strip(notes);
                var advisory := recordedBy != "analyst" || Contains(env.lower(body), AUTO_VERDICT_NOTE);
                var d := DecisionUnit(id, now, subject, verdict, advisory);
                var t := Upserted(env, old(units), d);
                && status.Recorded? && status.decision == UpsertOutcome(env, old(units), d)
                && if body == "" || advisory then units == t && status.reason == None
                   else
                     var r := ReasonUnit(reasonId, d, body);
                     units == Upserted(env, t, r) && status.reason == Some(UpsertOutcome(env, t, r))
    {
      if verdict !in VERDICTS { return UnknownVerdict; }
      var subject := Strip("srcip:" + env.lower(Strip(srcip)));
      var body := Strip(notes);
      var advisory := recordedBy != "analyst" || Contains(env.lower(body), AUTO_VERDICT_NOTE);
      var decision := DecisionUnit(id, now, subject, verdict, advisory);
      BuiltUnitsAreTrusted(id, reasonId, now, subject, verdict, advisory, body);
      StepKeepsTrust(env, units, Write(decision));
      UpsertedKeeps(env, units, decision);
      var outcome := Upsert(env, decision);
      if body == "" || advisory { return Recorded(outcome, None); }
      var reason := ReasonUnit(reasonId, decision, body);
      StepKeepsTrust(env, units, Write(reason));
      var second := Upsert(env, reason);
      status := Recorded(outcome, Some(second));
    }

    /** The general writer; it checks the trust rules and no cap. */
    method RecordUnit(id: int, now: int, utype: UnitType, subject: string, text: string, provenance: Provenance, source: string)
      returns (status: Result<Row>)
      requires AllTrusted(units) && id !in units
      modifies this
      ensures AllTrusted(units)
      ensures status.Ok? <==>
                && utype != OtherType && provenance != OtherProvenance
                && KindOf(Strip(subject)) in SUBJECT_KINDS
                && 0 < |Strip(text)| <= 4000
                && (utype == World ==> provenance == Analyst && source in ANALYST_SOURCES)
      ensures status.Ok? ==>
                && units == old(units)[id := status.value]
                && status.value == Row(id, utype, Strip(subject), Strip(text), now, now, 1,
                                       if Strip(source) == "" then "unknown" else Strip(source), provenance,
                                       Tainted(provenance), "", NoKind, "", NoKey)
      ensures status.Refused? ==> units == old(units)
    {
      if utype == OtherType { return Refused(UnknownType); }
      if provenance == OtherProvenance { return Refused(UnknownProvenance); }
      if KindOf(Strip(subject)) !in SUBJECT_KINDS { return Refused(BadSubject); }
      var body := Strip(text);
      if body == "" { return Refused(NoText); }
      if |body| > MAX_TEXT_CHARS { return Refused(TooLong); }
      if utype == World && (provenance != Analyst || source !in ANALYST_SOURCES) {
        return Refused(NotAuthoritative);
      }
      var named := if Strip(source) == "" then "unknown" else Strip(source);
      var unit := Row(id, utype, Strip(subject), body, now, now, 1, named, provenance, Tainted(provenance), "", NoKind, "", NoKey);
      if utype == World { AnalystSourcesAreStripped(source); }
      RecordKeepsTrust(units, unit);
      units := units[id := unit];
      status := Ok(unit);
    }

    /** Withdraw a row from recall and keep it for audit. */
    method InvalidateUnit(ghost env: Env, id: int, reason: string) returns (found: bool)
      requires WellFormed(units)
      modifies this
      ensures found <==> id in old(units)
      ensures !found ==> units == old(units)
      ensures found ==> id in units && Protected(units[id]) && units[id].invalidatedBy == NoteOf(reason)
      ensures found ==> units == After(env, old(units), Invalidate(id, NoteOf(reason)))
      ensures found ==> units == old(units)[id := old(units)[id].(invalidatedBy := NoteOf(reason))]
    {
      var note := WithdrawalNote(reason);
      found := id in units;
      if found { Withdraw(env, id, note); }
    }

    /** UPDATE units SET invalidated_by. */
    method Withdraw(ghost env: Env, id: int, note: string)
      requires id in units && note != ""
      modifies this
      ensures id in units && Protected(units[id]) && units[id].invalidatedBy == note
      ensures units == After(env, old(units), Invalidate(id, note))
      ensures units == old(units)[id := old(units)[id].(invalidatedBy := note)]
    {
      units := units[id := units[id].(invalidatedBy := note)];
    }

    static method WithdrawalNote(reason: string) returns (note: string)
      ensures note == NoteOf(reason) && note != ""
    {
      note := Strip(reason);
      note := if |note| > 200 then note[..200] else note;
      if note == "" { note := "unspecified"; }
    }

    /** The operator's sweep over every subject the table holds. */
    method PruneMemory(env: Env) returns (subjects: seq<string>, pruned: int, merged: int)
      requires WellFormed(units)
      modifies this
      ensures forall s :: s in subjects <==> exists id :: id in old(units) && old(units)[id].subject == s
      ensures units == PrunedAll(env, old(units), subjects)
      ensures NoRepeats(subjects)
      ensures pruned + merged == |old(units)| - |units|
      ensures merged == MergedAway(env, old(units), subjects)
      ensures forall s :: Tidy(env, units, s)
    {
      subjects := DistinctSubjects();
      ghost var start := units;
      ghost var step, loss := SweepStep(env), FoldLoss(env);
      forall t, s ensures Sweeps(env, step, loss, t, s) {}
      pruned, merged := SweepAll(env, subjects, step, loss);
      SweptIsPruned(env, start, subjects);
      forall s ensures Tidy(env, units, s) { WholeTableTidy(env, start, subjects, s); }
    }

    /** The loop of the sweep, whatever one subject's step is. */
    method SweepAll(env: Env, subjects: seq<string>, ghost step: (Table, string) -> Table, ghost loss: (Table, string) -> int)
      returns (pruned: int, merged: int)
      requires WellFormed(units) && forall t, s :: Sweeps(env, step, loss, t, s)
      modifies this
      ensures units == Swept(step, old(units), subjects)
      ensures merged == Lost(step, loss, old(units), subjects) && pruned + merged == |old(units)| - |units|
    {
      ghost var start := units;
      pruned, merged := 0, 0;
      for i := 0 to |subjects|
        invariant WellFormed(units) && units == Swept(step, start, subjects[..i])
        invariant pruned + merged == |start| - |units| && merged == Lost(step, loss, start, subjects[..i])
      {
        assert subjects[..i + 1][..i] == subjects[..i];
        var m, p := SweepSubject(env, subjects[i], step, loss);
        merged, pruned := merged + m, pruned + p;
      }
      assert subjects[..|subjects|] == subjects;
    }

    /** SELECT DISTINCT subject FROM units, in whatever order the engine picks. */
    method DistinctSubjects() returns (subjects: seq<string>)
      ensures forall s :: s in subjects <==> exists id :: id in units && units[id].subject == s
      ensures NoRepeats(subjects)
    {
      subjects := [];
      var pending := set id | id in units :: units[id].subject;
      ghost var all := pending;
      while pending != {}
        invariant pending <= all
        invariant forall s :: s in all <==> s in pending || s in subjects
        invariant forall s :: s in subjects ==> s !in pending
        invariant NoRepeats(subjects)
        decreases |pending|
      {
        var s := PickOne(pending);
        subjects := subjects + [s];
        pending := pending - {s};
      }
    }

    /** One subject of the sweep: fold, then expire. */
    method SweepSubject(env: Env, subject: string, ghost step: (Table, string) -> Table, ghost loss: (Table, string) -> int)
      returns (merged: int, pruned: int)
      requires WellFormed(units) && forall t, s :: Sweeps(env, step, loss, t, s)
      modifies this
      ensures WellFormed(units) && units == step(old(units), subject)
      ensures merged == loss(old(units), subject) && merged + pruned == |old(units)| - |units|
    {
      assert Sweeps(env, step, loss, units, subject);
      merged := ConsolidateSubject(env, subject);
      DifferenceSize(units, DoomedIds(env, units, subject, false));
      pruned := PruneSubject(env, subject, false);
    }

    /** Prior decisions and reasons for one subject; withdrawn and inconsistent rows are
        left out, and each list is clamped. */
    method RecallSubject(env: Env, subject: string, limit: int)
      returns (decisions: seq<DecisionView>, reasons: seq<ReasonView>, ghost shown: seq<Row>, ghost told: seq<Row>)
      requires WellFormed(units)
      ensures BestReadable(env, units, subject, Decision, shown, Max(1, Min(limit, 20)))
      ensures BestReadable(env, units, subject, Reason, told, Max(1, Min(limit, 20)))
      ensures decisions == DecisionViews(shown) && reasons == ReasonViews(told)
      ensures forall d :: d in decisions ==> d.id in units && d.verdict in VERDICTS && (d.advisory <==> !Protected(units[d.id]))
    {
      var bounded := Max(1, Min(if limit == 0 then 1 else limit, RECALL_MAX_LIMIT));
      var found := Select(subject);
      var rows := SortBy(NewestFirst, Live(found));
      rows := Take(SortBy(Heaviest(env), rows), RECALL_READ_LIMIT);
      BestAreTaken(env, units, subject, found, Decision, bounded);
      BestAreTaken(env, units, subject, found, Reason, bounded);
      var ds := Take(Kept(rows, Decision), bounded);
      var rs := Take(Kept(rows, Reason), bounded);
      decisions, reasons, shown, told := DecisionViews(ds), ReasonViews(rs), ds, rs;
      ViewsAreHonest(units, subject, ds);
    }
  }

  /** The note a withdrawal leaves: at most 200 characters and never empty. */
  function NoteOf(reason: string): (note: string)
    ensures 0 < |note| <= 200 && (Strip(reason) == "" ==> note == "unspecified")
    ensures Strip(reason) != "" ==> note <= Strip(reason) && (|note| == 200 || note == Strip(reason))
  {
    if Strip(reason) == "" then "unspecified"
    else if |Strip(reason)| > 200 then Strip(reason)[..200] else Strip(reason)
  }

  ghost function SweepStep(env: Env): (Table, string) -> Table {
    (t: Table, s: string) => Pruned(env, Folded(env, t, s), s, false)
  }

  /** How many rows the fold of one subject removes. */
  ghost function FoldLoss(env: Env): (Table, string) -> int { (t: Table, s: string) => |t| - |Folded(env, t, s)| }

  ghost predicate Sweeps(env: Env, step: (Table, string) -> Table, loss: (Table, string) -> int, t: Table, s: string) {
    step(t, s) == Pruned(env, Folded(env, t, s), s, false) && loss(t, s) == |t| - |Folded(env, t, s)|
  }

  ghost function Swept(step: (Table, string) -> Table, t: Table, subjects: seq<string>): Table {
    if subjects == [] then t else step(Swept(step, t, subjects[..|subjects| - 1]), subjects[|subjects| - 1])
  }

  ghost function Lost(step: (Table, string) -> Table, loss: (Table, string) -> int, t: Table, subjects: seq<string>): int {
    if subjects == [] then 0
    else
      var n := |subjects| - 1;
      Lost(step, loss, t, subjects[..n]) + loss(Swept(step, t, subjects[..n]), subjects[n])
  }

  lemma {:induction false} SweptIsPruned(env: Env, t: Table, subjects: seq<string>)
    ensures Swept(SweepStep(env), t, subjects) == PrunedAll(env, t, subjects)
  {
    if subjects != [] { SweptIsPruned(env, t, subjects[..|subjects| - 1]); }
  }

  /** How many rows the folds of a sweep remove. */
  ghost function MergedAway(env: Env, t: Table, subjects: seq<string>): int { Lost(SweepStep(env), FoldLoss(env), t, subjects) }

  lemma DifferenceSize(t: Table, ids: set<int>)
    requires ids <= t.Keys
    ensures |t - ids| == |t| - |ids|
  {
    assert (t - ids).Keys == t.Keys - ids;
  }

  lemma GroupIsClass(env: Env, t: Table, subject: string, rows: seq<Row>, k: GroupKey)
    requires WellFormed(t) && Enumerates(rows, t, subject) && |Members(env, rows, k)| > 1
    ensures k.subject == subject && |ClassIds(env, t, k)| > 1
    ensures Lists(Members(env, rows, k), t, ClassIds(env, t, k))
  {
    assert Members(env, rows, k)[0] in Members(env, rows, k);
    MembersListClass(env, t, subject, rows, k);
  }

  ghost function KeySet(keys: seq<GroupKey>): set<GroupKey> { set k | k in keys }

  lemma FoldNext(env: Env, t: Table, keys: seq<GroupKey>, i: nat)
    requires WellFormed(t) && i < |keys| && |ClassIds(env, t, keys[i])| > 1
    requires NoRepeats(keys)
    ensures var ids := ClassIds(env, t, keys[i]);
            var before := FoldKeys(env, t, KeySet(keys[..i]));
            && ids != {} && ids <= before.Keys && before[Earliest(t, ids)] == t[Earliest(t, ids)]
            && FoldKeys(env, t, KeySet(keys[..i + 1])) == before[Earliest(t, ids) := MergedSurvivor(t, ids)] - (ids - {Earliest(t, ids)})
  {
    var done := KeySet(keys[..i]);
    assert KeySet(keys[..i + 1]) == done + {keys[i]};
    FoldStep(env, t, done, keys[i]);
    forall id | id in ClassIds(env, t, keys[i]) ensures id !in FoldedIds(env, t, done) {
      FoldStepAt(env, t, done, keys[i], id);
    }
  }

  lemma AllFolded(env: Env, t: Table, subject: string, rows: seq<Row>, keys: seq<GroupKey>)
    requires WellFormed(t) && Enumerates(rows, t, subject)
    requires forall k :: k in keys <==> |Members(env, rows, k)| > 1
    ensures FoldKeys(env, t, KeySet(keys)) == Folded(env, t, subject)
  {
    forall k: GroupKey | k.subject == subject && |ClassIds(env, t, k)| > 1 ensures k in KeySet(keys) {
      MembersListClass(env, t, subject, rows, k);
    }
    forall k | k in keys ensures k in SubjectKeys(env, t, subject) {
      var u := Members(env, rows, k)[0];
      assert u in Members(env, rows, k);
      assert u.id in t && t[u.id] == u;
    }
    FoldRest(env, t, subject, KeySet(keys));
  }

  lemma RecordKeepsTrust(t: Table, unit: Row)
    requires AllTrusted(t) && FreshUnit(t, unit) && Trusted(unit) && unit.key == NoKey
    ensures AllTrusted(t[unit.id := unit])
  {
  }

  lemma AnalystSourcesAreStripped(source: string)
    requires source in ANALYST_SOURCES
    ensures Strip(source) == source && source != ""
  {
    assert source == "manual" || source == "verdict" || source == "analyst";
    assert source[0] in ['m', 'v', 'a'] && source[|source| - 1] in ['l', 't'];
    StripNothing(source);
  }
}
