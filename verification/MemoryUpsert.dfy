/** One `_upsert` transaction as a function of the committed table, and what it guarantees. */
module MemoryUpsert {
  import opened Basics
  import opened FiniteSets
  import opened MemoryTable
  import opened Eviction
  import opened Consolidation

  datatype Outcome = Inserted | Reaffirmed | Capacity

  /** The table after the pressure path: fold, then expire until there is room. */
  ghost function Relieved(env: Env, t: Table, subject: string): Table {
    if CountOf(t, subject) >= MaxUnitsPerSubject(env) then
      Pruned(env, Folded(env, t, subject), subject, true)
    else t
  }

  ghost function Holder(t: Table, key: DedupeKey): (id: int)
    requires KeyStored(t, key)
    ensures id in t && t[id].key == key
  {
    var id :| id in t && t[id].key == key; id
  }

  /** INSERT ... ON CONFLICT(dedupe_key) WHERE dedupe_key <> '' DO UPDATE. */
  ghost function Written(t: Table, unit: Row): Table {
    if KeyStored(t, unit.key) then
      var id := Holder(t, unit.key);
      t[id := t[id].(lastSeen := unit.lastSeen, support := t[id].support + 1)]
    else t[unit.id := unit]
  }

  /** The RETURNING column. */
  ghost function Returned(t: Table, unit: Row): int {
    if KeyStored(t, unit.key) then t[Holder(t, unit.key)].support + 1 else unit.support
  }

  ghost function UpsertOutcome(env: Env, t: Table, unit: Row): Outcome {
    var r := Relieved(env, t, unit.subject);
    if Returned(r, unit) != 1 then Reaffirmed
    else if CountOf(Written(r, unit), unit.subject) > MaxUnitsPerSubject(env) then Capacity
    else Inserted
  }

  ghost function Upserted(env: Env, t: Table, unit: Row): Table {
    if UpsertOutcome(env, t, unit) == Capacity then t
    else Written(Relieved(env, t, unit.subject), unit)
  }

  /** A row as every caller builds it: a fresh id and one confirmation. */
  ghost predicate FreshUnit(t: Table, unit: Row) {
    unit.id !in t && unit.support == 1
  }

  lemma RelievedKeeps(env: Env, t: Table, subject: string)
    requires WellFormed(t)
    ensures var r := Relieved(env, t, subject);
            && WellFormed(r)
            && (forall id :: id in r ==> id in t && SameButCounters(r[id], t[id]))
            && (forall id :: id in t && t[id].subject != subject ==> id in r && r[id] == t[id])
            && (forall id :: id in t && Protected(t[id]) ==> id in r && r[id] == t[id])
            && CountOf(r, subject) <= CountOf(t, subject)
  {
    var f := Folded(env, t, subject);
    FoldKeepsRows(env, t, subject);
    PrunedKeeps(env, f, subject, true);
    var r := Relieved(env, t, subject);
    forall id | id in t && (t[id].subject != subject || Protected(t[id])) ensures id in r && r[id] == t[id] {
      assert id !in FoldedIds(env, t, SubjectKeys(env, t, subject));
    }
    SubsetSize(SubjectIds(r, subject), SubjectIds(t, subject));
  }

  lemma WrittenKeeps(t: Table, unit: Row)
    requires WellFormed(t) && FreshUnit(t, unit)
    ensures WellFormed(Written(t, unit))
    ensures forall id :: id in t ==> id in Written(t, unit) && SameButCounters(Written(t, unit)[id], t[id])
  {
    var w := Written(t, unit);
    if KeyStored(t, unit.key) {
      var h := Holder(t, unit.key);
      assert forall id :: id in w ==> id in t && w[id].key == t[id].key && w[id].id == t[id].id;
    } else {
      assert forall id :: id in w ==> id == unit.id || (id in t && w[id] == t[id] && (unit.key != NoKey ==> t[id].key != unit.key));
    }
  }

  lemma WrittenCount(t: Table, unit: Row, s: string)
    requires WellFormed(t) && FreshUnit(t, unit)
    ensures CountOf(Written(t, unit), s) ==
            CountOf(t, s) + if !KeyStored(t, unit.key) && s == unit.subject then 1 else 0
  {
    if KeyStored(t, unit.key) {
      ConfirmedIds(t, unit, s);
    } else if s == unit.subject {
      InsertedIds(t, unit, s);
    } else {
      assert SubjectIds(t[unit.id := unit], s) == SubjectIds(t, s);
    }
  }

  lemma ConfirmedIds(t: Table, unit: Row, s: string)
    requires KeyStored(t, unit.key)
    ensures SubjectIds(Written(t, unit), s) == SubjectIds(t, s)
  {
    var w := Written(t, unit);
    assert w.Keys == t.Keys;
    forall id | id in t ensures w[id].subject == t[id].subject {}
  }

  lemma InsertedIds(t: Table, unit: Row, s: string)
    requires unit.id !in t && s == unit.subject
    ensures SubjectIds(t[unit.id := unit], s) == SubjectIds(t, s) + {unit.id} && unit.id !in SubjectIds(t, s)
  {
  }

  /** The answer the caller sees says what happened to the key. */
  lemma OutcomeMeaning(env: Env, t: Table, unit: Row)
    requires WellFormed(t) && FreshUnit(t, unit)
    ensures var r := Relieved(env, t, unit.subject);
            var o := UpsertOutcome(env, t, unit);
            && (o == Reaffirmed <==> KeyStored(r, unit.key))
            && (o == Capacity <==> !KeyStored(r, unit.key) && CountOf(r, unit.subject) >= MaxUnitsPerSubject(env))
            && (o == Inserted <==> !KeyStored(r, unit.key) && CountOf(r, unit.subject) < MaxUnitsPerSubject(env))
  {
    var r := Relieved(env, t, unit.subject);
    RelievedKeeps(env, t, unit.subject);
    WrittenCount(r, unit, unit.subject);
  }

  /** Below the cap a new key is one more row. */
  lemma RoomForNew(env: Env, t: Table, unit: Row)
    requires WellFormed(t) && FreshUnit(t, unit) && !KeyStored(t, unit.key)
    requires CountOf(t, unit.subject) < MaxUnitsPerSubject(env)
    ensures Upserted(env, t, unit) == t[unit.id := unit]
  {
    OutcomeMeaning(env, t, unit);
  }

  /** Below the cap a stored key is a confirmation. */
  lemma RoomForKnown(env: Env, t: Table, unit: Row, h: int)
    requires WellFormed(t) && FreshUnit(t, unit) && h in t && t[h].key == unit.key != NoKey
    requires CountOf(t, unit.subject) < MaxUnitsPerSubject(env)
    ensures Upserted(env, t, unit) == t[h := t[h].(lastSeen := unit.lastSeen, support := t[h].support + 1)]
  {
    OutcomeMeaning(env, t, unit);
    assert KeyStored(t, unit.key) && Holder(t, unit.key) == h;
  }

  // At the cap the subject is folded and then relieved of its oldest evidence. What follows
  // depends on what that leaves.

  lemma WrittenAtHolder(p: Table, unit: Row, h: int)
    requires WellFormed(p) && h in p && p[h].key == unit.key != NoKey
    ensures KeyStored(p, unit.key)
    ensures Written(p, unit) == p[h := p[h].(lastSeen := unit.lastSeen, support := p[h].support + 1)]
  {
    assert Holder(p, unit.key) == h;
  }

  /** A key that is still stored is a confirmation. */
  lemma FullConfirms(env: Env, t: Table, unit: Row, p: Table, h: int)
    requires WellFormed(t) && FreshUnit(t, unit) && CountOf(t, unit.subject) >= MaxUnitsPerSubject(env)
    requires p == Pruned(env, Folded(env, t, unit.subject), unit.subject, true) && h in p && p[h].key == unit.key != NoKey
    ensures UpsertOutcome(env, t, unit) == Reaffirmed
    ensures Upserted(env, t, unit) == p[h := p[h].(lastSeen := unit.lastSeen, support := p[h].support + 1)]
  {
    assert p == Relieved(env, t, unit.subject);
    RelievedKeeps(env, t, unit.subject);
    WrittenAtHolder(p, unit, h);
    OutcomeMeaning(env, t, unit);
  }

  /** A new one takes a place that is now free. */
  lemma FullInserts(env: Env, t: Table, unit: Row)
    requires WellFormed(t) && FreshUnit(t, unit) && CountOf(t, unit.subject) >= MaxUnitsPerSubject(env)
    requires var p := Pruned(env, Folded(env, t, unit.subject), unit.subject, true);
             !KeyStored(p, unit.key) && CountOf(p, unit.subject) < MaxUnitsPerSubject(env)
    ensures UpsertOutcome(env, t, unit) == Inserted
    ensures Upserted(env, t, unit) == Pruned(env, Folded(env, t, unit.subject), unit.subject, true)[unit.id := unit]
  {
    OutcomeMeaning(env, t, unit);
  }

  /** Without a free place nothing happens at all, not even the relief. */
  lemma FullRefuses(env: Env, t: Table, unit: Row)
    requires WellFormed(t) && FreshUnit(t, unit) && CountOf(t, unit.subject) >= MaxUnitsPerSubject(env)
    requires var p := Pruned(env, Folded(env, t, unit.subject), unit.subject, true);
             !KeyStored(p, unit.key) && CountOf(p, unit.subject) >= MaxUnitsPerSubject(env)
    ensures UpsertOutcome(env, t, unit) == Capacity && Upserted(env, t, unit) == t
  {
    OutcomeMeaning(env, t, unit);
  }

  lemma UpsertedWellFormed(env: Env, t: Table, unit: Row)
    requires WellFormed(t) && FreshUnit(t, unit)
    ensures WellFormed(Upserted(env, t, unit))
  {
    RelievedKeeps(env, t, unit.subject);
    WrittenKeeps(Relieved(env, t, unit.subject), unit);
  }

  lemma OwnCount(env: Env, t: Table, unit: Row)
    requires WellFormed(t) && FreshUnit(t, unit)
    ensures CountOf(Upserted(env, t, unit), unit.subject) <= Max(MaxUnitsPerSubject(env), CountOf(t, unit.subject))
  {
    RelievedKeeps(env, t, unit.subject);
    WrittenCount(Relieved(env, t, unit.subject), unit, unit.subject);
    OutcomeMeaning(env, t, unit);
  }

  lemma OtherCount(env: Env, t: Table, unit: Row, s: string)
    requires WellFormed(t) && FreshUnit(t, unit) && s != unit.subject
    ensures CountOf(Upserted(env, t, unit), s) == CountOf(t, s)
  {
    var r := Relieved(env, t, unit.subject);
    RelievedKeeps(env, t, unit.subject);
    WrittenCount(r, unit, s);
    assert SubjectIds(r, s) == SubjectIds(t, s);
  }

  /** No write pushes any subject past the cap, or past where it already stood; a
      refused write changes nothing at all. */
  lemma UpsertKeepsCap(env: Env, t: Table, unit: Row, s: string)
    requires WellFormed(t) && FreshUnit(t, unit)
    ensures CountOf(Upserted(env, t, unit), s) <= Max(MaxUnitsPerSubject(env), CountOf(t, s))
    ensures s != unit.subject ==> CountOf(Upserted(env, t, unit), s) == CountOf(t, s)
    ensures UpsertOutcome(env, t, unit) == Capacity ==> Upserted(env, t, unit) == t
  {
    if s == unit.subject { OwnCount(env, t, unit); } else { OtherCount(env, t, unit, s); }
  }

  lemma RelievedLosesARow(env: Env, t: Table, subject: string, id: int)
    requires WellFormed(t) && id in t && t[id].subject == subject
    requires id !in Relieved(env, t, subject)
    ensures CountOf(Relieved(env, t, subject), subject) < CountOf(t, subject)
  {
    RelievedKeeps(env, t, subject);
    var before, after := SubjectIds(t, subject), SubjectIds(Relieved(env, t, subject), subject);
    SubsetSize(after, before);
    assert id in before && id !in after;
  }

  /** A stored key is refused exactly when the pressure path removed its own row and
      still left the subject at or over the cap. */
  lemma RefusedWhenRemoved(env: Env, t: Table, unit: Row)
    requires WellFormed(t) && FreshUnit(t, unit) && KeyStored(t, unit.key)
    ensures UpsertOutcome(env, t, unit) == Capacity <==>
            && Holder(t, unit.key) !in Relieved(env, t, unit.subject)
            && CountOf(Relieved(env, t, unit.subject), unit.subject) >= MaxUnitsPerSubject(env)
  {
    RelievedKeeps(env, t, unit.subject);
    OutcomeMeaning(env, t, unit);
    var r := Relieved(env, t, unit.subject);
    var h := Holder(t, unit.key);
    if h in r { assert r[h].key == unit.key; }
    if KeyStored(r, unit.key) {
      var id := Holder(r, unit.key);
      assert t[id].key == unit.key;
      assert id == h;
    }
  }

  /** What pressure leaves of a subject: with more unevictable rows than the cap allows every
      evictable row goes and no others; otherwise the subject ends below the cap. */
  lemma PrunedCount(env: Env, f: Table, s: string)
    requires WellFormed(f)
    ensures var kept := CountOf(f, s) - |EvictableIds(env, f, s)|;
            var p := Pruned(env, f, s, true);
            && (CountOf(p, s) >= MaxUnitsPerSubject(env) <==> kept >= MaxUnitsPerSubject(env))
            && (kept >= MaxUnitsPerSubject(env) ==> DoomedIds(env, f, s, true) == EvictableIds(env, f, s))
  {
    PressureDeletesExactly(env, f, s);
    var gone, p := DoomedIds(env, f, s, true), Pruned(env, f, s, true);
    assert SubjectIds(p, s) == SubjectIds(f, s) - gone;
    assert gone <= SubjectIds(f, s);
    SubsetSize(EvictableIds(env, f, s), SubjectIds(f, s));
    SubsetSize(gone, EvictableIds(env, f, s));
  }

  lemma RelievedCount(env: Env, t: Table, s: string)
    requires WellFormed(t)
    ensures var f := Folded(env, t, s);
            CountOf(Relieved(env, t, s), s) >= MaxUnitsPerSubject(env) <==>
              CountOf(t, s) >= MaxUnitsPerSubject(env) && CountOf(f, s) - |EvictableIds(env, f, s)| >= MaxUnitsPerSubject(env)
  {
    FoldKeepsRows(env, t, s);
    PrunedCount(env, Folded(env, t, s), s);
  }

  lemma RelievedDrops(env: Env, t: Table, s: string, h: int)
    requires WellFormed(t) && h in t && CountOf(Relieved(env, t, s), s) >= MaxUnitsPerSubject(env)
    ensures var f := Folded(env, t, s);
            CountOf(t, s) >= MaxUnitsPerSubject(env) ==>
              (h !in Relieved(env, t, s) <==> h !in f || EvictableIn(env, f, s, h))
  {
    FoldKeepsRows(env, t, s);
    PrunedCount(env, Folded(env, t, s), s);
  }

  /** When a stored key is refused, said of the table before the call: the subject is at the
      cap, its rows that neither fold away nor may be evicted already fill the cap, and the
      row with the key is one that folds away or may be evicted. */
  lemma StoredKeyRefusedExactly(env: Env, t: Table, unit: Row)
    requires WellFormed(t) && FreshUnit(t, unit) && KeyStored(t, unit.key)
    ensures var s, h, cap := unit.subject, Holder(t, unit.key), MaxUnitsPerSubject(env);
            var f := Folded(env, t, s);
            UpsertOutcome(env, t, unit) == Capacity <==>
              && CountOf(t, s) >= cap
              && CountOf(f, s) - |EvictableIds(env, f, s)| >= cap
              && (h !in f || EvictableIn(env, f, s, h))
  {
    RefusedWhenRemoved(env, t, unit);
    RelievedCount(env, t, unit.subject);
    if CountOf(Relieved(env, t, unit.subject), unit.subject) >= MaxUnitsPerSubject(env) {
      RelievedDrops(env, t, unit.subject, Holder(t, unit.key));
    }
  }

  /** At or under the cap a reaffirmation always lands, even when the pressure path
      folds away or expires the very row being reaffirmed. */
  lemma StoredKeyIsNeverRefused(env: Env, t: Table, unit: Row)
    requires WellFormed(t) && FreshUnit(t, unit) && KeyStored(t, unit.key)
    requires CountOf(t, unit.subject) <= MaxUnitsPerSubject(env)
    ensures UpsertOutcome(env, t, unit) != Capacity
    ensures KeyStored(Upserted(env, t, unit), unit.key)
  {
    RefusedWhenRemoved(env, t, unit);
    RelievedKeeps(env, t, unit.subject);
    var r := Relieved(env, t, unit.subject);
    var h := Holder(t, unit.key);
    if h !in r {
      assert t[h].subject == unit.subject;
      RelievedLosesARow(env, t, unit.subject, h);
    }
    WrittenKeeps(r, unit);
    var w := Written(r, unit);
    if KeyStored(r, unit.key) { assert w[Holder(r, unit.key)].key == unit.key; } else { assert w[unit.id].key == unit.key; }
  }
}
