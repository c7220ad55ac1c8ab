/** How a subject gets over its cap, and what a reaffirmation then meets. */
module MemoryOverfull {
  import opened MemoryTable
  import opened Eviction
  import opened Consolidation
  import opened MemoryUpsert
  import opened MemoryRuns

  lemma OneSubjectCount(t: Table, s: string)
    requires forall id :: id in t ==> t[id].subject == s
    ensures CountOf(t, s) == |t|
  {
    forall id ensures id in SubjectIds(t, s) <==> id in t.Keys {}
    assert SubjectIds(t, s) == t.Keys;
  }

  /** Where two reasons are the only ones that fold, folding removes the later. */
  lemma PairFolds(env: Env, t: Table, s: string, a: int, b: int)
    requires WellFormed(t) && a in t && b in t && a != b && Foldable(t[a]) && Foldable(t[b])
    requires KeyOf(env, t[a]) == KeyOf(env, t[b]) && t[a].subject == s && Earlier(t[a], t[b])
    requires forall id :: id in t && id != a && id != b ==> !Foldable(t[id])
    ensures Folded(env, t, s).Keys == t.Keys - {b}
  {
    var k := KeyOf(env, t[a]);
    var keys := SubjectKeys(env, t, s);
    ClassInKeys(env, t, a);
    assert ClassIds(env, t, k) == {a, b};
    assert FoldedAway(env, t, keys, b);
    forall id | id in t && id != b ensures !FoldedAway(env, t, keys, id) {
      if id == a { assert !Earlier(t[b], t[a]); }
    }
    assert FoldedIds(env, t, keys) == {b};
  }

  /** The rows of the story: a decision with a note, the same decision with the note written
      differently, a unit recorded on the side, and another decision with the second note. */
  datatype Story = Story(subject: string, decision: Row, first: Row, again: Row, second: Row, side: Row, other: Row, last: Row)

  /** One analyst, cap 3, no expiry; the two notes fold to one text. */
  ghost predicate Told(env: Env, st: Story, v: string, w: string, note: string, renote: string) {
    && MaxUnitsPerSubject(env) == 3 && env.ttlSeconds <= 0
    && v in VERDICTS && w in VERDICTS && v != w && note != renote && |note| <= MAX_TEXT_CHARS && |renote| <= MAX_TEXT_CHARS
    && env.norm(note) == env.norm(renote)
    && st.decision == DecisionUnit(1, 10, st.subject, v, false) && st.first == ReasonUnit(2, st.decision, note)
    && st.again == DecisionUnit(3, 20, st.subject, v, false) && st.second == ReasonUnit(4, st.again, renote)
    && st.side.id == 5 && st.side.subject == st.subject && st.side.support == 1 && Trusted(st.side)
    && st.side.key == NoKey && st.side.kind == NoKind
    && st.other == DecisionUnit(6, 30, st.subject, w, false) && st.last == ReasonUnit(7, st.other, renote)
  }

  /** What matters of the rows. */
  ghost predicate Cast(env: Env, st: Story) {
    && MaxUnitsPerSubject(env) == 3 && env.ttlSeconds <= 0
    && st.decision.id == 1 && st.first.id == 2 && st.again.id == 3 && st.second.id == 4
    && st.side.id == 5 && st.other.id == 6 && st.last.id == 7
    && Fits(st.decision, st.subject) && Fits(st.first, st.subject) && Fits(st.again, st.subject) && Fits(st.second, st.subject)
    && Fits(st.side, st.subject) && Fits(st.other, st.subject) && Fits(st.last, st.subject)
    && st.decision.key == st.again.key != NoKey && st.second.key == st.last.key != NoKey
    && st.first.key != NoKey && st.other.key != NoKey && st.side.key == NoKey
    && st.decision.key != st.first.key && st.decision.key != st.second.key && st.first.key != st.second.key
    && st.other.key != st.decision.key && st.other.key != st.first.key && st.other.key != st.second.key
    && Foldable(st.first) && Foldable(st.second) && Earlier(st.first, st.second) && KeyOf(env, st.first) == KeyOf(env, st.second)
    && st.decision.kind == Decision && st.side.kind == NoKind
  }

  ghost predicate Fits(u: Row, s: string) { u.subject == s && u.support == 1 && Trusted(u) }

  lemma ToldCast(env: Env, st: Story, v: string, w: string, note: string, renote: string)
    requires Told(env, st, v, w, note, renote)
    ensures Cast(env, st)
  {
    BuiltUnitsAreTrusted(1, 2, 10, st.subject, v, false, note);
    BuiltUnitsAreTrusted(3, 4, 20, st.subject, v, false, renote);
    BuiltUnitsAreTrusted(6, 7, 30, st.subject, w, false, renote);
  }

  ghost function Ops(st: Story): seq<Op> {
    [] + [Write(st.decision)] + [Write(st.first)] + [Write(st.again)] + [Write(st.second)] + [Record(st.side)] + [Write(st.other)]
  }

  ghost function Decided(st: Story): Table { map[1 := st.decision] }
  ghost function Noted(st: Story): Table { map[1 := st.decision, 2 := st.first] }
  ghost function Twice(st: Story): Row { st.decision.(lastSeen := st.again.lastSeen, support := 2) }
  ghost function Confirmed(st: Story): Table { map[1 := Twice(st), 2 := st.first] }
  ghost function Renoted(st: Story): Table { map[1 := Twice(st), 2 := st.first, 4 := st.second] }
  ghost function Overfull(st: Story): Table { map[1 := Twice(st), 2 := st.first, 4 := st.second, 5 := st.side] }
  ghost function States(st: Story): seq<Table> {
    [map[]] + [Decided(st)] + [Noted(st)] + [Confirmed(st)] + [Renoted(st)] + [Overfull(st)] + [Overfull(st)]
  }

  lemma PairTable(a: Row, b: Row, s: string)
    requires a.id == 1 && b.id == 2 && a.subject == b.subject == s && a.support >= 1 && b.support >= 1 && a.key != b.key
    ensures WellFormed(map[1 := a, 2 := b]) && CountOf(map[1 := a, 2 := b], s) == 2
  {
    var t: Table := map[1 := a, 2 := b];
    assert t.Keys == {1, 2};
    assert |t.Keys| == 2;
    OneSubjectCount(t, s);
  }

  lemma FourTable(a: Row, b: Row, c: Row, d: Row, s: string)
    requires a.id == 1 && b.id == 2 && c.id == 4 && d.id == 5
    requires a.subject == b.subject == c.subject == d.subject == s
    requires a.support >= 1 && b.support >= 1 && c.support >= 1 && d.support >= 1
    requires a.key != b.key && a.key != c.key && b.key != c.key && d.key == NoKey
    ensures var t: Table := map[1 := a, 2 := b, 4 := c, 5 := d];
            WellFormed(t) && CountOf(t, s) == 4 && t.Keys == {1, 2, 4, 5} && forall id :: id in t ==> t[id].subject == s
  {
    var t: Table := map[1 := a, 2 := b, 4 := c, 5 := d];
    assert t.Keys == {1, 2, 4, 5};
    assert |t.Keys| == 4;
    OneSubjectCount(t, s);
  }

  lemma FirstStep(env: Env, st: Story)
    requires Cast(env, st)
    ensures Upserted(env, map[], st.decision) == Decided(st)
  {
    OneSubjectCount(map[], st.subject);
    RoomForNew(env, map[], st.decision);
  }

  lemma SecondStep(env: Env, st: Story)
    requires Cast(env, st)
    ensures Upserted(env, Decided(st), st.first) == Noted(st)
  {
    OneSubjectCount(Decided(st), st.subject);
    RoomForNew(env, Decided(st), st.first);
  }

  lemma ThirdStep(env: Env, st: Story)
    requires Cast(env, st)
    ensures Upserted(env, Noted(st), st.again) == Confirmed(st)
  {
    PairTable(st.decision, st.first, st.subject);
    RoomForKnown(env, Noted(st), st.again, 1);
  }

  lemma FourthStep(env: Env, st: Story)
    requires Cast(env, st)
    ensures Upserted(env, Confirmed(st), st.second) == Renoted(st)
  {
    PairTable(Twice(st), st.first, st.subject);
    RoomForNew(env, Confirmed(st), st.second);
  }

  lemma OverfullRows(env: Env, st: Story)
    requires Cast(env, st)
    ensures WellFormed(Overfull(st)) && CountOf(Overfull(st), st.subject) == 4 && Overfull(st).Keys == {1, 2, 4, 5}
    ensures forall id :: id in Overfull(st) ==> Overfull(st)[id].subject == st.subject
  {
    FourTable(Twice(st), st.first, st.second, st.side, st.subject);
  }

  lemma OverfullFolds(env: Env, st: Story)
    requires Cast(env, st)
    ensures var f := Folded(env, Overfull(st), st.subject);
            4 !in f && CountOf(f, st.subject) == 3 && EvictableIds(env, f, st.subject) == {}
  {
    OverfullRows(env, st);
    PairFolds(env, Overfull(st), st.subject, 2, 4);
    FoldedThree(env, Overfull(st), st.subject);
    NothingExpires(env, Folded(env, Overfull(st), st.subject), st.subject);
  }

  lemma FoldedThree(env: Env, t: Table, s: string)
    requires WellFormed(t) && t.Keys == {1, 2, 4, 5} && forall id :: id in t ==> t[id].subject == s
    requires Folded(env, t, s).Keys == t.Keys - {4}
    ensures CountOf(Folded(env, t, s), s) == 3
  {
    var f := Folded(env, t, s);
    FoldKeepsRows(env, t, s);
    var ids := t.Keys - {4};
    assert ids == {1, 2, 5} && |ids| == 3;
    assert f.Keys == ids;
    OneSubjectCount(f, s);
  }

  lemma NothingExpires(env: Env, t: Table, s: string)
    requires env.ttlSeconds <= 0
    ensures EvictableIds(env, t, s) == {}
  {
    forall id ensures !EvictableIn(env, t, s, id) {}
  }

  /** A new verdict finds no room and is rolled back. */
  lemma OtherRefused(env: Env, st: Story)
    requires Cast(env, st)
    ensures FreshUnit(Overfull(st), st.other) && Upserted(env, Overfull(st), st.other) == Overfull(st)
  {
    var t, s := Overfull(st), st.subject;
    OverfullRows(env, st);
    OverfullFolds(env, st);
    NewKeyRefused(env, t, st.other);
  }

  lemma NewKeyRefused(env: Env, t: Table, unit: Row)
    requires WellFormed(t) && FreshUnit(t, unit) && !KeyStored(t, unit.key)
    requires var f := Folded(env, t, unit.subject);
             && CountOf(t, unit.subject) >= MaxUnitsPerSubject(env)
             && CountOf(f, unit.subject) - |EvictableIds(env, f, unit.subject)| >= MaxUnitsPerSubject(env)
    ensures Upserted(env, t, unit) == t
  {
    RelievedCount(env, t, unit.subject);
    KeyStaysNew(env, t, unit);
    OutcomeMeaning(env, t, unit);
  }

  lemma KeyStaysNew(env: Env, t: Table, unit: Row)
    requires WellFormed(t) && !KeyStored(t, unit.key)
    ensures !KeyStored(Relieved(env, t, unit.subject), unit.key)
  {
    RelievedKeeps(env, t, unit.subject);
  }

  ghost predicate StepIs(env: Env, t: Table, op: Op, t': Table) { Legal(t, op) && t' == After(env, t, op) }

  ghost predicate UpTo(t: Table, n: int) { forall id :: id in t ==> id <= n }

  ghost predicate Numbered(op: Op, n: int) { (op.Write? || op.Record?) && op.unit.id == n }

  /** Steps from the empty table that number their new rows in order. */
  ghost predicate Numbers(env: Env, states: seq<Table>, ops: seq<Op>) {
    && |states| == |ops| + 1 && states[0] == map[]
    && (forall i :: 0 <= i < |ops| ==> StepIs(env, states[i], ops[i], states[i + 1]) && Numbered(ops[i], i + 1))
    && (forall k :: 0 <= k < |states| ==> UpTo(states[k], k))
  }

  lemma OneMore(env: Env, states: seq<Table>, ops: seq<Op>, op: Op, t: Table)
    requires Numbers(env, states, ops) && StepIs(env, states[|ops|], op, t)
    requires UpTo(t, |states|) && Numbered(op, |ops| + 1)
    ensures Numbers(env, states + [t], ops + [op])
  {
  }

  lemma NumberedRun(env: Env, states: seq<Table>, ops: seq<Op>)
    requires Numbers(env, states, ops)
    ensures Run(states, seq(|ops|, i => env), ops)
  {
    forall i | 0 <= i < |ops| ensures Legal(states[i], ops[i]) && states[i + 1] == After(env, states[i], ops[i]) {
      assert StepIs(env, states[i], ops[i], states[i + 1]);
    }
    forall i, k | 0 <= k <= i < |ops| ensures ops[i].unit.id !in states[k] {
      assert UpTo(states[k], k) && Numbered(ops[i], i + 1);
    }
  }

  lemma DecisionSteps(env: Env, st: Story)
    requires Cast(env, st)
    ensures StepIs(env, map[], Write(st.decision), Decided(st)) && StepIs(env, Decided(st), Write(st.first), Noted(st))
  {
    FirstStep(env, st);
    SecondStep(env, st);
  }

  lemma RepeatSteps(env: Env, st: Story)
    requires Cast(env, st)
    ensures StepIs(env, Noted(st), Write(st.again), Confirmed(st)) && StepIs(env, Confirmed(st), Write(st.second), Renoted(st))
  {
    ThirdStep(env, st);
    FourthStep(env, st);
  }

  lemma SideSteps(env: Env, st: Story)
    requires Cast(env, st)
    ensures StepIs(env, Renoted(st), Record(st.side), Overfull(st)) && StepIs(env, Overfull(st), Write(st.other), Overfull(st))
  {
    OtherRefused(env, st);
    assert Renoted(st)[5 := st.side] == Overfull(st);
  }

  lemma StoryNumbers(env: Env, st: Story)
    requires Cast(env, st)
    ensures UpTo(Decided(st), 1) && UpTo(Noted(st), 2) && UpTo(Confirmed(st), 3) && UpTo(Renoted(st), 4)
    ensures UpTo(Overfull(st), 5) && UpTo(Overfull(st), 6)
  {
  }

  lemma HalfWay(env: Env, st: Story)
    requires Cast(env, st)
    ensures Numbers(env, [map[]] + [Decided(st)] + [Noted(st)] + [Confirmed(st)], [] + [Write(st.decision)] + [Write(st.first)] + [Write(st.again)])
  {
    DecisionSteps(env, st);
    RepeatSteps(env, st);
    StoryNumbers(env, st);
    OneMore(env, [map[]], [], Write(st.decision), Decided(st));
    OneMore(env, [map[]] + [Decided(st)], [] + [Write(st.decision)], Write(st.first), Noted(st));
    OneMore(env, [map[]] + [Decided(st)] + [Noted(st)], [] + [Write(st.decision)] + [Write(st.first)], Write(st.again), Confirmed(st));
  }

  lemma AllTheWay(env: Env, st: Story, half: seq<Table>, ops: seq<Op>)
    requires Cast(env, st) && Numbers(env, half, ops) && |ops| == 3 && half[3] == Confirmed(st)
    ensures Numbers(env, half + [Renoted(st)] + [Overfull(st)] + [Overfull(st)], ops + [Write(st.second)] + [Record(st.side)] + [Write(st.other)])
  {
    RepeatSteps(env, st);
    SideSteps(env, st);
    StoryNumbers(env, st);
    OneMore(env, half, ops, Write(st.second), Renoted(st));
    OneMore(env, half + [Renoted(st)], ops + [Write(st.second)], Record(st.side), Overfull(st));
    OneMore(env, half + [Renoted(st)] + [Overfull(st)], ops + [Write(st.second)] + [Record(st.side)], Write(st.other), Overfull(st));
  }

  lemma OverfullIsReached(env: Env, st: Story)
    requires Cast(env, st)
    ensures Run(States(st), seq(6, i => env), Ops(st))
  {
    HalfWay(env, st);
    AllTheWay(env, st, [map[]] + [Decided(st)] + [Noted(st)] + [Confirmed(st)], [] + [Write(st.decision)] + [Write(st.first)] + [Write(st.again)]);
    NumberedRun(env, States(st), Ops(st));
  }

  /** Over the cap the guarantee is lost. `record_unit`, which checks no cap, takes a subject
      there; a second decision then finds no room, and its note, stored before, is refused
      because folding takes the row that holds it and leaves the subject full. */
  lemma OverfullSubjectRefusesStoredKey(env: Env, st: Story, v: string, w: string, note: string, renote: string)
    requires Told(env, st, v, w, note, renote)
    ensures Run(States(st), seq(6, i => env), Ops(st))
    ensures var t := States(st)[6];
            FreshUnit(t, st.last) && KeyStored(t, st.last.key) && CountOf(t, st.subject) == 4 && UpsertOutcome(env, t, st.last) == Capacity
  {
    ToldCast(env, st, v, w, note, renote);
    OverfullIsReached(env, st);
    OverfullRows(env, st);
    OverfullFolds(env, st);
    var t := Overfull(st);
    assert 4 in t && t[4].key == st.last.key;
    assert Holder(t, st.last.key) == 4;
    StoredKeyRefusedExactly(env, t, st.last);
  }
}
