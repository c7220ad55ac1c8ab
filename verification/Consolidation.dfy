/** Lossless folding of duplicate reasons. */
module Consolidation {
  import opened Basics
  import opened FiniteSets
  import opened MemoryTable

  /** What two reasons must share to be duplicates. */
  datatype GroupKey = GroupKey(subject: string, provenance: Provenance, norm: string)

  function KeyOf(env: Env, u: Row): GroupKey {
    GroupKey(u.subject, u.provenance, env.norm(u.text))
  }

  predicate Foldable(u: Row) { u.kind == Reason && !Protected(u) }

  /** The survivor's sort key, compared as a pair. */
  predicate Earlier(x: Row, y: Row) {
    x.firstSeen < y.firstSeen || (x.firstSeen == y.firstSeen && x.id < y.id)
  }

  // ----- The fold, class by class -----

  ghost function ClassIds(env: Env, t: Table, k: GroupKey): set<int> {
    set id | id in t && Foldable(t[id]) && KeyOf(env, t[id]) == k
  }

  ghost function TotalSupport(t: Table, ids: set<int>): int
    requires ids <= t.Keys
  {
    if ids == {} then 0
    else var x := Pick(ids); Support(t[x]) + TotalSupport(t, ids - {x})
  }

  lemma {:induction false} TotalSupportRemove(t: Table, ids: set<int>, x: int)
    requires ids <= t.Keys && x in ids
    ensures TotalSupport(t, ids) == Support(t[x]) + TotalSupport(t, ids - {x})
  {
    var y := Pick(ids);
    if y != x {
      TotalSupportRemove(t, ids - {y}, x);
      TotalSupportRemove(t, ids - {x}, y);
      assert ids - {y} - {x} == ids - {x} - {y};
    }
  }

  ghost function LatestSeen(t: Table, ids: set<int>): (r: int)
    requires ids <= t.Keys && ids != {}
    ensures forall y :: y in ids ==> t[y].lastSeen <= r
    ensures exists y :: y in ids && t[y].lastSeen == r
  {
    var x := Pick(ids);
    if ids == {x} then t[x].lastSeen
    else
      var rest := LatestSeen(t, ids - {x});
      assert exists y :: y in ids - {x} && t[y].lastSeen == rest;
      assert ids == ids - {x} + {x};
      Max(t[x].lastSeen, rest)
  }

  ghost function Earliest(t: Table, ids: set<int>): (r: int)
    requires ids <= t.Keys && ids != {}
    requires forall id :: id in t ==> t[id].id == id
    ensures r in ids && forall y :: y in ids && y != r ==> Earlier(t[r], t[y])
  {
    var x := Pick(ids);
    if ids == {x} then x
    else
      var rest := Earliest(t, ids - {x});
      assert ids == ids - {x} + {x};
      if Earlier(t[x], t[rest]) then x else rest
  }

  ghost predicate FoldedAway(env: Env, t: Table, keys: set<GroupKey>, id: int)
    requires id in t
  {
    && Foldable(t[id]) && KeyOf(env, t[id]) in keys
    && exists j :: j in ClassIds(env, t, KeyOf(env, t[id])) && Earlier(t[j], t[id])
  }

  ghost function FoldedIds(env: Env, t: Table, keys: set<GroupKey>): set<int> {
    set id | id in t && FoldedAway(env, t, keys, id)
  }

  ghost function MergedRow(env: Env, t: Table, keys: set<GroupKey>, id: int): Row
    requires id in t
  {
    var ids := ClassIds(env, t, KeyOf(env, t[id]));
    if Foldable(t[id]) && KeyOf(env, t[id]) in keys && |ids| > 1 then
      t[id].(lastSeen := LatestSeen(t, ids), support := TotalSupport(t, ids))
    else t[id]
  }

  ghost function FoldKeys(env: Env, t: Table, keys: set<GroupKey>): Table {
    map id | id in t.Keys - FoldedIds(env, t, keys) :: MergedRow(env, t, keys, id)
  }

  ghost function SubjectKeys(env: Env, t: Table, subject: string): set<GroupKey> {
    set id | id in t && t[id].subject == subject && Foldable(t[id]) :: KeyOf(env, t[id])
  }

  ghost function Folded(env: Env, t: Table, subject: string): Table {
    FoldKeys(env, t, SubjectKeys(env, t, subject))
  }

  lemma ClassInKeys(env: Env, t: Table, id: int)
    requires id in t && Foldable(t[id])
    ensures id in ClassIds(env, t, KeyOf(env, t[id]))
    ensures KeyOf(env, t[id]) in SubjectKeys(env, t, t[id].subject)
  {
  }

  // ----- The loop over rows that builds the groups -----

  function Members(env: Env, rows: seq<Row>, k: GroupKey): (r: seq<Row>)
    ensures forall u :: u in r <==> u in rows && Foldable(u) && KeyOf(env, u) == k
  {
    if rows == [] then []
    else
      var n := |rows| - 1;
      assert rows == rows[..n] + [rows[n]];
      if Foldable(rows[n]) && KeyOf(env, rows[n]) == k then Members(env, rows[..n], k) + [rows[n]]
      else Members(env, rows[..n], k)
  }

  lemma {:induction false} MembersDiffer(env: Env, rows: seq<Row>, k: GroupKey)
    requires Distinct(rows)
    ensures Distinct(Members(env, rows, k))
  {
    if rows != [] {
      var n := |rows| - 1;
      MembersDiffer(env, rows[..n], k);
      var m := Members(env, rows[..n], k);
      assert Members(env, rows, k) == m || Members(env, rows, k) == m + [rows[n]];
      forall i | 0 <= i < |m| ensures m[i].id != rows[n].id {
        assert m[i] in rows[..n];
      }
    }
  }

  /** What the first loop has built: every key met so far with its members. */
  ghost predicate Grouped(env: Env, rows: seq<Row>, order: seq<GroupKey>, groups: map<GroupKey, seq<Row>>) {
    && NoRepeats(order)
    && (forall k :: k in order <==> k in groups)
    && (forall k :: Members(env, rows, k) == if k in groups then groups[k] else [])
  }

  lemma MembersSnoc(env: Env, rows: seq<Row>, u: Row, k: GroupKey)
    ensures Members(env, rows + [u], k) == Members(env, rows, k) + if Foldable(u) && KeyOf(env, u) == k then [u] else []
  {
    assert (rows + [u])[..|rows|] == rows;
  }

  function At(groups: map<GroupKey, seq<Row>>, k: GroupKey): seq<Row> { if k in groups then groups[k] else [] }

  lemma GroupedSame(env: Env, rows: seq<Row>, u: Row, order: seq<GroupKey>, groups: map<GroupKey, seq<Row>>)
    requires Grouped(env, rows, order, groups) && !Foldable(u)
    ensures Grouped(env, rows + [u], order, groups)
  {
    forall k ensures Members(env, rows + [u], k) == At(groups, k) { MembersSnoc(env, rows, u, k); }
  }

  lemma GroupedKnown(env: Env, rows: seq<Row>, u: Row, order: seq<GroupKey>, groups: map<GroupKey, seq<Row>>, key: GroupKey)
    requires Grouped(env, rows, order, groups) && Foldable(u) && key == KeyOf(env, u) && key in groups
    ensures Grouped(env, rows + [u], order, groups[key := groups[key] + [u]])
  {
    var after := groups[key := groups[key] + [u]];
    forall k ensures Members(env, rows + [u], k) == At(after, k) { MembersSnoc(env, rows, u, k); }
  }

  lemma GroupedNew(env: Env, rows: seq<Row>, u: Row, order: seq<GroupKey>, groups: map<GroupKey, seq<Row>>, key: GroupKey)
    requires Grouped(env, rows, order, groups) && Foldable(u) && key == KeyOf(env, u) && key !in groups
    ensures Grouped(env, rows + [u], order + [key], groups[key := [u]])
  {
    var after := groups[key := [u]];
    forall k ensures Members(env, rows + [u], k) == At(after, k) { MembersSnoc(env, rows, u, k); }
  }

  /** The keys with more than one member, in the order they were first met. */
  method Duplicated(order: seq<GroupKey>, groups: map<GroupKey, seq<Row>>) returns (keys: seq<GroupKey>)
    requires NoRepeats(order)
    requires forall k :: k in order ==> k in groups
    ensures NoRepeats(keys)
    ensures forall k :: k in keys <==> k in order && |groups[k]| > 1
  {
    keys := [];
    for i := 0 to |order|
      invariant NoRepeats(keys)
      invariant forall k :: k in keys <==> k in order[..i] && |groups[k]| > 1
    {
      if |groups[order[i]]| > 1 { keys := keys + [order[i]]; }
    }
    assert order[..|order|] == order;
  }

  /** The groups with more than one member, in the order their keys were first met. */
  method ConsolidationGroups(env: Env, rows: seq<Row>) returns (keys: seq<GroupKey>, groups: map<GroupKey, seq<Row>>)
    ensures NoRepeats(keys)
    ensures forall k :: k in keys <==> |Members(env, rows, k)| > 1
    ensures forall k :: k in keys ==> k in groups && groups[k] == Members(env, rows, k)
  {
    var order: seq<GroupKey> := [];
    groups := map[];
    for i := 0 to |rows|
      invariant Grouped(env, rows[..i], order, groups)
    {
      var u := rows[i];
      assert rows[..i + 1] == rows[..i] + [u];
      if Foldable(u) {
        var k := KeyOf(env, u);
        if k in groups {
          GroupedKnown(env, rows[..i], u, order, groups, k);
          groups := groups[k := groups[k] + [u]];
        } else {
          GroupedNew(env, rows[..i], u, order, groups, k);
          order := order + [k];
          groups := groups[k := [u]];
        }
      } else {
        GroupedSame(env, rows[..i], u, order, groups);
      }
    }
    assert rows[..|rows|] == rows;
    keys := Duplicated(order, groups);
  }

  // ----- What the code computes for one group -----

  function SumSupport(g: seq<Row>): int {
    if g == [] then 0 else SumSupport(g[..|g| - 1]) + Support(g[|g| - 1])
  }

  function MaxLastSeen(g: seq<Row>): (r: int)
    requires g != []
    ensures forall u :: u in g ==> u.lastSeen <= r
    ensures exists u :: u in g && u.lastSeen == r
  {
    var n := |g| - 1;
    assert g == g[..n] + [g[n]];
    if n == 0 then g[0].lastSeen
    else
      var rest := MaxLastSeen(g[..n]);
      assert exists u :: u in g[..n] && u.lastSeen == rest;
      Max(rest, g[n].lastSeen)
  }

  function MinFirstSeen(g: seq<Row>): (r: int)
    requires g != []
    ensures forall u :: u in g ==> r <= u.firstSeen
    ensures exists u :: u in g && u.firstSeen == r
  {
    var n := |g| - 1;
    assert g == g[..n] + [g[n]];
    if n == 0 then g[0].firstSeen
    else
      var rest := MinFirstSeen(g[..n]);
      assert exists u :: u in g[..n] && u.firstSeen == rest;
      Min(rest, g[n].firstSeen)
  }

  function Survivor(g: seq<Row>): (r: Row)
    requires g != []
    requires Distinct(g)
    ensures r in g && forall u :: u in g && u.id != r.id ==> Earlier(r, u)
  {
    var n := |g| - 1;
    assert g == g[..n] + [g[n]];
    if n == 0 then g[0]
    else
      var rest := Survivor(g[..n]);
      assert rest in g && g[n] in g;
      if Earlier(g[n], rest) then g[n] else rest
  }

  ghost predicate Lists(g: seq<Row>, t: Table, ids: set<int>) {
    && Distinct(g)
    && (forall u :: u in g ==> u.id in t && t[u.id] == u)
    && ids == set u | u in g :: u.id
  }

  lemma MembersListClass(env: Env, t: Table, subject: string, rows: seq<Row>, k: GroupKey)
    requires WellFormed(t) && Enumerates(rows, t, subject) && k.subject == subject
    ensures Lists(Members(env, rows, k), t, ClassIds(env, t, k))
    ensures |Members(env, rows, k)| == |ClassIds(env, t, k)|
  {
    var g := Members(env, rows, k);
    MembersDiffer(env, rows, k);
    var ids := set u | u in g :: u.id;
    forall id | id in ClassIds(env, t, k) ensures id in ids {
      assert t[id] in rows && t[id] in g && t[id].id == id;
    }
    assert ids == ClassIds(env, t, k);
    DistinctIds(g);
  }

  lemma {:induction false} SumIsTotal(g: seq<Row>, t: Table, ids: set<int>)
    requires Lists(g, t, ids)
    ensures ids <= t.Keys && SumSupport(g) == TotalSupport(t, ids)
  {
    if g != [] {
      var n := |g| - 1;
      var last := g[n].id;
      assert g == g[..n] + [g[n]];
      forall u | u in g[..n] ensures u.id != last {}
      assert (set u | u in g[..n] :: u.id) == ids - {last};
      SumIsTotal(g[..n], t, ids - {last});
      assert g[n] in g;
      TotalSupportRemove(t, ids, last);
    }
  }

  lemma LatestIsMax(g: seq<Row>, t: Table, ids: set<int>)
    requires Lists(g, t, ids) && g != []
    ensures ids <= t.Keys && ids != {}
    ensures MaxLastSeen(g) == LatestSeen(t, ids)
  {
    assert g[0] in g && g[0].id in ids;
    var y :| y in ids && t[y].lastSeen == LatestSeen(t, ids);
    assert t[y] in g;
    var u :| u in g && u.lastSeen == MaxLastSeen(g);
    assert u.id in ids;
  }

  lemma EarliestIsSurvivor(g: seq<Row>, t: Table, ids: set<int>)
    requires Lists(g, t, ids) && g != [] && forall id :: id in t ==> t[id].id == id
    ensures ids <= t.Keys && ids != {}
    ensures Survivor(g).id == Earliest(t, ids)
    ensures MinFirstSeen(g) == Survivor(g).firstSeen
  {
    assert g[0] in g && g[0].id in ids;
    var s, e := Survivor(g), Earliest(t, ids);
    assert s.id in ids && t[s.id] == s;
    assert t[e] in g;
    var u :| u in g && u.firstSeen == MinFirstSeen(g);
    assert u.id != s.id ==> Earlier(s, u);
  }

  /** The DELETEs remove the rest of the group. */
  lemma GroupRows(g: seq<Row>, t: Table, ids: set<int>)
    requires Lists(g, t, ids) && g != [] && forall id :: id in t ==> t[id].id == id
    ensures ids <= t.Keys && ids != {} && Survivor(g).id == Earliest(t, ids)
    ensures (set u | u in g && u.id != Survivor(g).id :: u.id) == ids - {Earliest(t, ids)}
  {
    EarliestIsSurvivor(g, t, ids);
  }

  /** The builtins over the list of rows agree with the class they were read from. */
  lemma GroupValues(g: seq<Row>, t: Table, ids: set<int>)
    requires Lists(g, t, ids) && g != [] && forall id :: id in t ==> t[id].id == id
    ensures ids <= t.Keys && ids != {}
    ensures SumSupport(g) == TotalSupport(t, ids)
    ensures MaxLastSeen(g) == LatestSeen(t, ids)
    ensures Survivor(g).id == Earliest(t, ids)
    ensures MinFirstSeen(g) == Survivor(g).firstSeen
    ensures Survivor(g) == t[Earliest(t, ids)]
    ensures (set u | u in g && u.id != Survivor(g).id :: u.id) == ids - {Earliest(t, ids)}
  {
    SumIsTotal(g, t, ids);
    LatestIsMax(g, t, ids);
    EarliestIsSurvivor(g, t, ids);
    GroupRows(g, t, ids);
  }

  ghost function MergedSurvivor(t: Table, ids: set<int>): Row
    requires ids <= t.Keys && ids != {} && forall id :: id in t ==> t[id].id == id
  {
    t[Earliest(t, ids)].(lastSeen := LatestSeen(t, ids), support := TotalSupport(t, ids))
  }

  /** The UPDATE writes the merged row. */
  lemma MergedRowIs(g: seq<Row>, t: Table, ids: set<int>)
    requires Lists(g, t, ids) && g != [] && forall id :: id in t ==> t[id].id == id
    ensures ids <= t.Keys && ids != {}
    ensures t[Earliest(t, ids)].(firstSeen := MinFirstSeen(g), lastSeen := MaxLastSeen(g), support := SumSupport(g)) == MergedSurvivor(t, ids)
  {
    GroupValues(g, t, ids);
  }

  lemma FoldStepAt(env: Env, t: Table, keys: set<GroupKey>, k: GroupKey, id: int)
    requires WellFormed(t) && k !in keys && |ClassIds(env, t, k)| > 1 && id in t
    ensures var ids := ClassIds(env, t, k);
            && ids != {}
            && (id !in ids ==>
                  && FoldedAway(env, t, keys + {k}, id) == FoldedAway(env, t, keys, id)
                  && MergedRow(env, t, keys + {k}, id) == MergedRow(env, t, keys, id))
            && (id in ids ==>
                  && !FoldedAway(env, t, keys, id)
                  && MergedRow(env, t, keys, id) == t[id]
                  && FoldedAway(env, t, keys + {k}, id) == (id != Earliest(t, ids))
                  && (id == Earliest(t, ids) ==> MergedRow(env, t, keys + {k}, id) == MergedSurvivor(t, ids)))
  {
    var ids := ClassIds(env, t, k);
    assert ids != {};
    var s := Earliest(t, ids);
    if id in ids {
      assert KeyOf(env, t[id]) == k;
      assert id != s ==> Earlier(t[s], t[id]);
    }
  }

  lemma FoldStepIds(env: Env, t: Table, keys: set<GroupKey>, k: GroupKey)
    requires WellFormed(t) && k !in keys && |ClassIds(env, t, k)| > 1
    ensures var ids := ClassIds(env, t, k);
            && ids != {}
            && FoldedIds(env, t, keys + {k}) == FoldedIds(env, t, keys) + (ids - {Earliest(t, ids)})
            && Earliest(t, ids) !in FoldedIds(env, t, keys)
  {
    var ids := ClassIds(env, t, k);
    assert ids != {};
    var lhs := FoldedIds(env, t, keys + {k});
    var rhs := FoldedIds(env, t, keys) + (ids - {Earliest(t, ids)});
    forall id ensures id in lhs <==> id in rhs {
      if id in t { FoldStepAt(env, t, keys, k, id); }
    }
    FoldStepAt(env, t, keys, k, Earliest(t, ids));
  }

  /** One more class folded: its survivor takes the merged values, the others go. */
  lemma FoldStep(env: Env, t: Table, keys: set<GroupKey>, k: GroupKey)
    requires WellFormed(t) && k !in keys && |ClassIds(env, t, k)| > 1
    ensures var ids := ClassIds(env, t, k);
            && ids != {}
            && var s := Earliest(t, ids);
            && s in FoldKeys(env, t, keys) && FoldKeys(env, t, keys)[s] == t[s]
            && FoldKeys(env, t, keys + {k}) == FoldKeys(env, t, keys)[s := MergedSurvivor(t, ids)] - (ids - {s})
  {
    var ids := ClassIds(env, t, k);
    FoldStepIds(env, t, keys, k);
    var s := Earliest(t, ids);
    FoldStepAt(env, t, keys, k, s);
    var before, after := FoldKeys(env, t, keys), FoldKeys(env, t, keys + {k});
    var goal := before[s := MergedSurvivor(t, ids)] - (ids - {s});
    assert after.Keys == goal.Keys;
    forall id | id in after ensures after[id] == goal[id] {
      FoldStepAt(env, t, keys, k, id);
    }
  }

  lemma FoldRest(env: Env, t: Table, subject: string, keys: set<GroupKey>)
    requires WellFormed(t) && keys <= SubjectKeys(env, t, subject)
    requires forall k: GroupKey :: k.subject == subject && |ClassIds(env, t, k)| > 1 ==> k in keys
    ensures FoldKeys(env, t, keys) == Folded(env, t, subject)
  {
    forall id | id in t && Foldable(t[id]) && KeyOf(env, t[id]) in SubjectKeys(env, t, subject) - keys
      ensures ClassIds(env, t, KeyOf(env, t[id])) == {id}
    {
      ClassInKeys(env, t, id);
      Singleton(ClassIds(env, t, KeyOf(env, t[id])), id);
    }
    assert FoldKeys(env, t, keys).Keys == Folded(env, t, subject).Keys;
  }

  // ----- What folding keeps -----

  ghost predicate SameButCounters(x: Row, y: Row) {
    x == y.(lastSeen := x.lastSeen, support := x.support)
  }

  lemma FoldKeepsRows(env: Env, t: Table, subject: string)
    requires WellFormed(t)
    ensures var f := Folded(env, t, subject);
            && WellFormed(f)
            && forall id :: id in f ==> id in t && SameButCounters(f[id], t[id]) && f[id].lastSeen >= t[id].lastSeen
  {
    var f := Folded(env, t, subject);
    forall id | id in f
      ensures SameButCounters(f[id], t[id]) && f[id].support >= 1 && f[id].lastSeen >= t[id].lastSeen
    {
      var ids := ClassIds(env, t, KeyOf(env, t[id]));
      if Foldable(t[id]) && |ids| > 1 {
        ClassInKeys(env, t, id);
        TotalSupportPositive(t, ids);
      }
    }
  }

  lemma {:induction false} TotalSupportPositive(t: Table, ids: set<int>)
    requires WellFormed(t) && ids <= t.Keys
    ensures TotalSupport(t, ids) >= |ids|
  {
    if ids != {} {
      var x := Pick(ids);
      TotalSupportRemove(t, ids, x);
      TotalSupportPositive(t, ids - {x});
    }
  }

  lemma OnlyTheEarliestStays(env: Env, t: Table, k: GroupKey, id: int)
    requires WellFormed(t) && id in ClassIds(env, t, k)
    ensures id in Folded(env, t, k.subject) <==> id == Earliest(t, ClassIds(env, t, k))
  {
    var ids := ClassIds(env, t, k);
    ClassInKeys(env, t, id);
    assert id != Earliest(t, ids) ==> Earlier(t[Earliest(t, ids)], t[id]);
  }

  lemma FoldedClassIds(env: Env, t: Table, subject: string, k: GroupKey)
    requires WellFormed(t) && k.subject == subject
    ensures var ids := ClassIds(env, t, k);
            ClassIds(env, Folded(env, t, subject), k) == if ids == {} then {} else {Earliest(t, ids)}
  {
    var f, ids := Folded(env, t, subject), ClassIds(env, t, k);
    FoldKeepsRows(env, t, subject);
    forall id ensures id in ClassIds(env, f, k) <==> id in ids && id == Earliest(t, ids) {
      if id in ids { OnlyTheEarliestStays(env, t, k, id); }
    }
  }

  /** After the fold a class is its earliest row alone, carrying the class's evidence. */
  lemma FoldedClass(env: Env, t: Table, subject: string, k: GroupKey)
    requires WellFormed(t) && k.subject == subject
    ensures var f := Folded(env, t, subject);
            var ids := ClassIds(env, t, k);
            if ids == {} then ClassIds(env, f, k) == {}
            else
              var s := Earliest(t, ids);
              && ClassIds(env, f, k) == {s}
              && TotalSupport(f, {s}) == TotalSupport(t, ids)
              && f[s].lastSeen == LatestSeen(t, ids)
              && (forall id :: id in ids ==> f[s].firstSeen <= t[id].firstSeen)
  {
    var f := Folded(env, t, subject);
    var ids := ClassIds(env, t, k);
    FoldedClassIds(env, t, subject, k);
    if ids != {} {
      var s := Earliest(t, ids);
      assert s in ClassIds(env, f, k);
      TotalSupportRemove(f, {s}, s);
      if |ids| > 1 {
        ClassInKeys(env, t, s);
        TotalSupportPositive(t, ids);
      } else {
        Singleton(ids, s);
        TotalSupportRemove(t, ids, s);
        assert ids - {s} == {};
      }
    }
  }

  /** What one class brings through the fold. */
  ghost predicate ClassKept(env: Env, t: Table, f: Table, k: GroupKey)
    requires WellFormed(t) && WellFormed(f)
  {
    var ids, after := ClassIds(env, t, k), ClassIds(env, f, k);
    && TotalSupport(f, after) == TotalSupport(t, ids)
    && (ids != {} ==>
          && |after| == 1 && after != {}
          && LatestSeen(f, after) == LatestSeen(t, ids)
          && f[Earliest(f, after)].firstSeen == t[Earliest(t, ids)].firstSeen)
  }

  lemma FoldKeepsClass(env: Env, t: Table, subject: string, k: GroupKey)
    requires WellFormed(t) && k.subject == subject && WellFormed(Folded(env, t, subject))
    ensures ClassKept(env, t, Folded(env, t, subject), k)
  {
    FoldedClass(env, t, subject, k);
    FoldKeepsRows(env, t, subject);
  }

  lemma FoldTouchesNoOther(env: Env, t: Table, subject: string, id: int)
    requires WellFormed(t) && id in t && (t[id].subject != subject || !Foldable(t[id]))
    ensures id in Folded(env, t, subject) && Folded(env, t, subject)[id] == t[id]
  {
  }

  /** Folding is lossless per class and touches nothing else. */
  lemma FoldIsLossless(env: Env, t: Table, subject: string)
    requires WellFormed(t)
    ensures WellFormed(Folded(env, t, subject))
    ensures forall k: GroupKey :: k.subject == subject ==> ClassKept(env, t, Folded(env, t, subject), k)
    ensures forall id :: id in t && (t[id].subject != subject || !Foldable(t[id])) ==>
              id in Folded(env, t, subject) && Folded(env, t, subject)[id] == t[id]
  {
    FoldKeepsRows(env, t, subject);
    var f := Folded(env, t, subject);
    forall k: GroupKey | k.subject == subject ensures ClassKept(env, t, f, k) {
      FoldKeepsClass(env, t, subject, k);
    }
    forall id | id in t && (t[id].subject != subject || !Foldable(t[id])) ensures id in f && f[id] == t[id] {
      FoldTouchesNoOther(env, t, subject, id);
    }
  }

  // ----- The fold, row by row -----

  /** Two reasons that say the same: neither withdrawn, of one subject and one provenance, and
      equal once case and white space are folded. */
  ghost predicate SameNote(env: Env, x: Row, y: Row) {
    && x.kind == Reason && y.kind == Reason && x.invalidatedBy == "" && y.invalidatedBy == ""
    && x.subject == y.subject && x.provenance == y.provenance && env.norm(x.text) == env.norm(y.text)
  }

  ghost function Copies(env: Env, t: Table, id: int): set<int>
    requires id in t
  {
    set j | j in t && SameNote(env, t[j], t[id])
  }

  lemma CopiesAreClass(env: Env, t: Table, id: int)
    requires id in t && Foldable(t[id])
    ensures Copies(env, t, id) == ClassIds(env, t, KeyOf(env, t[id]))
  {
    forall j | j in t ensures SameNote(env, t[j], t[id]) <==> Foldable(t[j]) && KeyOf(env, t[j]) == KeyOf(env, t[id]) {
      var a, b := KeyOf(env, t[j]), KeyOf(env, t[id]);
      assert a.subject == t[j].subject && a.provenance == t[j].provenance && a.norm == env.norm(t[j].text);
    }
  }

  lemma CopiesMeet(env: Env, t: Table, i: int, j: int)
    requires i in t && j in t && SameNote(env, t[i], t[j])
    ensures {i, j} <= ClassIds(env, t, KeyOf(env, t[i]))
  {
    CopiesAreClass(env, t, i);
    assert j in Copies(env, t, i);
  }

  /** No two copies are left in the subject. */
  lemma NoCopiesLeft(env: Env, t: Table, subject: string, i: int, j: int)
    requires WellFormed(t) && i != j && i in Folded(env, t, subject) && j in Folded(env, t, subject)
    requires Folded(env, t, subject)[i].subject == subject
    ensures !SameNote(env, Folded(env, t, subject)[i], Folded(env, t, subject)[j])
  {
    var f := Folded(env, t, subject);
    if SameNote(env, f[i], f[j]) {
      CopiesMeet(env, f, i, j);
      FoldedClass(env, t, subject, KeyOf(env, f[i]));
    }
  }

  /** A reason stays exactly when it is the first of its copies, by first_seen and then by id. */
  lemma FirstCopyStays(env: Env, t: Table, id: int)
    requires WellFormed(t) && id in t && t[id].kind == Reason && t[id].invalidatedBy == ""
    ensures id in Folded(env, t, t[id].subject) <==>
            forall j :: j in Copies(env, t, id) && j != id ==>
              t[id].firstSeen < t[j].firstSeen || (t[id].firstSeen == t[j].firstSeen && id < j)
  {
    CopiesAreClass(env, t, id);
    OnlyTheEarliestStays(env, t, KeyOf(env, t[id]), id);
    var first := Earliest(t, Copies(env, t, id));
    assert t[id].id == id && t[first].id == first;
    if id == first {
      forall j | j in Copies(env, t, id) && j != id ensures Earlier(t[id], t[j]) && t[j].id == j {}
    } else {
      assert first in Copies(env, t, id) && Earlier(t[first], t[id]);
    }
  }

  /** It then has the support of all copies together and was last seen when the last of them
      was; nothing else in it changes. */
  lemma FirstCopyCarriesAll(env: Env, t: Table, id: int)
    requires WellFormed(t) && id in t && t[id].kind == Reason && t[id].invalidatedBy == ""
    requires id in Folded(env, t, t[id].subject)
    ensures var u, copies := Folded(env, t, t[id].subject)[id], Copies(env, t, id);
            && u == t[id].(lastSeen := u.lastSeen, support := TotalSupport(t, copies))
            && (forall j :: j in copies ==> t[j].lastSeen <= u.lastSeen)
            && (exists j :: j in copies && t[j].lastSeen == u.lastSeen)
  {
    var k := KeyOf(env, t[id]);
    CopiesAreClass(env, t, id);
    ClassInKeys(env, t, id);
    FoldedClass(env, t, t[id].subject, k);
    OnlyTheEarliestStays(env, t, k, id);
    FoldKeepsRows(env, t, t[id].subject);
    TotalSupportOne(Folded(env, t, t[id].subject), id);
  }

  lemma TotalSupportOne(t: Table, id: int)
    requires WellFormed(t) && id in t
    ensures TotalSupport(t, {id}) == t[id].support
  {
    TotalSupportRemove(t, {id}, id);
    assert {id} - {id} == {};
  }

  /** A second pass finds nothing to merge. */
  lemma FoldIsIdempotent(env: Env, t: Table, subject: string)
    requires WellFormed(t)
    ensures var f := Folded(env, t, subject); Folded(env, f, subject) == f
  {
    var f := Folded(env, t, subject);
    FoldKeepsRows(env, t, subject);
    forall id | id in f && Foldable(f[id]) && f[id].subject == subject
      ensures ClassIds(env, f, KeyOf(env, f[id])) == {id}
    {
      FoldedClass(env, t, subject, KeyOf(env, f[id]));
      ClassInKeys(env, f, id);
    }
    FoldNothing(env, f, subject);
  }

  lemma FoldNothing(env: Env, t: Table, subject: string)
    requires WellFormed(t)
    requires forall id :: id in t && Foldable(t[id]) && t[id].subject == subject ==> ClassIds(env, t, KeyOf(env, t[id])) == {id}
    ensures Folded(env, t, subject) == t
  {
    var keys := SubjectKeys(env, t, subject);
    forall id | id in t
      ensures id !in FoldedIds(env, t, keys) && MergedRow(env, t, keys, id) == t[id]
    {
    }
    assert FoldedIds(env, t, keys) == {};
    assert t.Keys - {} == t.Keys;
  }
}
