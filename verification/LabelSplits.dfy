/** Stratified train, validation and test splits: a greedy allocator per tactic. */
module LabelSplits {
  import opened Basics
  import opened FiniteSets
  import opened StableSort

  datatype Split = Train | Val | Test
  datatype Label = Label(tactic: string, technique: string)
  datatype Row = Row(at: Label, split: Option<Split>)

  /** A technique of one tactic with its number of rows. */
  datatype Item = Item(technique: string, count: nat)

  const TRAIN_PCT := 70
  const VAL_PCT := 85
  const PLANS: nat := 3

  /** The plans in order. */
  function Seed(i: nat): Split { if i == 0 then Train else if i == 1 then Val else Test }

  // ----- The sort order -----

  /** Code-point order of strings. */
  predicate LexLe(a: string, b: string) {
    a == "" || (b != "" && (a[0] < b[0] || (a[0] == b[0] && LexLe(a[1..], b[1..]))))
  }

  lemma {:induction false} LexTotal(a: string, b: string)
    ensures LexLe(a, b) || LexLe(b, a)
    ensures LexLe(a, b) && LexLe(b, a) ==> a == b
  {
    if a != "" && b != "" {
      LexTotal(a[1..], b[1..]);
      assert a == [a[0]] + a[1..] && b == [b[0]] + b[1..];
    }
  }

  lemma {:induction false} LexTransitive(a: string, b: string, c: string)
    requires LexLe(a, b) && LexLe(b, c)
    ensures LexLe(a, c)
  {
    if a != "" && a[0] == b[0] == c[0] { LexTransitive(a[1..], b[1..], c[1..]); }
  }

  /** `(-count, technique)`. */
  predicate AtMost(x: Item, y: Item) {
    x.count > y.count || (x.count == y.count && LexLe(x.technique, y.technique))
  }

  /** `a` and `b` agree up to `k`, and there `a` ends or has the smaller character. */
  ghost predicate Parts(a: string, b: string, k: nat) {
    k <= |a| && k <= |b| && a[..k] == b[..k] && (k == |a| || (k < |b| && a[k] < b[k]))
  }

  lemma PartsLater(a: string, b: string, k: nat)
    requires a != "" && b != "" && a[0] == b[0]
    ensures Parts(a, b, k + 1) <==> Parts(a[1..], b[1..], k)
  {
    if k < |a| && k < |b| {
      assert a[..k + 1] == [a[0]] + a[1..][..k] && b[..k + 1] == [b[0]] + b[1..][..k];
      assert a[..k + 1][1..] == a[1..][..k] && b[..k + 1][1..] == b[1..][..k];
    }
  }

  lemma PartsAgree(a: string, b: string, k: nat)
    requires Parts(a, b, k) && k > 0
    ensures a != "" && b != "" && a[0] == b[0]
  {
    assert a[..k][0] == a[0] && b[..k][0] == b[0];
  }

  /** The names are ordered as a dictionary orders them. */
  lemma {:induction false} LexIsDictionaryOrder(a: string, b: string)
    ensures LexLe(a, b) <==> exists k: nat :: Parts(a, b, k)
  {
    assert Parts(a, b, 0) <==> a == "" || (b != "" && a[0] < b[0]);
    if a != "" && b != "" && a[0] == b[0] {
      LexIsDictionaryOrder(a[1..], b[1..]);
      if k: nat :| Parts(a[1..], b[1..], k) { PartsLater(a, b, k); }
      if k: nat :| Parts(a, b, k) { PartsLater(a, b, k - 1); }
    } else if k: nat :| Parts(a, b, k) {
      if k > 0 { PartsAgree(a, b, k); }
    }
  }

  ghost predicate Ahead(x: Item, y: Item) { AtMost(x, y) && x != y }

  lemma AtMostIsTotalOrder()
    ensures TotalPreorder(AtMost)
    ensures forall x, y :: AtMost(x, y) && AtMost(y, x) ==> x == y
  {
    forall x, y ensures AtMost(x, y) || AtMost(y, x) { LexTotal(x.technique, y.technique); }
    forall x, y | AtMost(x, y) && AtMost(y, x) ensures x == y { LexTotal(x.technique, y.technique); }
    forall x, y, z | AtMost(x, y) && AtMost(y, z) ensures AtMost(x, z) {
      if x.count == y.count == z.count { LexTransitive(x.technique, y.technique, z.technique); }
    }
  }

  ghost predicate Differ(x: Item, y: Item) { x != y }

  lemma RefinedIsAhead(items: seq<Item>)
    requires Ordered(Refine(AtMost, Differ), items)
    ensures Ordered(Ahead, items)
  {
    AtMostIsTotalOrder();
    forall i, j | 0 <= i < j < |items| ensures Ahead(items[i], items[j]) {
      assert Refine(AtMost, Differ)(items[i], items[j]);
    }
  }

  /** A strictly ordered list is determined by which items are in it. */
  lemma {:induction false} SameItemsSameList(a: seq<Item>, b: seq<Item>)
    requires Ordered(Ahead, a) && Ordered(Ahead, b)
    requires |a| == |b| && forall x :: x in a <==> x in b
    ensures a == b
  {
    AtMostIsTotalOrder();
    if a != [] {
      assert a[0] in a;
      HeadsMeet(a, b);
      assert a == [a[0]] + a[1..] && b == [b[0]] + b[1..];
      TailItems(a);
      TailItems(b);
      SameItemsSameList(a[1..], b[1..]);
    }
  }

  lemma HeadsMeet(a: seq<Item>, b: seq<Item>)
    requires Ordered(Ahead, a) && Ordered(Ahead, b) && a != [] && b != []
    requires forall x :: x in a <==> x in b
    ensures a[0] == b[0]
  {
    AtMostIsTotalOrder();
    assert a[0] in b && b[0] in a;
    var i :| 0 <= i < |b| && b[i] == a[0];
    var j :| 0 <= j < |a| && a[j] == b[0];
    assert i > 0 ==> Ahead(b[0], b[i]);
    assert j > 0 ==> Ahead(a[0], a[j]);
  }

  lemma TailItems(a: seq<Item>)
    requires Ordered(Ahead, a) && a != []
    ensures forall x :: x in a[1..] <==> x in a && x != a[0]
  {
    assert a == [a[0]] + a[1..];
    forall x | x in a[1..] ensures x != a[0] {
      var k :| 0 <= k < |a[1..]| && a[1..][k] == x;
      assert Ahead(a[0], a[k + 1]);
    }
  }

  /** The techniques of one tactic, most rows first and by name among equals. */
  ghost function Ranked(items: set<Item>): seq<Item> {
    if items == {} then [] else var x := Pick(items); InsertBy(AtMost, x, Ranked(items - {x}))
  }

  lemma {:induction false} RankedItems(items: set<Item>)
    ensures Ordered(Refine(AtMost, Differ), Ranked(items)) && Ordered(Ahead, Ranked(items))
    ensures forall x :: x in Ranked(items) <==> x in items
    ensures |Ranked(items)| == |items|
  {
    if items != {} {
      var x := Pick(items);
      var rest := Ranked(items - {x});
      RankedItems(items - {x});
      AtMostIsTotalOrder();
      InsertRefines(AtMost, Differ, x, rest);
      SameElements(InsertBy(AtMost, x, rest), [x] + rest);
    }
    RefinedIsAhead(Ranked(items));
  }

  // ----- The allocation within one tactic -----

  function Placed(items: seq<Item>): nat {
    if items == [] then 0 else Placed(items[..|items| - 1]) + items[|items| - 1].count
  }

  function Percent(s: Split): nat {
    match s
    case Train => TRAIN_PCT
    case Val => VAL_PCT - TRAIN_PCT
    case Test => 100 - VAL_PCT
  }

  /** A split's target, at least one row. */
  function Share(total: nat, s: Split): (r: real)
    ensures r >= 1.0
  {
    var target := Percent(s) as real / 100.0 * total as real;
    if target < 1.0 then 1.0 else target
  }

  /** How full a split would be, relative to its target. */
  function Filled(load: nat, count: nat, share: real): real
    requires share > 0.0
  {
    (load + count) as real / share
  }

  /** The rows in each split so far. */
  datatype Loads = Loads(train: nat, val: nat, test: nat) {
    function At(s: Split): nat { match s case Train => train case Val => val case Test => test }

    function Plus(s: Split, count: nat): Loads {
      match s
      case Train => this.(train := train + count)
      case Val => this.(val := val + count)
      case Test => this.(test := test + count)
    }
  }

  /** The split furthest below target with the technique added; ties go to the first plan. */
  function Lightest(load: Loads, total: nat, count: nat): Split {
    var a := Filled(load.train, count, Share(total, Train));
    var b := Filled(load.val, count, Share(total, Val));
    var c := Filled(load.test, count, Share(total, Test));
    if a <= b && a <= c then Train else if b <= c then Val else Test
  }

  /** The rows that the first techniques put in each split. */
  function LoadsOf(items: seq<Item>, splits: seq<Split>): Loads
    requires |splits| <= |items|
    decreases |splits|
  {
    if splits == [] then Loads(0, 0, 0)
    else
      var n := |splits| - 1;
      LoadsOf(items, splits[..n]).Plus(splits[n], items[n].count)
  }

  /** A rule that picks a split from the loads, the total and one count. */
  type Rule = (Loads, nat, nat) -> Split

  function FurthestBelow(): Rule { (load: Loads, total: nat, count: nat) => Lightest(load, total, count) }

  /** Where the next technique goes after `splits` placed the ones before it. */
  function Place(rule: Rule, items: seq<Item>, splits: seq<Split>): Split
    requires |splits| < |items|
  {
    var i := |splits|;
    if |items| >= PLANS && i < PLANS then Seed(i)
    else rule(LoadsOf(items, splits), Placed(items), items[i].count)
  }

  function Placer(rule: Rule, items: seq<Item>): seq<Split> -> Split {
    (splits: seq<Split>) => if |splits| < |items| then Place(rule, items, splits) else Train
  }

  /** `k` elements, each made from the ones before it. */
  function Grown<T>(next: seq<T> -> T, k: nat): (r: seq<T>)
    ensures |r| == k
  {
    if k == 0 then [] else var before := Grown(next, k - 1); before + [next(before)]
  }

  lemma {:induction false} GrownAt<T>(next: seq<T> -> T, i: nat, k: nat)
    requires i < k
    ensures Grown(next, k)[..i] == Grown(next, i) && Grown(next, k)[i] == next(Grown(next, i))
  {
    var before := Grown(next, k - 1);
    if i < k - 1 {
      GrownAt(next, i, k - 1);
      assert (before + [next(before)])[..i] == before[..i];
    } else {
      assert (before + [next(before)])[..i] == before;
    }
  }

  function AllottedBy(rule: Rule, items: seq<Item>, k: nat): (r: seq<Split>)
    requires k <= |items|
    ensures |r| == k
  {
    Grown(Placer(rule, items), k)
  }

  function Allotted(items: seq<Item>): (r: seq<Split>)
    ensures |r| == |items|
  {
    AllottedBy(FurthestBelow(), items, |items|)
  }

  lemma AllottedAt(rule: Rule, items: seq<Item>, i: nat, k: nat)
    requires i < k <= |items|
    ensures AllottedBy(rule, items, k)[..i] == AllottedBy(rule, items, i)
    ensures AllottedBy(rule, items, k)[i] == Place(rule, items, AllottedBy(rule, items, i))
  {
    GrownAt(Placer(rule, items), i, k);
  }

  lemma {:induction false} LoadsAddUp(items: seq<Item>, splits: seq<Split>)
    requires |splits| <= |items|
    ensures var load := LoadsOf(items, splits); load.train + load.val + load.test == Placed(items[..|splits|])
    decreases |splits|
  {
    if splits != [] {
      var n := |splits| - 1;
      LoadsAddUp(items, splits[..n]);
      assert items[..n + 1][..n] == items[..n];
    }
  }

  /** A split that is lightest against each is light against all together. */
  lemma LightestAgainstAll(x: real, y: real, z: real, sx: real, sy: real, sz: real, w: real, sw: real)
    requires sx > 0.0 && sy > 0.0 && sz > 0.0 && sw > 0.0
    requires w / sw <= x / sx && w / sw <= y / sy && w / sw <= z / sz
    ensures w / sw <= (x + y + z) / (sx + sy + sz)
  {
    var q := w / sw;
    Over(q, x, sx);
    Over(q, y, sy);
    Over(q, z, sz);
    assert q * (sx + sy + sz) == q * sx + q * sy + q * sz;
    Under(q, x + y + z, sx + sy + sz);
  }

  lemma Over(q: real, x: real, s: real)
    requires s > 0.0 && q <= x / s
    ensures q * s <= x
  {
    assert x / s * s == x;
  }

  lemma Under(q: real, x: real, s: real)
    requires s > 0.0 && q * s <= x
    ensures q <= x / s
  {
    if q > x / s { Beyond(q, x, s); }
  }

  lemma Beyond(q: real, x: real, s: real)
    requires s > 0.0 && q > x / s
    ensures q * s > x
  {
    assert x / s * s == x;
    assert (q - x / s) * s > 0.0;
  }

  ghost function Shares(total: nat): real { Share(total, Train) + Share(total, Val) + Share(total, Test) }

  lemma LightestIsBalanced(load: Loads, total: nat, count: nat)
    ensures var s := Lightest(load, total, count);
            Filled(load.At(s), count, Share(total, s)) <= (load.train + load.val + load.test + 3 * count) as real / Shares(total)
  {
    var s := Lightest(load, total, count);
    LightestAgainstAll((load.train + count) as real, (load.val + count) as real, (load.test + count) as real,
                       Share(total, Train), Share(total, Val), Share(total, Test), (load.At(s) + count) as real, Share(total, s));
  }

  /** Putting the next technique in `s` leaves `s` no fuller than the rows placed before it
      and three times its own, spread over all three targets. */
  ghost predicate Balanced(items: seq<Item>, before: seq<Split>, s: Split)
    requires |before| < |items|
  {
    Filled(LoadsOf(items, before).At(s), items[|before|].count, Share(Placed(items), s)) <=
    (Placed(items[..|before|]) + 3 * items[|before|].count) as real / Shares(Placed(items))
  }

  lemma PlaceIsBalanced(items: seq<Item>, before: seq<Split>)
    requires |before| < |items| && (|items| >= PLANS ==> |before| >= PLANS)
    ensures Balanced(items, before, Place(FurthestBelow(), items, before))
  {
    LoadsAddUp(items, before);
    LightestIsBalanced(LoadsOf(items, before), Placed(items), items[|before|].count);
  }

  /** Every technique that does not seed a split is placed in balance. */
  lemma PlacementIsBalanced(items: seq<Item>, i: nat)
    requires i < |items| && (|items| >= PLANS ==> i >= PLANS)
    ensures Balanced(items, Allotted(items)[..i], Allotted(items)[i])
  {
    AllottedAt(FurthestBelow(), items, i, |items|);
    PlaceIsBalanced(items, AllottedBy(FurthestBelow(), items, i));
  }

  // ----- The allocation in full -----

  /** The rows that the first techniques put in `s`. */
  ghost function RowsIn(items: seq<Item>, splits: seq<Split>, s: Split): nat
    requires |splits| <= |items|
    decreases |splits|
  {
    if splits == [] then 0
    else
      var n := |splits| - 1;
      RowsIn(items, splits[..n], s) + if splits[n] == s then items[n].count else 0
  }

  lemma {:induction false} LoadIsRows(items: seq<Item>, splits: seq<Split>, s: Split)
    requires |splits| <= |items|
    ensures LoadsOf(items, splits).At(s) == RowsIn(items, splits, s)
    decreases |splits|
  {
    if splits != [] { LoadIsRows(items, splits[..|splits| - 1], s); }
  }

  /** 70, 15 and 15 per cent of the tactic's rows, and one row at least. */
  ghost function Target(total: nat, s: Split): (r: real)
    ensures r >= 1.0
  {
    var share := (if s == Train then 0.7 else 0.15) * total as real;
    if share < 1.0 then 1.0 else share
  }

  ghost function Relative(rows: nat, target: real): real
    requires target >= 1.0
  {
    rows as real / target
  }

  /** How full `s` would be with the next technique, against its target. */
  ghost function Fullness(items: seq<Item>, before: seq<Split>, s: Split): real
    requires |before| < |items|
  {
    Relative(RowsIn(items, before, s) + items[|before|].count, Target(TotalRows(items), s))
  }

  ghost function TotalRows(items: seq<Item>): nat { if items == [] then 0 else items[0].count + TotalRows(items[1..]) }

  lemma {:induction false} TotalRowsSnoc(items: seq<Item>, x: Item)
    ensures TotalRows(items + [x]) == TotalRows(items) + x.count
  {
    if items == [] {
      assert [x][1..] == [];
    } else {
      assert (items + [x])[1..] == items[1..] + [x];
      TotalRowsSnoc(items[1..], x);
    }
  }

  lemma {:induction false} PlacedIsTotal(items: seq<Item>)
    ensures Placed(items) == TotalRows(items)
  {
    if items != [] {
      var n := |items| - 1;
      PlacedIsTotal(items[..n]);
      TotalRowsSnoc(items[..n], items[n]);
      assert items == items[..n] + [items[n]];
    }
  }

  lemma ShareIsTarget(total: nat, s: Split)
    ensures Share(total, s) == Target(total, s)
  {
  }

  lemma FilledIsRelative(rows: nat, count: nat, target: real)
    requires target >= 1.0
    ensures Filled(rows, count, target) == Relative(rows + count, target)
  {
  }

  lemma FullnessIs(items: seq<Item>, before: seq<Split>, s: Split)
    requires |before| < |items|
    ensures Fullness(items, before, s) ==
            Filled(LoadsOf(items, before).At(s), items[|before|].count, Share(Placed(items), s))
  {
    LoadIsRows(items, before, s);
    PlacedIsTotal(items);
    ShareIsTarget(TotalRows(items), s);
    FilledIsRelative(RowsIn(items, before, s), items[|before|].count, Target(TotalRows(items), s));
  }

  lemma LightestIsLeast(load: Loads, total: nat, count: nat, s: Split)
    ensures var m := Lightest(load, total, count);
            && Filled(load.At(m), count, Share(total, m)) <= Filled(load.At(s), count, Share(total, s))
            && (Filled(load.At(m), count, Share(total, m)) == Filled(load.At(s), count, Share(total, s)) ==>
                  m == Train || m == s || s == Test)
  {
  }

  /** Where each technique of a tactic goes: with at least three, the first seed train, val and
      test in that order; every other one goes where it leaves the split emptiest against its
      target, and among equals to the first of train, val and test. */
  lemma AllocationIsGreedy(items: seq<Item>, i: nat, s: Split)
    requires i < |items|
    ensures var m, before := Allotted(items)[i], Allotted(items)[..i];
            if |items| >= 3 && i < 3 then m == (if i == 0 then Train else if i == 1 then Val else Test)
            else
              && Fullness(items, before, m) <= Fullness(items, before, s)
              && (Fullness(items, before, m) == Fullness(items, before, s) ==> m == Train || m == s || s == Test)
  {
    var before := AllottedBy(FurthestBelow(), items, i);
    AllottedAt(FurthestBelow(), items, i, |items|);
    if !(|items| >= 3 && i < 3) {
      var m := Allotted(items)[i];
      FullnessIs(items, before, m);
      FullnessIs(items, before, s);
      LightestIsLeast(LoadsOf(items, before), Placed(items), items[i].count, s);
    }
  }

  // ----- The allocation of all tactics -----

  ghost function ItemSet(labels: multiset<Label>, tactic: string): set<Item> {
    set l | l in labels && l.tactic == tactic :: Item(l.technique, labels[l])
  }

  ghost function ItemsOf(labels: multiset<Label>, tactic: string): seq<Item> { Ranked(ItemSet(labels, tactic)) }

  /** The map the techniques of one tactic add to `chosen`. */
  function PlanOf(items: seq<Item>, splits: seq<Split>): map<string, Split>
    requires |splits| <= |items|
    decreases |splits|
  {
    if splits == [] then map[]
    else
      var n := |splits| - 1;
      PlanOf(items, splits[..n])[items[n].technique := splits[n]]
  }

  ghost function TacticPlan(labels: multiset<Label>, tactic: string): map<string, Split> {
    var items := ItemsOf(labels, tactic);
    PlanOf(items, Allotted(items))
  }

  /** The tactics in the order a dictionary first met them. */
  function FirstSeen(labels: seq<Label>): seq<string> {
    if labels == [] then []
    else
      var n := |labels| - 1;
      var before := FirstSeen(labels[..n]);
      if labels[n].tactic in before then before else before + [labels[n].tactic]
  }

  lemma {:induction false} SeenOnce(labels: seq<Label>, l: Label)
    requires l in labels
    ensures l.tactic in FirstSeen(labels)
  {
    var n := |labels| - 1;
    assert labels == labels[..n] + [labels[n]];
    if labels[n] != l { SeenOnce(labels[..n], l); }
  }

  lemma {:induction false} SeenFrom(labels: seq<Label>, t: string) returns (l: Label)
    requires t in FirstSeen(labels)
    ensures l in labels && l.tactic == t
  {
    l := labels[|labels| - 1];
    if l.tactic != t { l := SeenFrom(labels[..|labels| - 1], t); }
  }

  /** A later tactic overwrites an earlier one. */
  ghost function Merged(labels: multiset<Label>, tactics: seq<string>): map<string, Split> {
    if tactics == [] then map[] else Merged(labels, tactics[..|tactics| - 1]) + TacticPlan(labels, tactics[|tactics| - 1])
  }

  ghost function Chosen(labels: seq<Label>): map<string, Split> { Merged(multiset(labels), FirstSeen(labels)) }

  ghost predicate NamesDiffer(items: seq<Item>) {
    forall i, j :: 0 <= i < j < |items| ==> items[i].technique != items[j].technique
  }

  lemma {:induction false} PlanAt(items: seq<Item>, splits: seq<Split>, i: nat)
    requires NamesDiffer(items) && i < |splits| <= |items|
    ensures items[i].technique in PlanOf(items, splits) && PlanOf(items, splits)[items[i].technique] == splits[i]
    decreases |splits|
  {
    if i < |splits| - 1 { PlanAt(items, splits[..|splits| - 1], i); }
  }

  lemma {:induction false} PlanKeys(items: seq<Item>, splits: seq<Split>, x: string) returns (i: nat)
    requires |splits| <= |items| && x in PlanOf(items, splits)
    ensures i < |splits| && items[i].technique == x
    decreases |splits|
  {
    i := |splits| - 1;
    if items[i].technique != x { i := PlanKeys(items, splits[..i], x); }
  }

  lemma ItemsFacts(labels: multiset<Label>, tactic: string)
    ensures var items := ItemsOf(labels, tactic);
            && NamesDiffer(items) && Ordered(Ahead, items) && |items| == |ItemSet(labels, tactic)|
            && forall x :: x in items <==> x in ItemSet(labels, tactic)
  {
    var items := ItemsOf(labels, tactic);
    RankedItems(ItemSet(labels, tactic));
    forall i, j | 0 <= i < j < |items| ensures items[i].technique != items[j].technique {
      assert Ahead(items[i], items[j]);
      assert items[i] in items && items[j] in items;
    }
  }

  /** A tactic's plan names exactly its techniques. */
  lemma TacticPlanKeys(labels: multiset<Label>, tactic: string, x: string)
    ensures x in TacticPlan(labels, tactic) <==> Label(tactic, x) in labels
  {
    var items := ItemsOf(labels, tactic);
    ItemsFacts(labels, tactic);
    if x in TacticPlan(labels, tactic) {
      var i := PlanKeys(items, Allotted(items), x);
      assert items[i] in items;
    }
    if Label(tactic, x) in labels {
      var it := Item(x, labels[Label(tactic, x)]);
      assert it in ItemSet(labels, tactic);
      var i :| 0 <= i < |items| && items[i] == it;
      PlanAt(items, Allotted(items), i);
    }
  }

  /** The techniques of a tactic with their row counts, most rows first and in dictionary
      order among equals, each where the greedy allocation put it. */
  lemma TacticPlanIs(labels: multiset<Label>, tactic: string, i: nat, j: nat)
    requires i < j < |ItemsOf(labels, tactic)|
    ensures var items := ItemsOf(labels, tactic);
            && items[i].count == labels[Label(tactic, items[i].technique)] > 0
            && items[j].count == labels[Label(tactic, items[j].technique)] > 0
            && items[i].technique != items[j].technique
            && items[i].count >= items[j].count
            && (items[i].count == items[j].count ==> exists k: nat :: Parts(items[i].technique, items[j].technique, k))
  {
    var items := ItemsOf(labels, tactic);
    ItemsFacts(labels, tactic);
    assert items[i] in items && items[j] in items && Ahead(items[i], items[j]);
    LexIsDictionaryOrder(items[i].technique, items[j].technique);
  }

  lemma PlannedAt(labels: multiset<Label>, tactic: string, i: nat)
    requires i < |ItemsOf(labels, tactic)|
    ensures var items := ItemsOf(labels, tactic);
            items[i].technique in TacticPlan(labels, tactic) && TacticPlan(labels, tactic)[items[i].technique] == Allotted(items)[i]
  {
    ItemsFacts(labels, tactic);
    PlanAt(ItemsOf(labels, tactic), Allotted(ItemsOf(labels, tactic)), i);
  }

  /** Tactics come in the order their first rows do. */
  lemma {:induction false} TacticsByFirstRow(labels: seq<Label>, a: nat, b: nat) returns (p: nat)
    requires a < b < |FirstSeen(labels)|
    ensures p < |labels| && labels[p].tactic == FirstSeen(labels)[a]
    ensures forall q :: 0 <= q <= p ==> labels[q].tactic != FirstSeen(labels)[b]
  {
    var n := |labels| - 1;
    var before := FirstSeen(labels[..n]);
    if b < |before| {
      p := TacticsByFirstRow(labels[..n], a, b);
    } else {
      var l := SeenFrom(labels[..n], before[a]);
      var k :| 0 <= k < n && labels[..n][k] == l;
      p := k;
      forall q | 0 <= q <= p ensures labels[q].tactic != labels[n].tactic {
        assert labels[..n][q] in labels[..n];
        SeenOnce(labels[..n], labels[q]);
      }
    }
  }

  lemma {:induction false} MergedLast(labels: multiset<Label>, tactics: seq<string>, k: nat, x: string)
    requires k < |tactics| && Label(tactics[k], x) in labels
    requires forall j :: k < j < |tactics| ==> Label(tactics[j], x) !in labels
    ensures x in Merged(labels, tactics) && x in TacticPlan(labels, tactics[k])
    ensures Merged(labels, tactics)[x] == TacticPlan(labels, tactics[k])[x]
  {
    var n := |tactics| - 1;
    TacticPlanKeys(labels, tactics[n], x);
    if k < n { MergedLast(labels, tactics[..n], k, x); }
  }

  /** A technique in several tactics goes where the last of them puts it. */
  lemma LastTacticDecides(labels: seq<Label>, k: nat, x: string)
    requires k < |FirstSeen(labels)| && Label(FirstSeen(labels)[k], x) in labels
    requires forall j :: k < j < |FirstSeen(labels)| ==> Label(FirstSeen(labels)[j], x) !in labels
    ensures x in Chosen(labels) && x in TacticPlan(multiset(labels), FirstSeen(labels)[k])
    ensures Chosen(labels)[x] == TacticPlan(multiset(labels), FirstSeen(labels)[k])[x]
  {
    MergedLast(multiset(labels), FirstSeen(labels), k, x);
  }

  // ----- When the plan is the tactic's own -----

  /** What the corpus builder guarantees. */
  ghost predicate SingleTactic(labels: seq<Label>) {
    forall a, b :: a in labels && b in labels && a.technique == b.technique ==> a == b
  }

  /** Every tactic a technique is in would put it in the same split. */
  ghost predicate PlansAgree(labels: multiset<Label>) {
    forall a, b :: a in labels && b in labels && a.technique == b.technique ==>
      && a.technique in TacticPlan(labels, a.tactic) && a.technique in TacticPlan(labels, b.tactic)
      && TacticPlan(labels, a.tactic)[a.technique] == TacticPlan(labels, b.tactic)[a.technique]
  }

  lemma SingleTacticsAgree(labels: seq<Label>)
    requires SingleTactic(labels)
    ensures PlansAgree(multiset(labels))
  {
    forall a | a in multiset(labels) ensures a in labels && a.technique in TacticPlan(multiset(labels), a.tactic) {
      TacticPlanKeys(multiset(labels), a.tactic, a.technique);
      assert a == Label(a.tactic, a.technique);
    }
  }

  /** The tactic whose plan a technique ends up with. */
  lemma {:induction false} MergedFrom(labels: multiset<Label>, tactics: seq<string>, x: string) returns (t: string)
    requires exists s :: s in tactics && Label(s, x) in labels
    ensures t in tactics && Label(t, x) in labels && x in TacticPlan(labels, t)
    ensures x in Merged(labels, tactics) && Merged(labels, tactics)[x] == TacticPlan(labels, t)[x]
  {
    var n := |tactics| - 1;
    assert tactics == tactics[..n] + [tactics[n]];
    TacticPlanKeys(labels, tactics[n], x);
    if Label(tactics[n], x) in labels { t := tactics[n]; } else { t := MergedFrom(labels, tactics[..n], x); }
  }

  lemma ChosenFrom(labels: seq<Label>, l: Label) returns (t: string)
    requires l in labels
    ensures Label(t, l.technique) in labels && l.technique in TacticPlan(multiset(labels), t)
    ensures l.technique in Chosen(labels) && Chosen(labels)[l.technique] == TacticPlan(multiset(labels), t)[l.technique]
  {
    SeenOnce(labels, l);
    assert Label(l.tactic, l.technique) == l && l in multiset(labels);
    t := MergedFrom(multiset(labels), FirstSeen(labels), l.technique);
    assert Label(t, l.technique) in multiset(labels);
  }

  /** A tactic with at least three techniques has rows in all three splits. */
  lemma EverySplitIsSeeded(labels: seq<Label>, tactic: string, s: Split)
    requires PlansAgree(multiset(labels)) && |ItemSet(multiset(labels), tactic)| >= 3
    ensures exists l :: l in labels && l.tactic == tactic && l.technique in Chosen(labels) && Chosen(labels)[l.technique] == s
  {
    var items := ItemsOf(multiset(labels), tactic);
    ItemsFacts(multiset(labels), tactic);
    var i: nat := match s case Train => 0 case Val => 1 case Test => 2;
    PlanAt(items, Allotted(items), i);
    AllottedAt(FurthestBelow(), items, i, |items|);
    assert items[i] in ItemSet(multiset(labels), tactic) by { assert items[i] in items; }
    var l := Label(tactic, items[i].technique);
    assert l in multiset(labels) && l in labels;
    var t := ChosenFrom(labels, l);
    assert Label(t, l.technique) in multiset(labels);
  }

  // ----- Row order -----

  lemma {:induction false} MergedKeys(labels: multiset<Label>, tactics: seq<string>, x: string) returns (t: string)
    requires x in Merged(labels, tactics)
    ensures Label(t, x) in labels
  {
    t := tactics[|tactics| - 1];
    TacticPlanKeys(labels, t, x);
    if Label(t, x) !in labels { t := MergedKeys(labels, tactics[..|tactics| - 1], x); }
  }

  /** The splits depend on the rows and not on their order. */
  ghost predicate OrderFree(labels: seq<Label>) {
    forall other :: multiset(other) == multiset(labels) ==> Chosen(other) == Chosen(labels)
  }

  lemma SameChoice(a: seq<Label>, b: seq<Label>, x: string)
    requires multiset(a) == multiset(b) && PlansAgree(multiset(a)) && x in Chosen(a)
    ensures x in Chosen(b) && Chosen(a)[x] == Chosen(b)[x]
  {
    var t := MergedKeys(multiset(a), FirstSeen(a), x);
    SameElements(a, b);
    var l := Label(t, x);
    assert l in multiset(a) && l in a;
    var p := ChosenFrom(a, l);
    var q := ChosenFrom(b, l);
    assert Label(p, x) in multiset(a) && Label(q, x) in multiset(b);
  }

  /** The rows of one tactic, or the rows of the others. */
  function Only(labels: seq<Label>, tactic: string, keep: bool): (r: seq<Label>)
    ensures forall l :: l in r <==> l in labels && (l.tactic == tactic) == keep
  {
    if labels == [] then []
    else
      assert labels == [labels[0]] + labels[1..];
      (if (labels[0].tactic == tactic) == keep then [labels[0]] else []) + Only(labels[1..], tactic, keep)
  }

  lemma {:induction false} OnlyParts(labels: seq<Label>, tactic: string)
    ensures multiset(Only(labels, tactic, false) + Only(labels, tactic, true)) == multiset(labels)
  {
    if labels != [] {
      assert labels == [labels[0]] + labels[1..];
      OnlyParts(labels[1..], tactic);
    }
  }

  lemma {:induction false} SeenLast(before: seq<Label>, last: seq<Label>, tactic: string)
    requires (forall l :: l in before ==> l.tactic != tactic) && last != [] && forall l :: l in last ==> l.tactic == tactic
    ensures FirstSeen(before + last) == FirstSeen(before) + [tactic]
  {
    var n := |last| - 1;
    assert (before + last)[..|before| + n] == before + last[..n];
    assert last[n] in last;
    if n > 0 {
      SeenLast(before, last[..n], tactic);
    } else {
      assert before + last[..0] == before;
      if tactic in FirstSeen(before) { var _ := SeenFrom(before, tactic); }
    }
  }

  /** Some order of the rows gives each technique the plan of any one of its tactics. */
  lemma LastTacticWins(labels: seq<Label>, l: Label) returns (other: seq<Label>)
    requires l in labels
    ensures multiset(other) == multiset(labels)
    ensures l.technique in TacticPlan(multiset(labels), l.tactic) && l.technique in Chosen(other)
    ensures Chosen(other)[l.technique] == TacticPlan(multiset(labels), l.tactic)[l.technique]
  {
    var before, last := Only(labels, l.tactic, false), Only(labels, l.tactic, true);
    other := before + last;
    OnlyParts(labels, l.tactic);
    SeenLast(before, last, l.tactic);
    TacticPlanKeys(multiset(labels), l.tactic, l.technique);
    assert Label(l.tactic, l.technique) == l && l in multiset(labels);
    var tactics := FirstSeen(before);
    assert (tactics + [l.tactic])[..|tactics|] == tactics;
  }

  /** Shuffling the rows never changes a split exactly when the tactics that share a
      technique agree on it. */
  lemma OrderFreeExactly(labels: seq<Label>)
    ensures OrderFree(labels) <==> PlansAgree(multiset(labels))
  {
    if PlansAgree(multiset(labels)) {
      forall other | multiset(other) == multiset(labels) ensures Chosen(other) == Chosen(labels) {
        forall x | x in Chosen(other) ensures x in Chosen(labels) && Chosen(other)[x] == Chosen(labels)[x] {
          SameChoice(other, labels, x);
        }
        forall x | x in Chosen(labels) ensures x in Chosen(other) { SameChoice(labels, other, x); }
      }
    }
    if OrderFree(labels) {
      forall a, b | a in multiset(labels) && b in multiset(labels) && a.technique == b.technique
        ensures a.technique in TacticPlan(multiset(labels), a.tactic) && a.technique in TacticPlan(multiset(labels), b.tactic)
        ensures TacticPlan(multiset(labels), a.tactic)[a.technique] == TacticPlan(multiset(labels), b.tactic)[a.technique]
      {
        var first := LastTacticWins(labels, a);
        var second := LastTacticWins(labels, b);
        assert Chosen(first) == Chosen(labels) && Chosen(second) == Chosen(labels);
      }
    }
  }

  // ----- A technique shared by two tactics -----

  /** `X` alone in tactic `A`, and beside the larger `Y` in tactic `B`. */
  function SharedRows(): seq<Label> { [Label("A", "X"), Label("B", "X"), Label("B", "Y"), Label("B", "Y")] }

  lemma ItemsAre(labels: multiset<Label>, tactic: string, items: seq<Item>)
    requires Ordered(Ahead, items) && (forall x :: x in items <==> x in ItemSet(labels, tactic))
    requires |items| == |ItemSet(labels, tactic)|
    ensures ItemsOf(labels, tactic) == items
  {
    ItemsFacts(labels, tactic);
    SameItemsSameList(items, ItemsOf(labels, tactic));
  }

  lemma SharedItems()
    ensures var m := multiset(SharedRows());
            ItemsOf(m, "A") == [Item("X", 1)] && ItemsOf(m, "B") == [Item("Y", 2), Item("X", 1)]
  {
    var m := multiset(SharedRows());
    assert m == multiset{Label("A", "X"), Label("B", "X"), Label("B", "Y"), Label("B", "Y")};
    assert ItemSet(m, "A") == {Item("X", 1)};
    assert ItemSet(m, "B") == {Item("Y", 2), Item("X", 1)};
    ItemsAre(m, "A", [Item("X", 1)]);
    ItemsAre(m, "B", [Item("Y", 2), Item("X", 1)]);
  }

  lemma SharedShares()
    ensures Share(1, Train) == 1.0 && Share(1, Val) == 1.0 && Share(1, Test) == 1.0
    ensures Share(3, Train) == 2.1 && Share(3, Val) == 1.0 && Share(3, Test) == 1.0
  {
  }

  lemma SharedRule()
    ensures Lightest(Loads(0, 0, 0), 1, 1) == Train
    ensures Lightest(Loads(0, 0, 0), 3, 2) == Train
    ensures Lightest(Loads(2, 0, 0), 3, 1) == Val
  {
    SharedShares();
    assert 2.0 / 2.1 <= 2.0 / 1.0 && 3.0 / 2.1 > 1.0 / 1.0;
  }

  lemma AloneIs(rule: Rule, items: seq<Item>, s: Split)
    requires |items| == 1 && Place(rule, items, []) == s
    ensures AllottedBy(rule, items, 1) == [s]
  {
    assert Grown(Placer(rule, items), 0) == [];
  }

  lemma PairIs(rule: Rule, items: seq<Item>, s: Split, t: Split)
    requires |items| == 2 && Place(rule, items, []) == s && Place(rule, items, [s]) == t
    ensures AllottedBy(rule, items, 2) == [s, t]
  {
    var next := Placer(rule, items);
    assert Grown(next, 0) == [];
    assert Grown(next, 1) == [s];
    assert Grown(next, 2) == [s] + [t];
  }

  lemma SharedPlaces()
    ensures Allotted([Item("X", 1)]) == [Train] && Allotted([Item("Y", 2), Item("X", 1)]) == [Train, Val]
  {
    var a, b := [Item("X", 1)], [Item("Y", 2), Item("X", 1)];
    assert a[..0] == [] && b[..1] == [b[0]] && b[..1][..0] == [];
    assert Placed(a) == 1 && Placed(b) == 3;
    assert LoadsOf(b, [Train]) == Loads(2, 0, 0) by { assert [Train][..0] == []; }
    SharedRule();
    AloneIs(FurthestBelow(), a, Train);
    PairIs(FurthestBelow(), b, Train, Val);
  }

  lemma DisagreeAt(labels: multiset<Label>, a: Label, b: Label, pa: map<string, Split>, pb: map<string, Split>)
    requires a in labels && b in labels && a.technique == b.technique
    requires pa == TacticPlan(labels, a.tactic) && pb == TacticPlan(labels, b.tactic)
    requires a.technique in pa && a.technique in pb && pa[a.technique] != pb[a.technique]
    ensures !PlansAgree(labels)
  {
  }

  lemma PlanOfPair(first: Item, second: Item)
    requires first.technique != second.technique
    ensures var plan := PlanOf([first, second], [Train, Val]); second.technique in plan && plan[second.technique] == Val
  {
    PlanAt([first, second], [Train, Val], 1);
  }

  lemma PlanOfOne(item: Item)
    ensures var plan := PlanOf([item], [Train]); item.technique in plan && plan[item.technique] == Train
  {
    PlanAt([item], [Train], 0);
  }

  lemma SharedLabels()
    ensures Label("A", "X") in multiset(SharedRows()) && Label("B", "X") in multiset(SharedRows())
  {
    assert SharedRows()[0] == Label("A", "X") && SharedRows()[1] == Label("B", "X");
  }

  lemma SharedPlans()
    ensures var m := multiset(SharedRows());
            && TacticPlan(m, "A") == PlanOf([Item("X", 1)], [Train])
            && TacticPlan(m, "B") == PlanOf([Item("Y", 2), Item("X", 1)], [Train, Val])
  {
    SharedItems();
    SharedPlaces();
  }

  lemma SharedDisagree()
    ensures !PlansAgree(multiset(SharedRows()))
  {
    SharedPlans();
    SharedLabels();
    var a, b := PlanOf([Item("X", 1)], [Train]), PlanOf([Item("Y", 2), Item("X", 1)], [Train, Val]);
    PlanOfOne(Item("X", 1));
    PlanOfPair(Item("Y", 2), Item("X", 1));
    DisagreeAt(multiset(SharedRows()), Label("A", "X"), Label("B", "X"), a, b);
  }

  /** With a technique in two tactics the row order can decide its split. */
  lemma SharedTechniqueDependsOnOrder()
    ensures !OrderFree(SharedRows())
  {
    SharedDisagree();
    OrderFreeExactly(SharedRows());
  }

  // ----- The method -----

  /** One tactic's dictionary of row counts. */
  ghost predicate Counts(labels: multiset<Label>, tactic: string, counts: map<string, nat>) {
    forall x :: (x in counts <==> Label(tactic, x) in labels) && (x in counts ==> counts[x] == labels[Label(tactic, x)])
  }

  ghost predicate AllCounts(labels: multiset<Label>, order: seq<string>, perTactic: map<string, map<string, nat>>) {
    && (forall t :: t in perTactic <==> t in order)
    && (forall t :: t in perTactic ==> Counts(labels, t, perTactic[t]))
    && (forall l :: l in labels ==> l.tactic in order)
  }

  /** `counts[key] += 1` on a dictionary that starts every key at zero. */
  function Bumped(counts: map<string, nat>, key: string): map<string, nat> {
    counts[key := (if key in counts then counts[key] else 0) + 1]
  }

  method CountRows(rows: array<Row>) returns (order: seq<string>, perTactic: map<string, map<string, nat>>)
    ensures order == FirstSeen(Labels(rows[..])) && AllCounts(multiset(Labels(rows[..])), order, perTactic)
  {
    order, perTactic := [], map[];
    for i := 0 to rows.Length
      invariant order == FirstSeen(Labels(rows[..i])) && AllCounts(multiset(Labels(rows[..i])), order, perTactic)
    {
      var l := rows[i].at;
      LabelsSnoc(rows[..], i);
      assert rows[..][..i] == rows[..i] && rows[..][..i + 1] == rows[..i + 1];
      FirstSeenSnoc(Labels(rows[..i]), l);
      CountsStep(multiset(Labels(rows[..i])), order, l, perTactic);
      var counts := map[];
      if l.tactic in perTactic { counts := perTactic[l.tactic]; } else { order := order + [l.tactic]; }
      perTactic := perTactic[l.tactic := Bumped(counts, l.technique)];
    }
    assert rows[..rows.Length] == rows[..];
  }

  function Labels(rows: seq<Row>): seq<Label> { seq(|rows|, i requires 0 <= i < |rows| => rows[i].at) }

  lemma LabelsSnoc(rows: seq<Row>, i: nat)
    requires i < |rows|
    ensures Labels(rows[..i + 1]) == Labels(rows[..i]) + [rows[i].at]
  {
  }

  lemma FirstSeenSnoc(labels: seq<Label>, l: Label)
    ensures FirstSeen(labels + [l]) == FirstSeen(labels) + if l.tactic in FirstSeen(labels) then [] else [l.tactic]
    ensures multiset(labels + [l]) == multiset(labels) + multiset{l}
  {
    assert (labels + [l])[..|labels|] == labels;
  }

  lemma CountOneMore(labels: multiset<Label>, l: Label, tactic: string, counts: map<string, nat>)
    requires Counts(labels, tactic, counts)
    ensures Counts(labels + multiset{l}, tactic, if tactic == l.tactic then Bumped(counts, l.technique) else counts)
  {
  }

  lemma CountsStep(labels: multiset<Label>, order: seq<string>, l: Label, perTactic: map<string, map<string, nat>>)
    requires AllCounts(labels, order, perTactic)
    ensures var counts := if l.tactic in perTactic then perTactic[l.tactic] else map[];
            AllCounts(labels + multiset{l}, order + (if l.tactic in order then [] else [l.tactic]),
                      perTactic[l.tactic := Bumped(counts, l.technique)])
  {
    var counts := if l.tactic in perTactic then perTactic[l.tactic] else map[];
    CountOneMore(labels, l, l.tactic, counts);
    forall t | t in perTactic && t != l.tactic ensures Counts(labels + multiset{l}, t, perTactic[t]) {
      CountOneMore(labels, l, t, perTactic[t]);
    }
  }

  method Items(counts: map<string, nat>) returns (items: seq<Item>)
    ensures forall it: Item :: it in items <==> it.technique in counts && it.count == counts[it.technique]
    ensures |items| == |counts| && Ordered(Differ, items)
  {
    items := [];
    var names := counts.Keys;
    while names != {}
      invariant names <= counts.Keys && |items| + |names| == |counts|
      invariant forall it: Item :: it in items <==> it.technique in counts.Keys - names && it.count == counts[it.technique]
      invariant Ordered(Differ, items)
      decreases |names|
    {
      var x := PickOne(names);
      names := names - {x};
      items := items + [Item(x, counts[x])];
    }
  }

  method SortedItems(counts: map<string, nat>, ghost labels: multiset<Label>, ghost tactic: string) returns (items: seq<Item>)
    requires Counts(labels, tactic, counts)
    ensures items == ItemsOf(labels, tactic)
  {
    var unsorted := Items(counts);
    items := SortBy(AtMost, unsorted);
    AtMostIsTotalOrder();
    SortRefines(AtMost, Differ, unsorted);
    RefinedIsAhead(items);
    SameElements(items, unsorted);
    ItemsFacts(labels, tactic);
    ItemCount(labels, tactic, counts);
    SameItemsSameList(items, ItemsOf(labels, tactic));
  }

  lemma ItemCount(labels: multiset<Label>, tactic: string, counts: map<string, nat>)
    requires Counts(labels, tactic, counts)
    ensures forall it: Item :: it in ItemSet(labels, tactic) <==> it.technique in counts && it.count == counts[it.technique]
    ensures |ItemSet(labels, tactic)| == |counts|
  {
    var items := ItemSet(labels, tactic);
    forall it: Item | it.technique in counts && it.count == counts[it.technique] ensures it in items {
      assert Label(tactic, it.technique) in labels;
    }
    assert items == set x | x in counts.Keys :: Item(x, counts[x]);
    NamesSize(counts, counts.Keys);
  }

  lemma {:induction false} NamesSize(counts: map<string, nat>, names: set<string>)
    requires names <= counts.Keys
    ensures |set x | x in names :: Item(x, counts[x])| == |names|
  {
    var items := set x | x in names :: Item(x, counts[x]);
    if names == {} {
      assert items == {};
    } else {
      var y := Pick(names);
      NamesSize(counts, names - {y});
      assert items == (set x | x in names - {y} :: Item(x, counts[x])) + {Item(y, counts[y])};
    }
  }

  method Total(items: seq<Item>) returns (total: nat)
    ensures total == Placed(items)
  {
    total := 0;
    for i := 0 to |items|
      invariant total == Placed(items[..i])
    {
      assert items[..i + 1][..i] == items[..i];
      total := total + items[i].count;
    }
    assert items[..|items|] == items;
  }

  /** One tactic: seed the three splits, then fill whichever the rule picks. */
  method AllocateBy(rule: Rule, items: seq<Item>) returns (chosen: map<string, Split>)
    ensures chosen == PlanOf(items, AllottedBy(rule, items, |items|))
  {
    chosen := map[];
    var total := Total(items);
    var load := Loads(0, 0, 0);
    ghost var splits := AllottedBy(rule, items, 0);
    for i := 0 to |items|
      invariant splits == AllottedBy(rule, items, i)
      invariant load == LoadsOf(items, splits) && chosen == PlanOf(items, splits)
    {
      var name := if |items| >= PLANS && i < PLANS then Seed(i) else rule(load, total, items[i].count);
      AllottedSnoc(rule, items, i);
      PlacedOneMore(items, splits, name);
      chosen := chosen[items[i].technique := name];
      load := load.Plus(name, items[i].count);
      splits := splits + [name];
    }
  }

  lemma AllottedSnoc(rule: Rule, items: seq<Item>, i: nat)
    requires i < |items|
    ensures var splits := AllottedBy(rule, items, i);
            var name := Place(rule, items, splits);
            AllottedBy(rule, items, i + 1) == splits + [name]
  {
  }

  lemma PlacedOneMore(items: seq<Item>, splits: seq<Split>, name: Split)
    requires |splits| < |items|
    ensures PlanOf(items, splits + [name]) == PlanOf(items, splits)[items[|splits|].technique := name]
    ensures LoadsOf(items, splits + [name]) == LoadsOf(items, splits).Plus(name, items[|splits|].count)
  {
    assert (splits + [name])[..|splits|] == splits;
  }

  method MergePlans(order: seq<string>, perTactic: map<string, map<string, nat>>, ghost labels: multiset<Label>)
    returns (chosen: map<string, Split>)
    requires forall t :: t in order ==> t in perTactic && Counts(labels, t, perTactic[t])
    ensures chosen == Merged(labels, order)
  {
    chosen := map[];
    for k := 0 to |order|
      invariant chosen == Merged(labels, order[..k])
    {
      assert order[k] in order;
      var items := SortedItems(perTactic[order[k]], labels, order[k]);
      assert order[..k + 1][..k] == order[..k];
      var plan := AllocateBy(FurthestBelow(), items);
      chosen := chosen + plan;
    }
    assert order[..|order|] == order;
  }

  method Choose(rows: array<Row>) returns (chosen: map<string, Split>)
    ensures chosen == Chosen(Labels(rows[..]))
  {
    var order, perTactic := CountRows(rows);
    chosen := MergePlans(order, perTactic, multiset(Labels(rows[..])));
  }

  lemma ChosenCovers(labels: seq<Label>)
    ensures forall l :: l in labels ==> l.technique in Chosen(labels)
  {
    forall l | l in labels ensures l.technique in Chosen(labels) { var _ := ChosenFrom(labels, l); }
  }

  /** `assign_splits`: each row gets the split chosen for its technique, so a technique is
      never in two splits. */
  method AssignSplits(rows: array<Row>)
    modifies rows
    ensures forall i :: 0 <= i < rows.Length ==> rows[i].at == old(rows[i].at)
    ensures forall i :: 0 <= i < rows.Length ==>
              && rows[i].at.technique in Chosen(Labels(old(rows[..])))
              && rows[i].split == Some(Chosen(Labels(old(rows[..])))[rows[i].at.technique])
  {
    ghost var labels := Labels(rows[..]);
    var chosen := Choose(rows);
    ChosenCovers(labels);
    for i := 0 to rows.Length
      invariant forall j :: 0 <= j < rows.Length ==> rows[j].at == labels[j]
      invariant forall j :: 0 <= j < i ==> rows[j].split == Some(chosen[labels[j].technique])
    {
      assert labels[i] in labels;
      rows[i] := rows[i].(split := Some(chosen[rows[i].at.technique]));
    }
    forall i | 0 <= i < rows.Length ensures rows[i].at.technique in chosen { assert labels[i] in labels; }
  }
}
