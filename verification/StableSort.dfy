/** A stable sort under a total preorder, the contract of the source's `list.sort(key=...)`. */
module StableSort {

  /** Every earlier element stands in `rel` to every later one. */
  ghost predicate Ordered<T(!new)>(rel: (T, T) -> bool, s: seq<T>) {
    forall i, j :: 0 <= i < j < |s| ==> rel(s[i], s[j])
  }

  ghost predicate TotalPreorder<T(!new)>(le: (T, T) -> bool) {
    && (forall x, y :: le(x, y) || le(y, x))
    && (forall x, y, z :: le(x, y) && le(y, z) ==> le(x, z))
  }

  /** What a stable pass by `le` makes of a list that was ordered by `rel`. */
  ghost function Refine<T>(le: (T, T) -> bool, rel: (T, T) -> bool): (T, T) -> bool {
    (x, y) => le(x, y) && (le(y, x) ==> rel(x, y))
  }

  function InsertBy<T>(le: (T, T) -> bool, x: T, s: seq<T>): (r: seq<T>)
    ensures multiset(r) == multiset{x} + multiset(s)
  {
    if s == [] || le(x, s[0]) then [x] + s
    else
      assert s == [s[0]] + s[1..];
      [s[0]] + InsertBy(le, x, s[1..])
  }

  function SortBy<T>(le: (T, T) -> bool, s: seq<T>): (r: seq<T>)
    ensures multiset(r) == multiset(s)
  {
    if s == [] then []
    else
      assert s == [s[0]] + s[1..];
      InsertBy(le, s[0], SortBy(le, s[1..]))
  }

  lemma SameElements<T>(a: seq<T>, b: seq<T>)
    requires multiset(a) == multiset(b)
    ensures |a| == |b|
    ensures forall x :: x in a <==> x in b
  {
    assert |multiset(a)| == |a| && |multiset(b)| == |b|;
    forall x ensures x in a <==> x in b {
      assert x in a <==> x in multiset(a);
      assert x in b <==> x in multiset(b);
    }
  }

  lemma {:induction false} InsertRefines<T(!new)>(le: (T, T) -> bool, rel: (T, T) -> bool, x: T, s: seq<T>)
    requires TotalPreorder(le)
    requires Ordered(Refine(le, rel), s)
    requires forall y :: y in s ==> rel(x, y)
    ensures Ordered(Refine(le, rel), InsertBy(le, x, s))
  {
    if s == [] {
    } else if le(x, s[0]) {
      forall j | 0 <= j < |s| ensures Refine(le, rel)(x, s[j]) {
        assert j > 0 ==> Refine(le, rel)(s[0], s[j]);
      }
    } else {
      InsertRefines(le, rel, x, s[1..]);
      var rest := InsertBy(le, x, s[1..]);
      SameElements(rest, [x] + s[1..]);
      forall j | 0 <= j < |rest| ensures Refine(le, rel)(s[0], rest[j]) {
        assert rest[j] in [x] + s[1..];
        if rest[j] != x {
          var k :| 0 <= k < |s[1..]| && s[1..][k] == rest[j];
          assert rest[j] == s[k + 1];
        }
      }
    }
  }

  /** A stable pass refines the order the list already had. */
  lemma {:induction false} SortRefines<T(!new)>(le: (T, T) -> bool, rel: (T, T) -> bool, s: seq<T>)
    requires TotalPreorder(le)
    requires Ordered(rel, s)
    ensures Ordered(Refine(le, rel), SortBy(le, s))
  {
    if s != [] {
      SortRefines(le, rel, s[1..]);
      var rest := SortBy(le, s[1..]);
      SameElements(rest, s[1..]);
      forall y | y in rest ensures rel(s[0], y) {
        assert y in s[1..];
        var k :| 0 <= k < |s[1..]| && s[1..][k] == y;
        assert y == s[k + 1];
      }
      InsertRefines(le, rel, s[0], rest);
    }
  }

  ghost predicate Asymmetric<T(!new)>(rel: (T, T) -> bool) {
    forall x, y :: rel(x, y) ==> !rel(y, x)
  }

  lemma SameHead<T(!new)>(rel: (T, T) -> bool, a: seq<T>, b: seq<T>)
    requires Asymmetric(rel)
    requires Ordered(rel, a) && Ordered(rel, b)
    requires multiset(a) == multiset(b)
    requires a != [] && b != []
    ensures a[0] == b[0]
  {
    SameElements(a, b);
    assert a[0] in b && b[0] in a;
    var i :| 0 <= i < |b| && b[i] == a[0];
    var j :| 0 <= j < |a| && a[j] == b[0];
    assert i > 0 ==> rel(b[0], b[i]);
    assert j > 0 ==> rel(a[0], a[j]);
  }

  lemma WithoutHead<T>(a: seq<T>)
    requires a != []
    ensures multiset(a[1..]) == multiset(a) - multiset{a[0]}
  {
    assert a == [a[0]] + a[1..];
  }

  /** A list ordered by an asymmetric relation is determined by its elements. */
  lemma {:induction false} OrderedIsUnique<T(!new)>(rel: (T, T) -> bool, a: seq<T>, b: seq<T>)
    requires Asymmetric(rel)
    requires Ordered(rel, a) && Ordered(rel, b)
    requires multiset(a) == multiset(b)
    ensures a == b
  {
    SameElements(a, b);
    if a != [] {
      SameHead(rel, a, b);
      WithoutHead(a);
      WithoutHead(b);
      OrderedIsUnique(rel, a[1..], b[1..]);
      assert a == [a[0]] + a[1..] && b == [b[0]] + b[1..];
    }
  }
}
