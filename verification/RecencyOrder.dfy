/** Least-recently-used order: what a bounded memo still holds after any list of uses. */
module RecencyOrder {
  import opened Basics

  function Without<T(==)>(s: seq<T>, x: T): (r: seq<T>)
    ensures x !in r && (forall y :: y in r ==> y in s) && (forall y :: y in s ==> y == x || y in r)
    ensures |r| <= |s| && (x !in s ==> r == s)
  {
    if s == [] then []
    else
      var n := |s| - 1;
      assert s == s[..n] + [s[n]];
      if s[n] == x then Without(s[..n], x) else Without(s[..n], x) + [s[n]]
  }

  /** `move_to_end`. */
  function Touch<T(==)>(s: seq<T>, x: T): seq<T> { Without(s, x) + [x] }

  /** One use of `x` against a memo that holds at most `max` keys, oldest first. */
  function Admit<T(==)>(order: seq<T>, x: T, max: nat): seq<T> {
    if x in order then Touch(order, x)
    else if |order| + 1 > max then (order + [x])[1..]
    else order + [x]
  }

  // ----- The same order, from the uses alone -----

  /** The distinct keys used, by their last use. */
  ghost function Recency<T>(uses: seq<T>): seq<T> {
    if uses == [] then [] else Touch(Recency(uses[..|uses| - 1]), uses[|uses| - 1])
  }

  function Newest<T>(s: seq<T>, max: nat): (r: seq<T>)
    ensures |r| <= max
  {
    if |s| <= max then s else s[|s| - max..]
  }

  /** The distinct keys used after the last use of `x`. */
  ghost function Since<T>(uses: seq<T>, x: T): set<T> {
    if uses == [] || uses[|uses| - 1] == x then {}
    else {uses[|uses| - 1]} + Since(uses[..|uses| - 1], x)
  }

  lemma {:induction false} WithoutNoRepeats<T>(s: seq<T>, x: T)
    requires NoRepeats(s)
    ensures NoRepeats(Without(s, x))
    ensures |Without(s, x)| == if x in s then |s| - 1 else |s|
  {
    if s != [] {
      var n := |s| - 1;
      assert s == s[..n] + [s[n]];
      WithoutNoRepeats(s[..n], x);
      assert s[n] !in s[..n];
    }
  }

  lemma DropOldest<T>(order: seq<T>, x: T)
    requires NoRepeats(order) && x !in order
    ensures var grown := order + [x];
            && NoRepeats(grown) && NoRepeats(grown[1..]) && grown[0] !in grown[1..]
            && (forall y :: y in grown[1..] ==> y in grown) && (forall y :: y in grown ==> y == grown[0] || y in grown[1..])
  {
    var grown := order + [x];
    assert NoRepeats(grown);
    assert grown == [grown[0]] + grown[1..];
    forall i | 0 <= i < |grown[1..]| ensures grown[1..][i] != grown[0] { assert grown[1..][i] == grown[i + 1]; }
  }

  lemma {:induction false} WithoutConcat<T>(a: seq<T>, b: seq<T>, x: T)
    ensures Without(a + b, x) == Without(a, x) + Without(b, x)
  {
    if b == [] {
      assert a + b == a;
    } else {
      var n := |b| - 1;
      assert (a + b)[..|a| + n] == a + b[..n];
      WithoutConcat(a, b[..n], x);
    }
  }

  lemma {:induction false} RecencyHasNoRepeats<T>(uses: seq<T>)
    ensures NoRepeats(Recency(uses))
    ensures (forall x :: x in Recency(uses) ==> x in uses) && (forall x :: x in uses ==> x in Recency(uses))
  {
    if uses != [] {
      var n := |uses| - 1;
      assert uses == uses[..n] + [uses[n]];
      RecencyHasNoRepeats(uses[..n]);
      WithoutNoRepeats(Recency(uses[..n]), uses[n]);
    }
  }

  lemma SuffixIsNewest<T>(whole: seq<T>, past: seq<T>, kept: seq<T>, max: nat)
    requires whole == past + kept && |kept| <= max && (past != [] ==> |kept| == max)
    ensures Newest(whole, max) == kept
  {
  }

  lemma NoRepeatsParts<T>(past: seq<T>, order: seq<T>)
    requires NoRepeats(past + order)
    ensures NoRepeats(order) && forall x :: x in order ==> x !in past
  {
    var whole := past + order;
    forall i, j | 0 <= i < j < |order| ensures order[i] != order[j] {
      assert whole[|past| + i] == order[i] && whole[|past| + j] == order[j];
    }
    forall i, j | 0 <= i < |past| && 0 <= j < |order| ensures past[i] != order[j] {
      assert whole[i] == past[i] && whole[|past| + j] == order[j];
    }
  }

  lemma HitSuffix<T>(past: seq<T>, order: seq<T>, x: T, max: nat)
    requires NoRepeats(past + order) && |order| <= max && (past != [] ==> |order| == max) && x in order
    ensures Touch(order, x) == Newest(Touch(past + order, x), max)
  {
    NoRepeatsParts(past, order);
    WithoutConcat(past, order, x);
    WithoutNoRepeats(order, x);
    SuffixIsNewest(Touch(past + order, x), past, Touch(order, x), max);
  }

  lemma MissSuffix<T>(past: seq<T>, order: seq<T>, x: T, max: nat)
    requires max >= 1 && |order| <= max && (past != [] ==> |order| == max) && x !in order
    ensures Admit(order, x, max) == Newest(Touch(past + order, x), max)
  {
    WithoutConcat(past, order, x);
    GrownIsNewest(Touch(past + order, x), Without(past, x), order, x, max);
  }

  lemma GrownIsNewest<T>(whole: seq<T>, rest: seq<T>, order: seq<T>, x: T, max: nat)
    requires max >= 1 && |order| <= max && (rest != [] ==> |order| == max) && x !in order && whole == rest + order + [x]
    ensures Admit(order, x, max) == Newest(whole, max)
  {
    var grown := order + [x];
    assert whole == rest + grown;
    if |grown| > max {
      SuffixIsNewest(whole, rest + grown[..1], grown[1..], max);
    } else {
      SuffixIsNewest(whole, rest, grown, max);
    }
  }

  lemma AdmitIsNewest<T>(all: seq<T>, x: T, max: nat)
    requires max >= 1 && NoRepeats(all)
    ensures Admit(Newest(all, max), x, max) == Newest(Touch(all, x), max)
  {
    var k := if |all| <= max then 0 else |all| - max;
    var past, order := all[..k], all[k..];
    assert all == past + order;
    if x in order { HitSuffix(past, order, x, max); } else { MissSuffix(past, order, x, max); }
  }

  /** The memo holds the `max` most recently used keys, in that order. */
  lemma AdmitKeepsNewest<T>(uses: seq<T>, x: T, max: nat)
    requires max >= 1
    ensures Admit(Newest(Recency(uses), max), x, max) == Newest(Recency(uses + [x]), max)
  {
    assert (uses + [x])[..|uses|] == uses;
    RecencyHasNoRepeats(uses);
    AdmitIsNewest(Recency(uses), x, max);
  }

  lemma TouchSplit<T>(before: seq<T>, a: seq<T>, x: T, b: seq<T>, y: T)
    requires before == a + [x] + b && x != y
    ensures Touch(before, y) == Without(a, y) + [x] + (Without(b, y) + [y])
  {
    WithoutConcat(a + [x], b, y);
    WithoutConcat(a, [x], y);
    assert Without([x], y) == [x];
  }

  lemma TouchedSet<T>(b: seq<T>, y: T)
    ensures (set z | z in Without(b, y) + [y]) == {y} + (set z | z in b)
  {
  }

  lemma {:induction false} RecencySplit<T>(uses: seq<T>, x: T) returns (pre: seq<T>, post: seq<T>)
    requires x in uses
    ensures Recency(uses) == pre + [x] + post
    ensures (set y | y in post) == Since(uses, x)
  {
    var n := |uses| - 1;
    var y := uses[n];
    var before := Recency(uses[..n]);
    if y == x {
      pre, post := Without(before, x), [];
    } else {
      assert uses == uses[..n] + [y];
      var a, b := RecencySplit(uses[..n], x);
      TouchSplit(before, a, x, b, y);
      TouchedSet(b, y);
      pre, post := Without(a, y), Without(b, y) + [y];
    }
  }

  lemma {:induction false} NoRepeatsSize<T>(s: seq<T>)
    requires NoRepeats(s)
    ensures |set x | x in s| == |s|
  {
    if s != [] {
      var n := |s| - 1;
      assert s == s[..n] + [s[n]];
      NoRepeatsSize(s[..n]);
      assert (set x | x in s) == (set x | x in s[..n]) + {s[n]};
    }
  }

  /** A key is still held exactly when fewer than `max` other keys were used since. */
  lemma HeldExactly<T>(uses: seq<T>, x: T, max: nat)
    ensures x in Newest(Recency(uses), max) <==> x in uses && |Since(uses, x)| < max
  {
    RecencyHasNoRepeats(uses);
    var all := Recency(uses);
    if x in uses {
      var pre, post := RecencySplit(uses, x);
      assert NoRepeats(post) by {
        forall i, j | 0 <= i < j < |post| ensures post[i] != post[j] {
          assert all[|pre| + 1 + i] == post[i] && all[|pre| + 1 + j] == post[j];
        }
      }
      NoRepeatsSize(post);
      assert all[|pre|] == x;
      var k := if |all| <= max then 0 else |all| - max;
      assert Newest(all, max) == all[k..];
      if k <= |pre| { assert all[k..][|pre| - k] == x; }
    }
  }
}
