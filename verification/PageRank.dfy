/** Personalised PageRank by power iteration, in exact reals. */
module PageRank {
  import opened Basics

  /** `nbrs[u]` lists the neighbours of node `u`, each once. */
  datatype Graph = Graph(nbrs: seq<seq<nat>>) {
    ghost predicate Valid() {
      && (forall u, k :: 0 <= u < |nbrs| && 0 <= k < |nbrs[u]| ==> nbrs[u][k] < |nbrs|)
      && (forall u :: 0 <= u < |nbrs| ==> NoRepeats(nbrs[u]))
    }
  }

  /** A self-loop counts twice towards the degree but is one neighbour. */
  function Degree(g: Graph, u: nat): nat
    requires u < |g.nbrs|
  {
    |g.nbrs[u]| + if u in g.nbrs[u] then 1 else 0
  }

  function OutDegree(g: Graph, u: nat): (d: nat)
    requires u < |g.nbrs|
    ensures d >= 1 && d >= |g.nbrs[u]|
  {
    if Degree(g, u) < 1 then 1 else Degree(g, u)
  }

  function Abs(x: real): real { if x < 0.0 then -x else x }

  function Sum(a: seq<real>): real {
    if a == [] then 0.0 else Sum(a[..|a| - 1]) + a[|a| - 1]
  }

  /** The L1 distance, `sum(abs(new_p[v] - p[v]))`. */
  function Dist(a: seq<real>, b: seq<real>): real
    requires |a| == |b|
  {
    if a == [] then 0.0
    else Dist(a[..|a| - 1], b[..|b| - 1]) + Abs(a[|a| - 1] - b[|b| - 1])
  }

  ghost predicate NonNegative(a: seq<real>) { forall i :: 0 <= i < |a| ==> a[i] >= 0.0 }

  // ----- One round -----

  /** The teleport term every round starts from. */
  function Teleport(alpha: real, pers: seq<real>): (r: seq<real>)
    ensures |r| == |pers|
    ensures forall i :: 0 <= i < |r| ==> r[i] == (1.0 - alpha) * pers[i]
  {
    seq(|pers|, i requires 0 <= i < |pers| => (1.0 - alpha) * pers[i])
  }

  /** What node `u` hands to each of its neighbours. */
  function ShareOf(g: Graph, alpha: real, p: seq<real>, u: nat): real
    requires u < |g.nbrs| == |p|
  {
    alpha * p[u] / OutDegree(g, u) as real
  }

  ghost function Shares(g: Graph, alpha: real, p: seq<real>): (r: seq<real>)
    requires |g.nbrs| == |p|
    ensures |r| == |p|
    ensures forall u :: 0 <= u < |p| ==> r[u] == ShareOf(g, alpha, p, u)
  {
    seq(|p|, u requires 0 <= u < |p| => ShareOf(g, alpha, p, u))
  }

  /** The inner loop: `c` is added at every listed index. */
  ghost function Push(acc: seq<real>, ns: seq<nat>, c: real): (r: seq<real>)
    requires forall k :: 0 <= k < |ns| ==> ns[k] < |acc|
    ensures |r| == |acc|
  {
    if ns == [] then acc
    else
      var k := |ns| - 1;
      var r := Push(acc, ns[..k], c);
      r[ns[k] := r[ns[k]] + c]
  }

  /** The outer loop over the first `k` nodes. */
  ghost function Spread(g: Graph, shares: seq<real>, acc: seq<real>, k: nat): (r: seq<real>)
    requires g.Valid() && k <= |g.nbrs| == |shares| == |acc|
    ensures |r| == |acc|
  {
    if k == 0 then acc
    else Push(Spread(g, shares, acc, k - 1), g.nbrs[k - 1], shares[k - 1])
  }

  ghost function Update(g: Graph, alpha: real, pers: seq<real>, p: seq<real>): (r: seq<real>)
    requires g.Valid() && |g.nbrs| == |p| == |pers|
    ensures |r| == |p|
  {
    Spread(g, Shares(g, alpha, p), Teleport(alpha, pers), |p|)
  }

  // ----- Real arithmetic, one product at a time -----

  lemma Product(a: real, b: real)
    requires a >= 0.0 && b >= 0.0
    ensures a * b >= 0.0
  {
  }

  lemma Distribute(a: real, x: real, y: real)
    ensures a * (x + y) == a * x + a * y
    ensures a * (x - y) == a * x - a * y
  {
  }

  lemma Monotone(a: real, x: real, y: real)
    requires a >= 0.0 && x <= y
    ensures a * x <= a * y
  {
    Product(a, y - x);
    Distribute(a, y, x);
  }

  /** `n * c`, as the loop accumulates it. */
  ghost function Times(n: nat, c: real): real { if n == 0 then 0.0 else Times(n - 1, c) + c }

  lemma {:induction false} TimesIsProduct(n: nat, c: real)
    ensures Times(n, c) == n as real * c
  {
    if n > 0 {
      TimesIsProduct(n - 1, c);
      Distribute(c, (n - 1) as real, 1.0);
    }
  }

  // Multiplication by the damping factor, passed around as a function.

  ghost function Damp(alpha: real): real -> real { x => alpha * x }

  ghost predicate Growing(keep: real -> real) {
    forall x, y {:trigger keep(x), keep(y)} :: x <= y ==> keep(x) <= keep(y)
  }

  ghost predicate AddsUp(keep: real -> real, x: real, y: real) { keep(x + y) == keep(x) + keep(y) }

  ghost predicate Additive(keep: real -> real) {
    keep(0.0) == 0.0 && forall x, y {:trigger AddsUp(keep, x, y)} :: AddsUp(keep, x, y)
  }

  lemma DampGrows(alpha: real)
    requires 0.0 <= alpha
    ensures Growing(Damp(alpha))
  {
    forall x, y | x <= y ensures Damp(alpha)(x) <= Damp(alpha)(y) { Monotone(alpha, x, y); }
  }

  lemma DampAdds(alpha: real)
    ensures Additive(Damp(alpha))
  {
    forall x, y ensures AddsUp(Damp(alpha), x, y) { Distribute(alpha, x, y); }
  }

  lemma Absorb(alpha: real, step: real, near: real)
    requires near <= Damp(alpha)(step + near)
    ensures Damp(1.0 - alpha)(near) <= Damp(alpha)(step)
  {
    Distribute(alpha, step, near);
  }

  // ----- Sums and distances under a point update -----

  lemma {:induction false} SumAdd(a: seq<real>, i: nat, c: real)
    requires i < |a|
    ensures Sum(a[i := a[i] + c]) == Sum(a) + c
  {
    var n := |a| - 1;
    var b := a[i := a[i] + c];
    if i == n {
      assert b[..n] == a[..n];
    } else {
      assert b[..n] == a[..n][i := a[..n][i] + c];
      SumAdd(a[..n], i, c);
    }
  }

  lemma {:induction false} DistAdd(a: seq<real>, b: seq<real>, i: nat, c: real, d: real)
    requires i < |a| == |b|
    ensures Dist(a[i := a[i] + c], b[i := b[i] + d]) <= Dist(a, b) + Abs(c - d)
  {
    var n := |a| - 1;
    var a', b' := a[i := a[i] + c], b[i := b[i] + d];
    if i == n {
      assert a'[..n] == a[..n] && b'[..n] == b[..n];
    } else {
      assert a'[..n] == a[..n][i := a[..n][i] + c] && b'[..n] == b[..n][i := b[..n][i] + d];
      DistAdd(a[..n], b[..n], i, c, d);
    }
  }

  lemma {:induction false} DistTriangle(a: seq<real>, b: seq<real>, c: seq<real>)
    requires |a| == |b| == |c|
    ensures Dist(a, c) <= Dist(a, b) + Dist(b, c)
    ensures Dist(a, b) == Dist(b, a) >= 0.0
  {
    if a != [] {
      var n := |a| - 1;
      DistTriangle(a[..n], b[..n], c[..n]);
    }
  }

  lemma {:induction false} DistBySums(a: seq<real>, b: seq<real>)
    requires |a| == |b| && NonNegative(a) && NonNegative(b)
    ensures Dist(a, b) <= Sum(a) + Sum(b)
  {
    if a != [] {
      var n := |a| - 1;
      DistBySums(a[..n], b[..n]);
    }
  }

  lemma {:induction false} PushSum(acc: seq<real>, ns: seq<nat>, c: real)
    requires forall k :: 0 <= k < |ns| ==> ns[k] < |acc|
    ensures Sum(Push(acc, ns, c)) == Sum(acc) + Times(|ns|, c)
  {
    if ns != [] {
      var k := |ns| - 1;
      PushSum(acc, ns[..k], c);
      SumAdd(Push(acc, ns[..k], c), ns[k], c);
    }
  }

  lemma {:induction false} PushNonNegative(acc: seq<real>, ns: seq<nat>, c: real)
    requires forall k :: 0 <= k < |ns| ==> ns[k] < |acc|
    requires NonNegative(acc) && c >= 0.0
    ensures NonNegative(Push(acc, ns, c))
  {
    if ns != [] { PushNonNegative(acc, ns[..|ns| - 1], c); }
  }

  lemma {:induction false} PushDist(a: seq<real>, b: seq<real>, ns: seq<nat>, c: real, d: real)
    requires |a| == |b| && forall k :: 0 <= k < |ns| ==> ns[k] < |a|
    ensures Dist(Push(a, ns, c), Push(b, ns, d)) <= Dist(a, b) + Times(|ns|, Abs(c - d))
  {
    if ns != [] {
      var k := |ns| - 1;
      PushDist(a, b, ns[..k], c, d);
      DistAdd(Push(a, ns[..k], c), Push(b, ns[..k], d), ns[k], c, d);
    }
  }

  lemma ScaleDown(x: real, m: real, d: real)
    requires 0.0 <= m <= d && d >= 1.0 && x >= 0.0
    ensures m * (x / d) <= x
    ensures x / d >= 0.0
    ensures m == d ==> m * (x / d) == x
  {
    var y := x / d;
    assert y * d == x;
    assert y >= 0.0;
    assert m * y <= d * y;
  }

  lemma AbsDivide(x: real, d: real)
    requires d >= 1.0
    ensures Abs(x / d) == Abs(x) / d
  {
    if x >= 0.0 {
      ScaleDown(x, 0.0, d);
    } else {
      ScaleDown(-x, 0.0, d);
      assert x / d == -(-x / d);
    }
  }

  ghost function Scale(c: real, a: seq<real>): (r: seq<real>)
    ensures |r| == |a|
    ensures forall i :: 0 <= i < |r| ==> r[i] == c * a[i]
  {
    seq(|a|, i requires 0 <= i < |a| => c * a[i])
  }

  lemma {:induction false} ScaleSum(c: real, a: seq<real>)
    ensures Sum(Scale(c, a)) == c * Sum(a)
  {
    if a != [] {
      var n := |a| - 1;
      ScaleSum(c, a[..n]);
      var long, short := Scale(c, a), Scale(c, a[..n]);
      assert forall i :: 0 <= i < n ==> long[i] == short[i];
      assert long[..n] == short;
      Distribute(c, Sum(a[..n]), a[n]);
    }
  }

  // ----- The contraction -----

  lemma {:induction false} DistSelf(a: seq<real>)
    ensures Dist(a, a) == 0.0
  {
    if a != [] { DistSelf(a[..|a| - 1]); }
  }

  /** Handing out different shares moves the outcome by at most the differences, once for
      each receiver. */
  lemma {:induction false} SpreadGap(g: Graph, sp: seq<real>, sq: seq<real>, acc: seq<real>, gaps: seq<real>, k: nat)
    requires g.Valid() && k <= |g.nbrs| == |sp| == |sq| == |acc| == |gaps|
    requires forall u :: 0 <= u < |gaps| ==> Times(|g.nbrs[u]|, Abs(sp[u] - sq[u])) <= gaps[u]
    ensures Dist(Spread(g, sp, acc, k), Spread(g, sq, acc, k)) <= Sum(gaps[..k])
  {
    if k == 0 {
      DistSelf(acc);
    } else {
      var u := k - 1;
      SpreadGap(g, sp, sq, acc, gaps, u);
      PushDist(Spread(g, sp, acc, u), Spread(g, sq, acc, u), g.nbrs[u], sp[u], sq[u]);
      assert gaps[..k][..u] == gaps[..u];
    }
  }

  ghost function Gaps(keep: real -> real, p: seq<real>, q: seq<real>): (r: seq<real>)
    requires |p| == |q|
    ensures |r| == |p|
    ensures forall u :: 0 <= u < |r| ==> r[u] == keep(Abs(p[u] - q[u]))
  {
    seq(|p|, u requires 0 <= u < |p| => keep(Abs(p[u] - q[u])))
  }

  lemma {:induction false} GapsSum(keep: real -> real, p: seq<real>, q: seq<real>, gaps: seq<real>)
    requires |p| == |q| == |gaps| && Additive(keep)
    requires forall u :: 0 <= u < |gaps| ==> gaps[u] == keep(Abs(p[u] - q[u]))
    ensures Sum(gaps) == keep(Dist(p, q))
  {
    if p != [] {
      var n := |p| - 1;
      GapsSum(keep, p[..n], q[..n], gaps[..n]);
      assert AddsUp(keep, Dist(p[..n], q[..n]), Abs(p[n] - q[n]));
    }
  }

  lemma AbsProduct(alpha: real, x: real)
    requires 0.0 <= alpha
    ensures Abs(alpha * x) == alpha * Abs(x) && alpha * Abs(x) >= 0.0
  {
    if x >= 0.0 { Product(alpha, x); } else { Product(alpha, -x); Distribute(alpha, 0.0, x); }
  }

  lemma DivideGap(x: real, y: real, d: real)
    requires d >= 1.0
    ensures x / d - y / d == (x - y) / d
  {
    var a, b := x / d, y / d;
    assert a * d == x && b * d == y;
    Distribute(d, a, b);
    assert (a - b) * d == x - y;
  }

  lemma AbsScale(alpha: real, x: real, y: real, d: real)
    requires 0.0 <= alpha && d >= 1.0
    ensures Abs(alpha * x / d - alpha * y / d) == alpha * Abs(x - y) / d
    ensures alpha * Abs(x - y) >= 0.0
  {
    DivideGap(alpha * x, alpha * y, d);
    Distribute(alpha, x, y);
    AbsProduct(alpha, x - y);
    AbsDivide(alpha * (x - y), d);
  }

  lemma ScaledGap(m: nat, alpha: real, x: real, y: real, d: real, a: real, b: real)
    requires 0.0 <= alpha && d >= 1.0 && m as real <= d
    requires a == alpha * x / d && b == alpha * y / d
    ensures Times(m, Abs(a - b)) <= Damp(alpha)(Abs(x - y))
  {
    var w := alpha * Abs(x - y);
    AbsScale(alpha, x, y, d);
    assert Abs(a - b) == w / d;
    TimesIsProduct(m, Abs(a - b));
    ScaleDown(w, m as real, d);
    assert Damp(alpha)(Abs(x - y)) == w;
  }

  lemma ShareGap(g: Graph, alpha: real, p: seq<real>, q: seq<real>, u: nat)
    requires u < |g.nbrs| == |p| == |q| && 0.0 <= alpha
    ensures Times(|g.nbrs[u]|, Abs(ShareOf(g, alpha, p, u) - ShareOf(g, alpha, q, u))) <= Damp(alpha)(Abs(p[u] - q[u]))
  {
    ScaledGap(|g.nbrs[u]|, alpha, p[u], q[u], OutDegree(g, u) as real, ShareOf(g, alpha, p, u), ShareOf(g, alpha, q, u));
  }

  lemma SharesClose(g: Graph, alpha: real, p: seq<real>, q: seq<real>)
    requires |g.nbrs| == |p| == |q| && 0.0 <= alpha
    ensures forall u :: 0 <= u < |p| ==>
              Times(|g.nbrs[u]|, Abs(Shares(g, alpha, p)[u] - Shares(g, alpha, q)[u])) <= Damp(alpha)(Abs(p[u] - q[u]))
  {
    forall u | 0 <= u < |p|
      ensures Times(|g.nbrs[u]|, Abs(Shares(g, alpha, p)[u] - Shares(g, alpha, q)[u])) <= Damp(alpha)(Abs(p[u] - q[u]))
    {
      ShareGap(g, alpha, p, q, u);
    }
  }

  lemma SpreadClose(g: Graph, keep: real -> real, sp: seq<real>, sq: seq<real>, start: seq<real>, p: seq<real>, q: seq<real>)
    requires g.Valid() && |g.nbrs| == |sp| == |sq| == |start| == |p| == |q| && Additive(keep)
    requires forall u :: 0 <= u < |p| ==> Times(|g.nbrs[u]|, Abs(sp[u] - sq[u])) <= keep(Abs(p[u] - q[u]))
    ensures Dist(Spread(g, sp, start, |p|), Spread(g, sq, start, |p|)) <= keep(Dist(p, q))
  {
    var gaps := Gaps(keep, p, q);
    SpreadGap(g, sp, sq, start, gaps, |p|);
    assert gaps[..|p|] == gaps;
    GapsSum(keep, p, q, gaps);
  }

  /** One round brings any two score vectors closer by the factor `alpha`. */
  lemma UpdateContracts(g: Graph, alpha: real, pers: seq<real>, p: seq<real>, q: seq<real>)
    requires g.Valid() && 0.0 <= alpha && |g.nbrs| == |p| == |q| == |pers|
    ensures Dist(Update(g, alpha, pers, p), Update(g, alpha, pers, q)) <= Damp(alpha)(Dist(p, q))
  {
    SharesClose(g, alpha, p, q);
    DampAdds(alpha);
    SpreadClose(g, Damp(alpha), Shares(g, alpha, p), Shares(g, alpha, q), Teleport(alpha, pers), p, q);
  }

  // ----- Mass -----

  ghost predicate NoLeak(g: Graph) {
    forall u :: 0 <= u < |g.nbrs| ==> g.nbrs[u] != [] && u !in g.nbrs[u]
  }

  lemma {:induction false} SpreadMass(g: Graph, shares: seq<real>, acc: seq<real>, mass: seq<real>, k: nat)
    requires g.Valid() && k <= |g.nbrs| == |shares| == |acc| == |mass|
    requires forall u :: 0 <= u < |mass| ==> Times(|g.nbrs[u]|, shares[u]) <= mass[u]
    ensures Sum(Spread(g, shares, acc, k)) <= Sum(acc) + Sum(mass[..k])
    ensures (forall u :: 0 <= u < |mass| ==> Times(|g.nbrs[u]|, shares[u]) == mass[u]) ==>
              Sum(Spread(g, shares, acc, k)) == Sum(acc) + Sum(mass[..k])
  {
    if k > 0 {
      var u := k - 1;
      SpreadMass(g, shares, acc, mass, u);
      PushSum(Spread(g, shares, acc, u), g.nbrs[u], shares[u]);
      assert mass[..k][..u] == mass[..u];
    }
  }

  lemma {:induction false} SpreadNonNegative(g: Graph, shares: seq<real>, acc: seq<real>, k: nat)
    requires g.Valid() && k <= |g.nbrs| == |shares| == |acc| && NonNegative(shares) && NonNegative(acc)
    ensures NonNegative(Spread(g, shares, acc, k))
  {
    if k > 0 {
      SpreadNonNegative(g, shares, acc, k - 1);
      PushNonNegative(Spread(g, shares, acc, k - 1), g.nbrs[k - 1], shares[k - 1]);
    }
  }

  lemma ShareMass(g: Graph, alpha: real, p: seq<real>, u: nat)
    requires u < |g.nbrs| == |p| && 0.0 <= alpha && p[u] >= 0.0
    ensures ShareOf(g, alpha, p, u) >= 0.0
    ensures Times(|g.nbrs[u]|, ShareOf(g, alpha, p, u)) <= alpha * p[u]
    ensures g.nbrs[u] != [] && u !in g.nbrs[u] ==> Times(|g.nbrs[u]|, ShareOf(g, alpha, p, u)) == alpha * p[u]
  {
    TimesIsProduct(|g.nbrs[u]|, ShareOf(g, alpha, p, u));
    Product(alpha, p[u]);
    ScaleDown(alpha * p[u], |g.nbrs[u]| as real, OutDegree(g, u) as real);
  }

  lemma MassBound(alpha: real, p: seq<real>)
    requires 0.0 <= alpha && Sum(p) <= 1.0
    ensures Sum(Scale(alpha, p)) <= alpha
    ensures Sum(p) == 1.0 ==> Sum(Scale(alpha, p)) == alpha
  {
    ScaleSum(alpha, p);
    Monotone(alpha, Sum(p), 1.0);
  }

  ghost predicate Distribution(a: seq<real>) { NonNegative(a) && Sum(a) == 1.0 }

  lemma TeleportMass(alpha: real, pers: seq<real>)
    requires 0.0 <= alpha <= 1.0 && Distribution(pers)
    ensures NonNegative(Teleport(alpha, pers)) && Sum(Teleport(alpha, pers)) == 1.0 - alpha
  {
    ScaleSum(1.0 - alpha, pers);
    assert Teleport(alpha, pers) == Scale(1.0 - alpha, pers);
    forall i | 0 <= i < |pers| ensures Teleport(alpha, pers)[i] >= 0.0 {
      Product(1.0 - alpha, pers[i]);
    }
  }

  /** A round keeps scores non-negative and their total at most 1, and exactly 1 when every
      node has a neighbour and none is its own. */
  lemma UpdateMass(g: Graph, alpha: real, pers: seq<real>, p: seq<real>)
    requires g.Valid() && 0.0 <= alpha <= 1.0 && |g.nbrs| == |p| == |pers|
    requires Distribution(pers) && NonNegative(p) && Sum(p) <= 1.0
    ensures NonNegative(Update(g, alpha, pers, p)) && Sum(Update(g, alpha, pers, p)) <= 1.0
    ensures NoLeak(g) && Sum(p) == 1.0 ==> Sum(Update(g, alpha, pers, p)) == 1.0
  {
    TeleportMass(alpha, pers);
    SharesMass(g, alpha, p);
    MassBound(alpha, p);
    SpreadTotal(g, Shares(g, alpha, p), Teleport(alpha, pers), Scale(alpha, p), alpha, NoLeak(g) && Sum(p) == 1.0);
  }

  /** The total a round produces, for any shares that hand out at most `mass`. */
  lemma SpreadTotal(g: Graph, shares: seq<real>, start: seq<real>, mass: seq<real>, bound: real, exact: bool)
    requires g.Valid() && |g.nbrs| == |shares| == |start| == |mass|
    requires NonNegative(start) && NonNegative(shares) && Sum(mass) <= bound
    requires forall u :: 0 <= u < |mass| ==> Times(|g.nbrs[u]|, shares[u]) <= mass[u]
    requires exact ==> Sum(mass) == bound && forall u :: 0 <= u < |mass| ==> Times(|g.nbrs[u]|, shares[u]) == mass[u]
    ensures var r := Spread(g, shares, start, |mass|);
            && NonNegative(r) && Sum(r) <= Sum(start) + bound
            && (exact ==> Sum(r) == Sum(start) + bound)
  {
    SpreadMass(g, shares, start, mass, |mass|);
    SpreadNonNegative(g, shares, start, |mass|);
    assert mass[..|mass|] == mass;
  }

  lemma SharesMass(g: Graph, alpha: real, p: seq<real>)
    requires |g.nbrs| == |p| && 0.0 <= alpha && NonNegative(p)
    ensures NonNegative(Shares(g, alpha, p))
    ensures forall u :: 0 <= u < |p| ==> Times(|g.nbrs[u]|, Shares(g, alpha, p)[u]) <= Scale(alpha, p)[u]
    ensures NoLeak(g) ==> forall u :: 0 <= u < |p| ==> Times(|g.nbrs[u]|, Shares(g, alpha, p)[u]) == Scale(alpha, p)[u]
  {
    forall u | 0 <= u < |p|
      ensures Shares(g, alpha, p)[u] >= 0.0
      ensures Times(|g.nbrs[u]|, Shares(g, alpha, p)[u]) <= Scale(alpha, p)[u]
      ensures NoLeak(g) ==> Times(|g.nbrs[u]|, Shares(g, alpha, p)[u]) == Scale(alpha, p)[u]
    {
      ShareMass(g, alpha, p, u);
    }
  }

  // ----- The round, node by node -----

  /** What node `v` receives from the first `k` nodes. */
  ghost function Inflow(g: Graph, shares: seq<real>, v: nat, k: nat): real
    requires k <= |g.nbrs| == |shares|
  {
    if k == 0 then 0.0
    else Inflow(g, shares, v, k - 1) + if v in g.nbrs[k - 1] then shares[k - 1] else 0.0
  }

  lemma {:induction false} PushAt(acc: seq<real>, ns: seq<nat>, c: real, v: nat)
    requires (forall k :: 0 <= k < |ns| ==> ns[k] < |acc|) && NoRepeats(ns) && v < |acc|
    ensures Push(acc, ns, c)[v] == acc[v] + if v in ns then c else 0.0
  {
    if ns != [] {
      var k := |ns| - 1;
      PushAt(acc, ns[..k], c, v);
      assert ns == ns[..k] + [ns[k]];
    }
  }

  lemma {:induction false} SpreadAt(g: Graph, shares: seq<real>, acc: seq<real>, k: nat, v: nat)
    requires g.Valid() && k <= |g.nbrs| == |shares| == |acc| && v < |acc|
    ensures Spread(g, shares, acc, k)[v] == acc[v] + Inflow(g, shares, v, k)
  {
    if k > 0 {
      SpreadAt(g, shares, acc, k - 1, v);
      PushAt(Spread(g, shares, acc, k - 1), g.nbrs[k - 1], shares[k - 1], v);
    }
  }

  lemma UpdateAt(g: Graph, alpha: real, pers: seq<real>, p: seq<real>, v: nat)
    requires g.Valid() && |g.nbrs| == |p| == |pers| && v < |p|
    ensures Update(g, alpha, pers, p)[v] == (1.0 - alpha) * pers[v] + Inflow(g, Shares(g, alpha, p), v, |p|)
  {
    SpreadAt(g, Shares(g, alpha, p), Teleport(alpha, pers), |p|, v);
  }

  /** Node `u` hands out `alpha` times its score in equal parts, one for each end of an edge
      it has; a self-loop has two ends and takes one part. */
  ghost predicate HandsOut(g: Graph, alpha: real, p: seq<real>, handed: seq<real>, u: nat)
    requires u < |g.nbrs| == |p| == |handed|
  {
    var ends := |g.nbrs[u]| + if u in g.nbrs[u] then 1 else 0;
    if ends == 0 then handed[u] == alpha * p[u] else handed[u] * ends as real == alpha * p[u]
  }

  /** The loops compute the PageRank equation: what each node keeps of the teleport and what
      its neighbours hand it. */
  lemma UpdateIsPageRank(g: Graph, alpha: real, pers: seq<real>, p: seq<real>, handed: seq<real>, v: nat)
    requires g.Valid() && |g.nbrs| == |p| == |pers| == |handed| && v < |p|
    requires forall u :: 0 <= u < |p| ==> HandsOut(g, alpha, p, handed, u)
    ensures Update(g, alpha, pers, p)[v] == (1.0 - alpha) * pers[v] + Inflow(g, handed, v, |p|)
  {
    forall u | 0 <= u < |p| ensures handed[u] == Shares(g, alpha, p)[u] {
      assert HandsOut(g, alpha, p, handed, u);
      OnlyShare(handed[u], alpha * p[u], OutDegree(g, u) as real);
    }
    assert handed == Shares(g, alpha, p);
    UpdateAt(g, alpha, pers, p, v);
  }

  lemma OnlyShare(part: real, whole: real, n: real)
    requires n >= 1.0 && part * n == whole
    ensures part == whole / n
  {
    Quotient(whole, n);
    var q := whole / n;
    Distribute(n, part, q);
    if part != q { NonZero(n, part - q); }
  }

  lemma NonZero(n: real, x: real)
    requires n > 0.0 && x != 0.0
    ensures n * x != 0.0
  {
  }

  lemma Quotient(x: real, s: real)
    requires s > 0.0
    ensures x / s * s == x
  {
  }

  // ----- The iteration -----

  function Uniform(n: nat): seq<real>
    requires n > 0
  {
    seq(n, i => 1.0 / n as real)
  }

  lemma {:induction false} SumConstant(a: seq<real>, x: real)
    requires forall i :: 0 <= i < |a| ==> a[i] == x
    ensures Sum(a) == |a| as real * x
  {
    if a != [] {
      SumConstant(a[..|a| - 1], x);
      Distribute(x, (|a| - 1) as real, 1.0);
    }
  }

  lemma UniformIsDistribution(n: nat)
    requires n > 0
    ensures Distribution(Uniform(n))
  {
    SumConstant(Uniform(n), 1.0 / n as real);
    ScaleDown(1.0, n as real, n as real);
  }

  ghost function Pow(x: real, k: nat): real { if k == 0 then 1.0 else x * Pow(x, k - 1) }

  /** `k` rounds of any rule from any start. */
  ghost function Rounds(rule: seq<real> -> seq<real>, start: seq<real>, k: nat): seq<real> {
    if k == 0 then start else rule(Rounds(rule, start, k - 1))
  }

  /** `rule` keeps the length and shrinks distances as `keep` says. */
  ghost predicate Contracting(rule: seq<real> -> seq<real>, n: nat, keep: real -> real) {
    && (forall a {:trigger rule(a)} :: |a| == n ==> |rule(a)| == n)
    && (forall a, b {:trigger Dist(rule(a), rule(b))} :: |a| == n && |b| == n && |rule(a)| == n && |rule(b)| == n ==>
          Dist(rule(a), rule(b)) <= keep(Dist(a, b)))
  }

  /** A bound on the change of round `k`: 2 at first, then `keep` of the last. */
  ghost function Bound(keep: real -> real, k: nat): real { if k == 0 then 2.0 else keep(Bound(keep, k - 1)) }

  lemma {:induction false} RoundsLength(rule: seq<real> -> seq<real>, start: seq<real>, n: nat, keep: real -> real, k: nat)
    requires Contracting(rule, n, keep) && |start| == n
    ensures |Rounds(rule, start, k)| == n
  {
    if k > 0 { RoundsLength(rule, start, n, keep, k - 1); }
  }

  /** Under a contracting rule every change is `keep` of the one before, at most. */
  lemma {:induction false} ChangesShrink(rule: seq<real> -> seq<real>, start: seq<real>, n: nat, keep: real -> real, k: nat)
    requires Contracting(rule, n, keep) && Growing(keep) && |start| == n
    requires |rule(start)| == n && Dist(rule(start), start) <= 2.0
    ensures |Rounds(rule, start, k)| == |Rounds(rule, start, k + 1)| == n
    ensures Dist(Rounds(rule, start, k + 1), Rounds(rule, start, k)) <= Bound(keep, k)
    ensures k > 0 ==> |Rounds(rule, start, k - 1)| == n &&
                      Dist(Rounds(rule, start, k + 1), Rounds(rule, start, k)) <=
                      keep(Dist(Rounds(rule, start, k), Rounds(rule, start, k - 1)))
  {
    RoundsLength(rule, start, n, keep, k);
    RoundsLength(rule, start, n, keep, k + 1);
    if k > 0 {
      ChangesShrink(rule, start, n, keep, k - 1);
      var a, b, c := Rounds(rule, start, k - 1), Rounds(rule, start, k), Rounds(rule, start, k + 1);
      assert b == rule(a) && c == rule(b);
      assert Dist(c, b) <= keep(Dist(b, a));
    }
  }

  /** At any fixed point the last change bounds the distance left to go. */
  lemma NearFixedPoint(rule: seq<real> -> seq<real>, n: nat, keep: real -> real, a: seq<real>, q: seq<real>)
    requires Contracting(rule, n, keep) && Growing(keep) && |a| == |q| == n && rule(q) == q
    ensures |rule(a)| == n
    ensures Dist(rule(a), q) <= keep(Dist(rule(a), a) + Dist(rule(a), q))
  {
    DistTriangle(a, rule(a), q);
    assert Dist(rule(a), rule(q)) <= keep(Dist(a, q));
  }

  ghost function Rule(g: Graph, alpha: real, pers: seq<real>): seq<real> -> seq<real>
    requires g.Valid() && |g.nbrs| == |pers|
  {
    p => if |p| == |pers| then Update(g, alpha, pers, p) else p
  }

  ghost function Iterate(g: Graph, alpha: real, pers: seq<real>, k: nat): (p: seq<real>)
    requires g.Valid() && |g.nbrs| == |pers| > 0
  {
    Rounds(Rule(g, alpha, pers), Uniform(|pers|), k)
  }

  lemma RuleContracts(g: Graph, alpha: real, pers: seq<real>)
    requires g.Valid() && |g.nbrs| == |pers| && 0.0 <= alpha
    ensures Contracting(Rule(g, alpha, pers), |pers|, Damp(alpha))
  {
    var rule := Rule(g, alpha, pers);
    forall a: seq<real>, b: seq<real> | |a| == |pers| && |b| == |pers|
      ensures |rule(a)| == |pers| && |rule(b)| == |pers| && Dist(rule(a), rule(b)) <= Damp(alpha)(Dist(a, b))
    {
      UpdateContracts(g, alpha, pers, a, b);
    }
  }

  lemma {:induction false} IterateMass(g: Graph, alpha: real, pers: seq<real>, k: nat)
    requires g.Valid() && |g.nbrs| == |pers| > 0 && 0.0 <= alpha <= 1.0 && Distribution(pers)
    ensures |Iterate(g, alpha, pers, k)| == |pers|
    ensures NonNegative(Iterate(g, alpha, pers, k)) && Sum(Iterate(g, alpha, pers, k)) <= 1.0
    ensures NoLeak(g) ==> Sum(Iterate(g, alpha, pers, k)) == 1.0
  {
    if k == 0 {
      UniformIsDistribution(|pers|);
    } else {
      IterateMass(g, alpha, pers, k - 1);
      UpdateMass(g, alpha, pers, Iterate(g, alpha, pers, k - 1));
    }
  }

  /** Each round of PageRank changes the scores at most `alpha` times as much as the one
      before, and so by at most `2 * alpha^k`. */
  lemma ChangeShrinks(g: Graph, alpha: real, pers: seq<real>, k: nat)
    requires g.Valid() && |g.nbrs| == |pers| > 0 && 0.0 <= alpha <= 1.0 && Distribution(pers)
    ensures |Iterate(g, alpha, pers, k)| == |Iterate(g, alpha, pers, k + 1)| == |pers|
    ensures Dist(Iterate(g, alpha, pers, k + 1), Iterate(g, alpha, pers, k)) <= 2.0 * Pow(alpha, k)
    ensures k > 0 ==> |Iterate(g, alpha, pers, k - 1)| == |pers| &&
                      Dist(Iterate(g, alpha, pers, k + 1), Iterate(g, alpha, pers, k)) <=
                      Damp(alpha)(Dist(Iterate(g, alpha, pers, k), Iterate(g, alpha, pers, k - 1)))
  {
    RuleContracts(g, alpha, pers);
    FirstChange(g, alpha, pers);
    DampGrows(alpha);
    BoundIsPower(alpha, k);
    ChangesShrink(Rule(g, alpha, pers), Uniform(|pers|), |pers|, Damp(alpha), k);
  }

  lemma {:induction false} BoundIsPower(alpha: real, k: nat)
    ensures Bound(Damp(alpha), k) == 2.0 * Pow(alpha, k)
  {
    if k > 0 {
      BoundIsPower(alpha, k - 1);
      Distribute(alpha, Pow(alpha, k - 1), Pow(alpha, k - 1));
    }
  }

  /** Scores that moved little in a round are close to any true solution of the equation. */
  lemma CloseToFixedPoint(g: Graph, alpha: real, pers: seq<real>, p: seq<real>, q: seq<real>)
    requires g.Valid() && |g.nbrs| == |pers| == |p| == |q| && 0.0 <= alpha
    requires Rule(g, alpha, pers)(q) == q
    ensures var r := Rule(g, alpha, pers)(p);
            |r| == |p| && Damp(1.0 - alpha)(Dist(r, q)) <= Damp(alpha)(Dist(r, p))
  {
    RuleContracts(g, alpha, pers);
    NearDamped(Rule(g, alpha, pers), alpha, p, q);
  }

  lemma NearDamped(rule: seq<real> -> seq<real>, alpha: real, p: seq<real>, q: seq<real>)
    requires Contracting(rule, |p|, Damp(alpha)) && |q| == |p| && 0.0 <= alpha && rule(q) == q
    ensures |rule(p)| == |p| && Damp(1.0 - alpha)(Dist(rule(p), q)) <= Damp(alpha)(Dist(rule(p), p))
  {
    DampGrows(alpha);
    NearFixedPoint(rule, |p|, Damp(alpha), p, q);
    Absorb(alpha, Dist(rule(p), p), Dist(rule(p), q));
  }

  /** Step `j` of `rounds` changes the scores by at most twice `bound(j)`, which shrinks. */
  ghost predicate Shrinking(rounds: nat -> seq<real>, bound: nat -> real, alpha: real, n: nat, j: nat) {
    && |rounds(j)| == |rounds(j + 1)| == n && Dist(rounds(j + 1), rounds(j)) <= 2.0 * bound(j)
    && bound(j + 1) == Damp(alpha)(bound(j))
  }

  lemma {:induction false} ShrinkingStayClose(rounds: nat -> seq<real>, bound: nat -> real, alpha: real, n: nat, k: nat, m: nat)
    requires 0.0 <= alpha <= 1.0 && forall j: nat :: Shrinking(rounds, bound, alpha, n, j)
    ensures |rounds(k)| == |rounds(k + m)| == n
    ensures Damp(1.0 - alpha)(Dist(rounds(k + m), rounds(k))) <= 2.0 * bound(k) - 2.0 * bound(k + m)
  {
    assert Shrinking(rounds, bound, alpha, n, k + m);
    if m == 0 {
      DistSelf(rounds(k));
    } else {
      ShrinkingStayClose(rounds, bound, alpha, n, k, m - 1);
      assert Shrinking(rounds, bound, alpha, n, k + m - 1);
      var from, before, now := rounds(k), rounds(k + m - 1), rounds(k + m);
      DistTriangle(now, before, from);
      OneMoreRound(alpha, Dist(now, from), Dist(now, before), Dist(before, from), bound(k), bound(k + m - 1));
    }
  }

  /** All rounds from `k` on stay within `2 * alpha^k / (1 - alpha)` of round `k`, whether or
      not the equation has a solution to come close to. */
  lemma RoundsStayClose(g: Graph, alpha: real, pers: seq<real>, k: nat, m: nat)
    requires g.Valid() && |g.nbrs| == |pers| > 0 && 0.0 <= alpha <= 1.0 && Distribution(pers)
    ensures |Iterate(g, alpha, pers, k)| == |Iterate(g, alpha, pers, k + m)| == |pers|
    ensures Damp(1.0 - alpha)(Dist(Iterate(g, alpha, pers, k + m), Iterate(g, alpha, pers, k))) <=
            2.0 * Pow(alpha, k) - 2.0 * Pow(alpha, k + m)
  {
    forall j: nat ensures Shrinking(AllRounds(g, alpha, pers), Powers(alpha), alpha, |pers|, j) {
      RoundShrinks(g, alpha, pers, j);
    }
    ShrinkingStayClose(AllRounds(g, alpha, pers), Powers(alpha), alpha, |pers|, k, m);
  }

  ghost function Powers(alpha: real): nat -> real { (j: nat) => Pow(alpha, j) }

  ghost function AllRounds(g: Graph, alpha: real, pers: seq<real>): nat -> seq<real>
    requires g.Valid() && |g.nbrs| == |pers| > 0
  {
    (j: nat) => Iterate(g, alpha, pers, j)
  }

  lemma RoundShrinks(g: Graph, alpha: real, pers: seq<real>, j: nat)
    requires g.Valid() && |g.nbrs| == |pers| > 0 && 0.0 <= alpha <= 1.0 && Distribution(pers)
    ensures Shrinking(AllRounds(g, alpha, pers), Powers(alpha), alpha, |pers|, j)
  {
    ChangeShrinks(g, alpha, pers, j);
    PowersShrink(alpha, j);
  }

  lemma PowersShrink(alpha: real, j: nat)
    ensures Powers(alpha)(j + 1) == Damp(alpha)(Powers(alpha)(j))
  {
  }

  lemma OneMoreRound(alpha: real, far: real, step: real, near: real, first: real, last: real)
    requires 0.0 <= alpha <= 1.0 && far <= step + near && step <= 2.0 * last
    requires Damp(1.0 - alpha)(near) <= 2.0 * first - 2.0 * last
    ensures Damp(1.0 - alpha)(far) <= 2.0 * first - 2.0 * Damp(alpha)(last)
  {
    Monotone(1.0 - alpha, far, 2.0 * last + near);
    Distribute(1.0 - alpha, 2.0 * last, near);
  }

  lemma FirstChange(g: Graph, alpha: real, pers: seq<real>)
    requires g.Valid() && |g.nbrs| == |pers| > 0 && 0.0 <= alpha <= 1.0 && Distribution(pers)
    ensures var start := Uniform(|pers|);
            |Rule(g, alpha, pers)(start)| == |pers| && Dist(Rule(g, alpha, pers)(start), start) <= 2.0
  {
    var start := Uniform(|pers|);
    UniformIsDistribution(|pers|);
    UpdateMass(g, alpha, pers, start);
    DistBySums(Update(g, alpha, pers, start), start);
  }

  lemma {:induction false} PowAdd(x: real, a: nat, b: nat)
    ensures Pow(x, a + b) == Pow(x, a) * Pow(x, b)
  {
    if a > 0 { PowAdd(x, a - 1, b); }
  }

  lemma {:induction false} PowSquare(x: real, a: nat, bound: real)
    requires 0.0 <= Pow(x, a) <= bound
    ensures 0.0 <= Pow(x, 2 * a) <= bound * bound
  {
    PowAdd(x, a, a);
    var y := Pow(x, a);
    Product(y, y);
    Product(bound - y, bound + y);
  }

  /** The default damping, tolerance and round limit are enough. */
  lemma DefaultsSuffice()
    ensures 2.0 * Pow(0.85, 99) < 0.000001
  {
    assert Pow(0.85, 3) <= 0.615 by {
      assert Pow(0.85, 2) == 0.7225;
    }
    PowSquare(0.85, 3, 0.615);
    PowSquare(0.85, 6, 0.3783);
    PowSquare(0.85, 12, 0.1432);
    PowSquare(0.85, 24, 0.0206);
    PowSquare(0.85, 48, 0.000425);
    PowAdd(0.85, 3, 96);
    var big, small := Pow(0.85, 96), Pow(0.85, 3);
    assert big <= 0.00000019;
    Product(big, 1.0 - small);
  }

  // ----- The code -----

  function Scaled(a: seq<real>, s: real): seq<real>
    requires s != 0.0
  {
    seq(|a|, i requires 0 <= i < |a| => a[i] / s)
  }

  lemma DivideAdd(x: real, y: real, s: real)
    requires s > 0.0
    ensures x / s + y / s == (x + y) / s
  {
    var a, b := x / s, y / s;
    assert a * s == x && b * s == y;
    assert (a + b) * s == x + y;
  }

  lemma DivideSign(x: real, s: real)
    requires s > 0.0 && x >= 0.0
    ensures x / s >= 0.0
  {
  }

  lemma {:induction false} ScaledSum(a: seq<real>, s: real)
    requires s > 0.0
    ensures Sum(Scaled(a, s)) == Sum(a) / s
  {
    if a != [] {
      var n := |a| - 1;
      var b := Scaled(a, s);
      ScaledSum(a[..n], s);
      assert b[..n] == Scaled(a[..n], s) && b[n] == a[n] / s;
      assert Sum(b) == Sum(b[..n]) + b[n];
      DivideAdd(Sum(a[..n]), a[n], s);
    }
  }

  lemma ScaledSign(a: seq<real>, s: real)
    requires s > 0.0 && NonNegative(a)
    ensures NonNegative(Scaled(a, s))
  {
    forall i | 0 <= i < |a| ensures Scaled(a, s)[i] >= 0.0 { DivideSign(a[i], s); }
  }

  /** The teleport distribution: the given weights normalised, or uniform when they are nil. */
  function Personalised(weights: seq<real>): (pers: seq<real>)
    requires |weights| > 0
    ensures |pers| == |weights|
  {
    if Sum(weights) <= 0.0 then Uniform(|weights|) else Scaled(weights, Sum(weights))
  }

  lemma PersonalisedIsDistribution(weights: seq<real>)
    requires |weights| > 0 && NonNegative(weights)
    ensures Distribution(Personalised(weights))
  {
    if Sum(weights) <= 0.0 {
      UniformIsDistribution(|weights|);
    } else {
      ScaledSum(weights, Sum(weights));
      ScaledSign(weights, Sum(weights));
      ScaleDown(Sum(weights), 0.0, 1.0);
    }
  }

  lemma ScaledAt(a: seq<real>, s: real, i: nat)
    requires s > 0.0 && i < |a|
    ensures Scaled(a, s)[i] * s == a[i]
  {
    Quotient(a[i], s);
  }

  /** The teleport goes where the weights are, in their proportions. */
  lemma PersonalisedFollowsWeights(weights: seq<real>, i: nat)
    requires i < |weights| && Sum(weights) > 0.0
    ensures Personalised(weights)[i] * Sum(weights) == weights[i]
  {
    ScaledAt(weights, Sum(weights), i);
  }

  /** Without any weights it is even. */
  lemma PersonalisedIsEven(weights: seq<real>, i: nat)
    requires i < |weights| && Sum(weights) <= 0.0
    ensures Personalised(weights)[i] * |weights| as real == 1.0
  {
    UniformAt(|weights|, i);
  }

  lemma UniformAt(n: nat, i: nat)
    requires i < n
    ensures Uniform(n)[i] * n as real == 1.0
  {
    Quotient(1.0, n as real);
  }

  /** The iteration starts even and applies the update once a round. */
  lemma IterateUnfolds(g: Graph, alpha: real, pers: seq<real>, k: nat, i: nat)
    requires g.Valid() && |g.nbrs| == |pers| > 0 && 0.0 <= alpha <= 1.0 && Distribution(pers) && i < |pers|
    ensures |Iterate(g, alpha, pers, 0)| == |pers| && Iterate(g, alpha, pers, 0)[i] * |pers| as real == 1.0
    ensures |Iterate(g, alpha, pers, k)| == |pers|
    ensures Iterate(g, alpha, pers, k + 1) == Update(g, alpha, pers, Iterate(g, alpha, pers, k))
  {
    IterateMass(g, alpha, pers, k);
    UniformAt(|pers|, i);
  }

  method OneRound(g: Graph, alpha: real, pers: seq<real>, p: seq<real>) returns (newP: seq<real>)
    requires g.Valid() && |g.nbrs| == |p| == |pers|
    ensures newP == Update(g, alpha, pers, p)
  {
    newP := Teleport(alpha, pers);
    for node := 0 to |p|
      invariant newP == Spread(g, Shares(g, alpha, p), Teleport(alpha, pers), node)
    {
      ghost var before := newP;
      var ns := g.nbrs[node];
      for k := 0 to |ns|
        invariant newP == Push(before, ns[..k], Shares(g, alpha, p)[node])
      {
        assert ns[..k + 1][..k] == ns[..k];
        newP := newP[ns[k] := newP[ns[k]] + ShareOf(g, alpha, p, node)];
      }
      assert ns[..|ns|] == ns;
    }
  }

  ghost function LastChange(g: Graph, alpha: real, pers: seq<real>, rounds: nat): real
    requires g.Valid() && |g.nbrs| == |pers| > 0 && rounds > 0
  {
    var a, b := Iterate(g, alpha, pers, rounds - 1), Iterate(g, alpha, pers, rounds);
    if |a| == |b| then Dist(b, a) else 0.0
  }

  /** No round up to `n` changed less than the tolerance. */
  ghost predicate Unsettled(g: Graph, alpha: real, pers: seq<real>, tol: real, n: int)
    requires g.Valid() && |g.nbrs| == |pers| > 0
  {
    forall k: nat :: 0 < k <= n ==> LastChange(g, alpha, pers, k) >= tol
  }

  /** `_personalized_pagerank`; `settled` says the loop left through `err < tol`. */
  method PersonalizedPagerank(g: Graph, weights: seq<real>, alpha: real, maxIter: nat, tol: real)
    returns (p: seq<real>, settled: bool, rounds: nat)
    requires g.Valid() && |g.nbrs| == |weights| && NonNegative(weights)
    requires 0.0 <= alpha <= 1.0
    ensures |p| == |weights| && rounds <= maxIter
    ensures |p| > 0 ==> p == Iterate(g, alpha, Personalised(weights), rounds)
    ensures NonNegative(p) && Sum(p) <= 1.0
    ensures |p| > 0 && NoLeak(g) ==> Sum(p) == 1.0
    ensures |p| > 0 ==> if settled then rounds > 0 && LastChange(g, alpha, Personalised(weights), rounds) < tol
                        else rounds == maxIter
    ensures |p| > 0 ==> Unsettled(g, alpha, Personalised(weights), tol, if settled then rounds - 1 else rounds)
    ensures |p| > 0 && maxIter > 0 && 2.0 * Pow(alpha, maxIter - 1) < tol ==> settled
  {
    settled, rounds := false, 0;
    var n := |weights|;
    if n == 0 { return [], true, 0; }
    var pers := Personalised(weights);
    PersonalisedIsDistribution(weights);
    p := Uniform(n);
    IterateMass(g, alpha, pers, 0);
    while rounds < maxIter
      invariant rounds <= maxIter && |p| == n
      invariant p == Iterate(g, alpha, pers, rounds)
      invariant NonNegative(p) && Sum(p) <= 1.0 && (NoLeak(g) ==> Sum(p) == 1.0)
      invariant Unsettled(g, alpha, pers, tol, rounds)
      invariant rounds == maxIter > 0 ==> 2.0 * Pow(alpha, maxIter - 1) >= tol
    {
      var newP := OneRound(g, alpha, pers, p);
      var err := Dist(newP, p);
      StepFacts(g, alpha, pers, rounds, p, newP);
      p := newP;
      rounds := rounds + 1;
      if err < tol { settled := true; return; }
    }
  }

  lemma StepFacts(g: Graph, alpha: real, pers: seq<real>, k: nat, p: seq<real>, newP: seq<real>)
    requires g.Valid() && |g.nbrs| == |pers| == |p| > 0 && 0.0 <= alpha <= 1.0 && Distribution(pers)
    requires p == Iterate(g, alpha, pers, k) && newP == Update(g, alpha, pers, p)
    ensures newP == Iterate(g, alpha, pers, k + 1) && |newP| == |p|
    ensures Dist(newP, p) == LastChange(g, alpha, pers, k + 1) && Dist(newP, p) <= 2.0 * Pow(alpha, k)
    ensures NonNegative(newP) && Sum(newP) <= 1.0 && (NoLeak(g) ==> Sum(newP) == 1.0)
  {
    ChangeShrinks(g, alpha, pers, k);
    IterateMass(g, alpha, pers, k + 1);
  }

  /** With the defaults the loop always settles. */
  method SettlesByDefault(g: Graph, weights: seq<real>) returns (p: seq<real>, rounds: nat)
    requires g.Valid() && |g.nbrs| == |weights| > 0 && NonNegative(weights)
    ensures 0 < rounds <= 100 && p == Iterate(g, 0.85, Personalised(weights), rounds)
    ensures LastChange(g, 0.85, Personalised(weights), rounds) < 0.000001
  {
    DefaultsSuffice();
    var settled;
    p, settled, rounds := PersonalizedPagerank(g, weights, 0.85, 100, 0.000001);
  }
}
