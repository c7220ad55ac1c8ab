/** Co-occurrence edges: the inverted-index loops build the all-pairs graph. */
module CoOccurrence {
  import opened Basics
  import opened FiniteSets

  /** An undirected edge is the set of its two ends. */
  type Weights<N> = map<set<N>, nat>

  function WeightOf<N>(w: Weights<N>, e: set<N>): nat { if e in w then w[e] else 0 }

  /** The definition: two distinct indicators are joined when they share a batch, with the
      number of shared batches as weight. */
  ghost predicate AllPairs<N(!new)>(nodes: seq<N>, batches: map<N, set<int>>, w: Weights<N>)
    requires forall n :: n in nodes ==> n in batches
  {
    && (forall u, v :: u in nodes && v in nodes && u != v ==>
          && ({u, v} in w <==> batches[u] * batches[v] != {})
          && WeightOf(w, {u, v}) == |batches[u] * batches[v]|)
    && (forall e :: e in w ==> Joins(nodes, e))
  }

  ghost predicate Joins<N(!new)>(nodes: seq<N>, e: set<N>) {
    exists u, v :: u in nodes && v in nodes && u != v && e == {u, v}
  }

  /** The definition determines the graph, so no iteration order can show in it. */
  lemma AllPairsIsUnique<N(!new)>(a: seq<N>, b: seq<N>, batches: map<N, set<int>>, wa: Weights<N>, wb: Weights<N>)
    requires forall n :: n in a <==> n in b
    requires forall n :: n in a ==> n in batches
    requires AllPairs(a, batches, wa) && AllPairs(b, batches, wb)
    ensures wa == wb
  {
    forall e | e in wa ensures e in wb && wa[e] == wb[e] {
      var u, v :| u in a && v in a && u != v && e == {u, v};
      assert WeightOf(wa, {u, v}) == WeightOf(wb, {u, v});
    }
    forall e | e in wb ensures e in wa {
      var u, v :| u in b && v in b && u != v && e == {u, v};
      assert {u, v} in wa;
    }
  }

  // ----- The inverted index -----

  /** `index[b]` lists the nodes seen in batch `b`, once each. */
  ghost predicate Inverts<N(!new)>(nodes: seq<N>, batches: map<N, set<int>>, index: map<int, seq<N>>)
    requires forall n :: n in nodes ==> n in batches
  {
    && (forall b :: b in index ==> NoRepeats(index[b]))
    && (forall b, n :: b in index && n in index[b] ==> n in nodes && b in batches[n])
    && (forall b, n :: n in nodes && b in batches[n] ==> b in index && n in index[b])
  }

  method Invert<N(==, !new)>(nodes: seq<N>, batches: map<N, set<int>>) returns (index: map<int, seq<N>>)
    requires NoRepeats(nodes) && forall n :: n in nodes ==> n in batches
    ensures Inverts(nodes, batches, index)
  {
    index := map[];
    for i := 0 to |nodes|
      invariant Inverts(nodes[..i], batches, index)
    {
      var node := nodes[i];
      var todo := batches[node];
      while todo != {}
        invariant todo <= batches[node]
        invariant forall b :: b in index ==> NoRepeats(index[b])
        invariant forall b, n :: b in index && n in index[b] ==>
                    (n in nodes[..i] && b in batches[n]) || (n == node && b in batches[node] - todo)
        invariant forall b, n :: n in nodes[..i] && b in batches[n] ==> b in index && n in index[b]
        invariant forall b :: b in batches[node] - todo ==> b in index && node in index[b]
        decreases |todo|
      {
        var b := PickOne(todo);
        if b in index {
          index := index[b := index[b] + [node]];
        } else {
          index := index[b := [node]];
        }
        todo := todo - {b};
      }
      assert nodes[..i + 1] == nodes[..i] + [node];
    }
    assert nodes[..|nodes|] == nodes;
  }

  // ----- One batch -----

  /** The pairs the double loop has met when it stands at `(i, j)`. */
  ghost function Pairs<N(!new)>(iocs: seq<N>, i: nat, j: nat): set<set<N>> {
    set a, b | 0 <= a < b < |iocs| && (a < i || (a == i && b < j)) :: {iocs[a], iocs[b]}
  }

  /** `r` is `w` with one more on exactly these edges. */
  ghost predicate Bumped<N(!new)>(w: Weights<N>, r: Weights<N>, pairs: set<set<N>>) {
    forall e :: (e in r <==> e in w || e in pairs) && WeightOf(r, e) == WeightOf(w, e) + if e in pairs then 1 else 0
  }

  lemma BumpOne<N(!new)>(w: Weights<N>, r: Weights<N>, pairs: set<set<N>>, e: set<N>)
    requires Bumped(w, r, pairs) && e !in pairs
    ensures Bumped(w, r[e := WeightOf(r, e) + 1], pairs + {e})
  {
  }

  lemma SamePair<N>(iocs: seq<N>, a: nat, b: nat, c: nat, d: nat)
    requires NoRepeats(iocs) && a < b < |iocs| && c < d < |iocs| && {iocs[a], iocs[b]} == {iocs[c], iocs[d]}
    ensures a == c && b == d
  {
    assert iocs[a] in {iocs[c], iocs[d]} && iocs[b] in {iocs[c], iocs[d]};
    assert iocs[c] in {iocs[a], iocs[b]} && iocs[d] in {iocs[a], iocs[b]};
  }

  lemma NextPair<N(!new)>(iocs: seq<N>, i: nat, j: nat)
    requires NoRepeats(iocs) && i < j < |iocs|
    ensures {iocs[i], iocs[j]} !in Pairs(iocs, i, j)
    ensures Pairs(iocs, i, j + 1) == Pairs(iocs, i, j) + {{iocs[i], iocs[j]}}
  {
    forall a: nat, b: nat | a < b < |iocs| && {iocs[a], iocs[b]} == {iocs[i], iocs[j]} ensures a == i && b == j {
      SamePair(iocs, a, b, i, j);
    }
  }

  lemma RowEnds<N(!new)>(iocs: seq<N>, i: nat)
    requires i < |iocs|
    ensures Pairs(iocs, i, 0) == Pairs(iocs, i, i + 1)
    ensures Pairs(iocs, i, |iocs|) == Pairs(iocs, i + 1, 0)
  {
  }

  /** Connect each pair of the batch once. */
  method AddBatch<N(==, !new)>(iocs: seq<N>, w: Weights<N>) returns (r: Weights<N>)
    requires NoRepeats(iocs)
    ensures Bumped(w, r, Pairs(iocs, |iocs|, 0))
  {
    r := w;
    if |iocs| < 2 { return; }
    for i := 0 to |iocs|
      invariant Bumped(w, r, Pairs(iocs, i, 0))
    {
      RowEnds(iocs, i);
      for j := i + 1 to |iocs|
        invariant Bumped(w, r, Pairs(iocs, i, j))
      {
        NextPair(iocs, i, j);
        BumpOne(w, r, Pairs(iocs, i, j), {iocs[i], iocs[j]});
        r := Increment(r, {iocs[i], iocs[j]});
      }
    }
  }

  method Increment<N(==)>(w: Weights<N>, e: set<N>) returns (r: Weights<N>)
    ensures r == w[e := WeightOf(w, e) + 1]
  {
    if e in w {
      r := w[e := w[e] + 1];
    } else {
      r := w[e := 1];
    }
  }

  // ----- All batches -----

  ghost predicate CountedOver<N(!new)>(nodes: seq<N>, batches: map<N, set<int>>, done: set<int>, w: Weights<N>)
    requires forall n :: n in nodes ==> n in batches
  {
    && (forall u, v :: u in nodes && v in nodes && u != v ==>
          && ({u, v} in w <==> batches[u] * batches[v] * done != {})
          && WeightOf(w, {u, v}) == |batches[u] * batches[v] * done|)
    && (forall e :: e in w ==> Joins(nodes, e))
  }

  lemma BatchPairs<N(!new)>(nodes: seq<N>, batches: map<N, set<int>>, index: map<int, seq<N>>, b: int, u: N, v: N)
    requires forall n :: n in nodes ==> n in batches
    requires Inverts(nodes, batches, index) && b in index
    requires u in nodes && v in nodes && u != v
    ensures {u, v} in Pairs(index[b], |index[b]|, 0) <==> b in batches[u] && b in batches[v]
  {
    var iocs := index[b];
    if {u, v} in Pairs(iocs, |iocs|, 0) {
      var i, j :| 0 <= i < j < |iocs| && {u, v} == {iocs[i], iocs[j]};
      assert u in {iocs[i], iocs[j]} && v in {iocs[i], iocs[j]};
    }
    if b in batches[u] && b in batches[v] {
      assert u in iocs && v in iocs;
      var i :| 0 <= i < |iocs| && iocs[i] == u;
      var j :| 0 <= j < |iocs| && iocs[j] == v;
      if i < j { assert {u, v} == {iocs[i], iocs[j]}; } else { assert {u, v} == {iocs[j], iocs[i]}; }
    }
  }

  lemma OneMoreBatch(common: set<int>, done: set<int>, b: int)
    requires b !in done
    ensures |common * (done + {b})| == |common * done| + if b in common then 1 else 0
    ensures common * (done + {b}) != {} <==> common * done != {} || b in common
  {
    assert common * (done + {b}) == common * done + if b in common then {b} else {};
  }

  lemma PairsJoin<N(!new)>(nodes: seq<N>, batches: map<N, set<int>>, index: map<int, seq<N>>, b: int, e: set<N>)
    requires forall n :: n in nodes ==> n in batches
    requires Inverts(nodes, batches, index) && b in index && e in Pairs(index[b], |index[b]|, 0)
    ensures Joins(nodes, e)
  {
    var iocs := index[b];
    var i, j :| 0 <= i < j < |iocs| && e == {iocs[i], iocs[j]};
    assert iocs[i] in iocs && iocs[j] in iocs;
  }

  lemma CountedStep<N(!new)>(nodes: seq<N>, batches: map<N, set<int>>, index: map<int, seq<N>>, done: set<int>, b: int,
                             w: Weights<N>, r: Weights<N>)
    requires forall n :: n in nodes ==> n in batches
    requires Inverts(nodes, batches, index) && b in index && b !in done
    requires CountedOver(nodes, batches, done, w)
    requires Bumped(w, r, Pairs(index[b], |index[b]|, 0))
    ensures CountedOver(nodes, batches, done + {b}, r)
  {
    forall u, v | u in nodes && v in nodes && u != v
      ensures {u, v} in r <==> batches[u] * batches[v] * (done + {b}) != {}
      ensures WeightOf(r, {u, v}) == |batches[u] * batches[v] * (done + {b})|
    {
      BatchPairs(nodes, batches, index, b, u, v);
      OneMoreBatch(batches[u] * batches[v], done, b);
    }
    forall e | e in r ensures Joins(nodes, e) {
      if e !in w { PairsJoin(nodes, batches, index, b, e); }
    }
  }

  lemma IndexCovers<N(!new)>(nodes: seq<N>, batches: map<N, set<int>>, index: map<int, seq<N>>)
    requires forall n :: n in nodes ==> n in batches
    requires Inverts(nodes, batches, index)
    ensures forall n :: n in nodes ==> batches[n] <= index.Keys
  {
    forall n, b | n in nodes && b in batches[n] ensures b in index.Keys {
      assert b in index && n in index[b];
    }
  }

  lemma CountedAll<N(!new)>(nodes: seq<N>, batches: map<N, set<int>>, all: set<int>, w: Weights<N>)
    requires forall n :: n in nodes ==> n in batches && batches[n] <= all
    requires CountedOver(nodes, batches, all, w)
    ensures AllPairs(nodes, batches, w)
  {
    forall u, v | u in nodes && v in nodes && u != v
      ensures {u, v} in w <==> batches[u] * batches[v] != {}
      ensures WeightOf(w, {u, v}) == |batches[u] * batches[v]|
    {
      Within(batches[u] * batches[v], all);
    }
  }

  lemma Within(a: set<int>, b: set<int>)
    requires a <= b
    ensures a * b == a
  {
  }

  /** The co-occurrence part of `build_attack_graph`, batches in any order. */
  method BuildEdges<N(==, !new)>(nodes: seq<N>, batches: map<N, set<int>>) returns (w: Weights<N>)
    requires NoRepeats(nodes) && forall n :: n in nodes ==> n in batches
    ensures AllPairs(nodes, batches, w)
  {
    var index := Invert(nodes, batches);
    w := map[];
    var todo := index.Keys;
    ghost var done: set<int> := {};
    while todo != {}
      invariant done !! todo && done + todo == index.Keys
      invariant CountedOver(nodes, batches, done, w)
      decreases |todo|
    {
      var b := PickOne(todo);
      ghost var before := w;
      w := AddBatch(index[b], w);
      CountedStep(nodes, batches, index, done, b, before, w);
      todo, done := todo - {b}, done + {b};
    }
    IndexCovers(nodes, batches, index);
    CountedAll(nodes, batches, index.Keys, w);
  }
}
