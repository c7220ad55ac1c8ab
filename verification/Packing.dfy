/** The greedy packer's decisions, which depend on the units' lengths alone. */
module Packing {

  /** What one emitted chunk is made of: units `lo` to `hi` joined, or windows of unit `k`. */
  datatype Piece = Joined(lo: nat, hi: nat) | Long(k: nat)

  /** `buf_len`: the lengths of units `lo` to `hi`, each with its separator. */
  function Room(lens: seq<nat>, lo: nat, hi: nat): nat
    requires lo <= hi <= |lens|
    decreases hi
  {
    if lo == hi then 0 else Room(lens, lo, hi - 1) + lens[hi - 1] + 1
  }

  lemma {:induction false} RoomAdds(lens: seq<nat>, lo: nat, mid: nat, hi: nat)
    requires lo <= mid <= hi <= |lens|
    ensures Room(lens, lo, hi) == Room(lens, lo, mid) + Room(lens, mid, hi)
    decreases hi
  {
    if mid < hi { RoomAdds(lens, lo, mid, hi - 1); }
  }

  /** The loop over `reversed(buf)`: where the carried units start. */
  function CarryStart(lens: seq<nat>, lo: nat, j: nat, used: nat, overlap: nat): (start: nat)
    requires lo <= j <= |lens|
    ensures lo <= start <= j
    decreases j
  {
    if j == lo || used + lens[j - 1] + 1 > overlap then j
    else CarryStart(lens, lo, j - 1, used + lens[j - 1] + 1, overlap)
  }

  /** Unit `i` does not fit behind the buffered ones. */
  predicate Full(lens: seq<nat>, size: nat, lo: nat, i: nat)
    requires lo <= i < |lens|
  {
    lo < i && Room(lens, lo, i) + lens[i] + 1 > size
  }

  /** The chunks still to come when `lo` to `i` are buffered and `i` is next. */
  ghost function Plan(lens: seq<nat>, size: nat, overlap: nat, lo: nat, i: nat): seq<Piece>
    requires lo <= i <= |lens|
    decreases |lens| - i
  {
    var flush := if lo < i then [Joined(lo, i)] else [];
    if i == |lens| then flush
    else if lens[i] >= size then flush + [Long(i)] + Plan(lens, size, overlap, i + 1, i + 1)
    else if Full(lens, size, lo, i) then
      flush + Plan(lens, size, overlap, CarryStart(lens, lo, i, 0, overlap), i + 1)
    else Plan(lens, size, overlap, lo, i + 1)
  }

  /** One pass of the loop moves the head of the plan to what has been emitted. */
  lemma PlanStep(lens: seq<nat>, size: nat, overlap: nat, lo: nat, i: nat, emitted: seq<Piece>)
    requires lo <= i < |lens|
    ensures var flushed := if lo < i then emitted + [Joined(lo, i)] else emitted;
            emitted + Plan(lens, size, overlap, lo, i) ==
            if lens[i] >= size then flushed + [Long(i)] + Plan(lens, size, overlap, i + 1, i + 1)
            else if Full(lens, size, lo, i) then flushed + Plan(lens, size, overlap, CarryStart(lens, lo, i, 0, overlap), i + 1)
            else emitted + Plan(lens, size, overlap, lo, i + 1)
  {
  }

  /** The carried units are the longest tail that fits the overlap. */
  lemma {:induction false} CarryIsLongestTail(lens: seq<nat>, lo: nat, j: nat, hi: nat, overlap: nat)
    requires lo <= j <= hi <= |lens| && Room(lens, j, hi) <= overlap
    ensures var start := CarryStart(lens, lo, j, Room(lens, j, hi), overlap);
            && Room(lens, start, hi) <= overlap
            && (start > lo ==> Room(lens, start - 1, hi) > overlap)
    decreases j
  {
    if j > lo {
      RoomAdds(lens, j - 1, j, hi);
      assert Room(lens, j - 1, j) == lens[j - 1] + 1;
      if Room(lens, j - 1, hi) <= overlap { CarryIsLongestTail(lens, lo, j - 1, hi, overlap); }
    }
  }

  // ----- Coverage -----

  function First(p: Piece): nat { match p case Joined(lo, _) => lo case Long(k) => k }
  function End(p: Piece): nat { match p case Joined(_, hi) => hi case Long(k) => k + 1 }

  /** Each piece starts no later than the last one ended and reaches at least one unit
      further, until `n` is reached: every unit is there, in order. */
  ghost predicate Covers(plan: seq<Piece>, from: nat, n: nat) {
    if plan == [] then from == n
    else First(plan[0]) <= from < End(plan[0]) <= n && Covers(plan[1..], End(plan[0]), n)
  }

  /** With nothing carried the pieces share no unit. */
  ghost predicate Partitions(plan: seq<Piece>, from: nat, n: nat) {
    if plan == [] then from == n
    else First(plan[0]) == from < End(plan[0]) <= n && Partitions(plan[1..], End(plan[0]), n)
  }

  /** `carried` units at the front of the buffer have been emitted before. */
  lemma {:induction false} PlanCovers(lens: seq<nat>, size: nat, overlap: nat, lo: nat, i: nat, carried: nat)
    requires lo <= carried <= i <= |lens| && (carried == i ==> lo == i)
    ensures Covers(Plan(lens, size, overlap, lo, i), carried, |lens|)
    decreases |lens| - i
  {
    var plan := Plan(lens, size, overlap, lo, i);
    if i == |lens| {
    } else if lens[i] >= size {
      PlanCovers(lens, size, overlap, i + 1, i + 1, i + 1);
      var rest := Plan(lens, size, overlap, i + 1, i + 1);
      assert ([Long(i)] + rest)[1..] == rest;
      if lo < i { assert plan[1..] == [Long(i)] + rest; } else { assert plan == [Long(i)] + rest; }
    } else if Full(lens, size, lo, i) {
      var start := CarryStart(lens, lo, i, 0, overlap);
      PlanCovers(lens, size, overlap, start, i + 1, i);
      assert plan[1..] == Plan(lens, size, overlap, start, i + 1);
    } else {
      PlanCovers(lens, size, overlap, lo, i + 1, carried);
    }
  }

  lemma {:induction false} PlanPartitions(lens: seq<nat>, size: nat, lo: nat, i: nat)
    requires lo <= i <= |lens|
    ensures Partitions(Plan(lens, size, 0, lo, i), lo, |lens|)
    decreases |lens| - i
  {
    var plan := Plan(lens, size, 0, lo, i);
    if i == |lens| {
    } else if lens[i] >= size {
      PlanPartitions(lens, size, i + 1, i + 1);
      var rest := Plan(lens, size, 0, i + 1, i + 1);
      assert ([Long(i)] + rest)[1..] == rest;
      if lo < i { assert plan[1..] == [Long(i)] + rest; } else { assert plan == [Long(i)] + rest; }
    } else if Full(lens, size, lo, i) {
      PlanPartitions(lens, size, i, i + 1);
      assert plan[1..] == Plan(lens, size, 0, i, i + 1);
    } else {
      PlanPartitions(lens, size, lo, i + 1);
    }
  }

  // ----- Greed -----

  /** Units `lo` to `hi` after one piece from `since` to `from`: what is taken over from it is
      its longest tail within the overlap; every unit after the first new one was added because
      it fitted, and the next is left out because it is too long or does not fit. */
  ghost predicate Greedily(lens: seq<nat>, size: nat, overlap: nat, since: nat, from: nat, lo: nat, hi: nat) {
    && since <= lo <= from < hi <= |lens|
    && Room(lens, lo, from) <= overlap && (lo > since ==> Room(lens, lo - 1, from) > overlap)
    && (forall m :: from <= m < hi ==> lens[m] < size)
    && (forall end :: from + 1 < end <= hi ==> Room(lens, lo, end) <= size)
    && (hi < |lens| ==> lens[hi] >= size || Room(lens, lo, hi + 1) > size)
  }

  ghost predicate Greedy(lens: seq<nat>, size: nat, overlap: nat, plan: seq<Piece>, since: nat, from: nat) {
    if plan == [] then from == |lens|
    else match plan[0]
      case Long(k) => k == from < |lens| && lens[k] >= size && Greedy(lens, size, overlap, plan[1..], k + 1, k + 1)
      case Joined(lo, hi) => Greedily(lens, size, overlap, since, from, lo, hi) && Greedy(lens, size, overlap, plan[1..], lo, hi)
  }

  lemma LongNext(lens: seq<nat>, size: nat, overlap: nat, rest: seq<Piece>, since: nat, i: nat)
    requires i < |lens| && lens[i] >= size && Greedy(lens, size, overlap, rest, i + 1, i + 1)
    ensures Greedy(lens, size, overlap, [Long(i)] + rest, since, i)
  {
    assert ([Long(i)] + rest)[1..] == rest;
  }

  lemma JoinedNext(lens: seq<nat>, size: nat, overlap: nat, rest: seq<Piece>, since: nat, from: nat, lo: nat, hi: nat)
    requires Greedily(lens, size, overlap, since, from, lo, hi) && Greedy(lens, size, overlap, rest, lo, hi)
    ensures Greedy(lens, size, overlap, [Joined(lo, hi)] + rest, since, from)
  {
    assert ([Joined(lo, hi)] + rest)[1..] == rest;
  }

  /** What holds of the buffer `lo` to `i` when units up to `from` have been emitted. */
  ghost predicate Buffered(lens: seq<nat>, size: nat, overlap: nat, since: nat, from: nat, lo: nat, i: nat) {
    && since <= lo <= from <= i <= |lens| && (from == i ==> lo == i)
    && Room(lens, lo, from) <= overlap && (lo > since ==> Room(lens, lo - 1, from) > overlap)
    && (forall m :: from <= m < i ==> lens[m] < size)
    && (forall end :: from + 1 < end <= i ==> Room(lens, lo, end) <= size)
  }

  lemma FlushedFull(lens: seq<nat>, size: nat, overlap: nat, since: nat, from: nat, lo: nat, i: nat)
    requires Buffered(lens, size, overlap, since, from, lo, i) && i < |lens| && lens[i] < size && Full(lens, size, lo, i)
    ensures Greedily(lens, size, overlap, since, from, lo, i)
    ensures Buffered(lens, size, overlap, lo, i, CarryStart(lens, lo, i, 0, overlap), i + 1)
  {
    assert Room(lens, i, i) == 0;
    CarryIsLongestTail(lens, lo, i, i, overlap);
  }

  lemma OneMoreFits(lens: seq<nat>, size: nat, overlap: nat, since: nat, from: nat, lo: nat, i: nat)
    requires Buffered(lens, size, overlap, since, from, lo, i) && i < |lens| && lens[i] < size && !Full(lens, size, lo, i)
    ensures Buffered(lens, size, overlap, since, from, lo, i + 1)
  {
  }

  lemma FlushedLong(lens: seq<nat>, size: nat, overlap: nat, since: nat, from: nat, lo: nat, i: nat, rest: seq<Piece>)
    requires Buffered(lens, size, overlap, since, from, lo, i) && i < |lens| && lens[i] >= size
    requires Greedy(lens, size, overlap, rest, i + 1, i + 1)
    ensures Greedy(lens, size, overlap, (if lo < i then [Joined(lo, i)] else []) + [Long(i)] + rest, since, from)
  {
    if lo < i {
      LongNext(lens, size, overlap, rest, lo, i);
      JoinedNext(lens, size, overlap, [Long(i)] + rest, since, from, lo, i);
      assert [Joined(lo, i)] + [Long(i)] + rest == [Joined(lo, i)] + ([Long(i)] + rest);
    } else {
      LongNext(lens, size, overlap, rest, since, i);
      assert [] + [Long(i)] + rest == [Long(i)] + rest;
    }
  }

  lemma BufferedAfresh(lens: seq<nat>, size: nat, overlap: nat, i: nat)
    requires i <= |lens|
    ensures Buffered(lens, size, overlap, i, i, i, i)
  {
    assert Room(lens, i, i) == 0;
  }

  /** The plan is greedy. */
  lemma {:induction false} PlanIsGreedy(lens: seq<nat>, size: nat, overlap: nat, since: nat, from: nat, lo: nat, i: nat)
    requires Buffered(lens, size, overlap, since, from, lo, i)
    ensures Greedy(lens, size, overlap, Plan(lens, size, overlap, lo, i), since, from)
    decreases |lens| - i
  {
    if i == |lens| {
      if lo < i { JoinedNext(lens, size, overlap, [], since, from, lo, i); }
    } else if lens[i] >= size {
      BufferedAfresh(lens, size, overlap, i + 1);
      PlanIsGreedy(lens, size, overlap, i + 1, i + 1, i + 1, i + 1);
      FlushedLong(lens, size, overlap, since, from, lo, i, Plan(lens, size, overlap, i + 1, i + 1));
    } else if Full(lens, size, lo, i) {
      var start := CarryStart(lens, lo, i, 0, overlap);
      FlushedFull(lens, size, overlap, since, from, lo, i);
      PlanIsGreedy(lens, size, overlap, lo, i, start, i + 1);
      JoinedNext(lens, size, overlap, Plan(lens, size, overlap, start, i + 1), since, from, lo, i);
    } else {
      OneMoreFits(lens, size, overlap, since, from, lo, i);
      PlanIsGreedy(lens, size, overlap, since, from, lo, i + 1);
    }
  }

  lemma SameTail(lens: seq<nat>, overlap: nat, since: nat, from: nat, lo: nat, other: nat)
    requires since <= lo <= from <= |lens| && since <= other <= from
    requires Room(lens, lo, from) <= overlap && (lo > since ==> Room(lens, lo - 1, from) > overlap)
    requires Room(lens, other, from) <= overlap && (other > since ==> Room(lens, other - 1, from) > overlap)
    ensures lo == other
  {
    if lo < other { RoomAdds(lens, lo, other - 1, from); }
    if other < lo { RoomAdds(lens, other, lo - 1, from); }
  }

  lemma SamePiece(lens: seq<nat>, size: nat, overlap: nat, since: nat, from: nat, a: Piece, b: Piece)
    requires a.Joined? && b.Joined? && Greedily(lens, size, overlap, since, from, a.lo, a.hi)
    requires Greedily(lens, size, overlap, since, from, b.lo, b.hi)
    ensures a == b
  {
    SameTail(lens, overlap, since, from, a.lo, b.lo);
  }

  /** And no other list of pieces is. */
  lemma {:induction false} GreedyIsUnique(lens: seq<nat>, size: nat, overlap: nat, a: seq<Piece>, b: seq<Piece>, since: nat, from: nat)
    requires Greedy(lens, size, overlap, a, since, from) && Greedy(lens, size, overlap, b, since, from)
    ensures a == b
  {
    if a != [] && b != [] {
      if a[0].Joined? && b[0].Joined? { SamePiece(lens, size, overlap, since, from, a[0], b[0]); }
      assert a[0] == b[0];
      match a[0]
      case Long(k) => GreedyIsUnique(lens, size, overlap, a[1..], b[1..], k + 1, k + 1);
      case Joined(lo, hi) => GreedyIsUnique(lens, size, overlap, a[1..], b[1..], lo, hi);
      assert a == [a[0]] + a[1..] && b == [b[0]] + b[1..];
    }
  }

  /** The packer's plan is the one greedy list of pieces from the first unit to the last. */
  lemma PlanExactly(lens: seq<nat>, size: nat, overlap: nat, plan: seq<Piece>)
    ensures plan == Plan(lens, size, overlap, 0, 0) <==> Greedy(lens, size, overlap, plan, 0, 0)
  {
    BufferedAfresh(lens, size, overlap, 0);
    PlanIsGreedy(lens, size, overlap, 0, 0, 0, 0);
    if Greedy(lens, size, overlap, plan, 0, 0) { GreedyIsUnique(lens, size, overlap, plan, Plan(lens, size, overlap, 0, 0), 0, 0); }
  }

  // ----- Length -----

  /** A joined chunk is one separator shorter than its units' room. */
  ghost predicate Fits(plan: seq<Piece>, lens: seq<nat>, room: nat) {
    forall k :: 0 <= k < |plan| && plan[k].Joined? ==>
      plan[k].lo < plan[k].hi <= |lens| && Room(lens, plan[k].lo, plan[k].hi) <= room
  }

  ghost predicate NoEmptyUnit(lens: seq<nat>) { forall i :: 0 <= i < |lens| ==> lens[i] > 0 }

  /** How much the carried units can push a chunk past the size: nothing unless the overlap
      has room for one character and its separator. */
  function Excess(overlap: nat): nat { if overlap <= 1 then 0 else overlap }

  lemma CarryWithinExcess(lens: seq<nat>, lo: nat, i: nat, overlap: nat)
    requires lo <= i <= |lens| && NoEmptyUnit(lens)
    ensures Room(lens, CarryStart(lens, lo, i, 0, overlap), i) <= Excess(overlap)
  {
    assert Room(lens, i, i) == 0;
    CarryIsLongestTail(lens, lo, i, i, overlap);
  }

  lemma {:induction false} PlanFits(lens: seq<nat>, size: nat, overlap: nat, lo: nat, i: nat)
    requires lo <= i <= |lens| && NoEmptyUnit(lens)
    requires Room(lens, lo, i) <= size + Excess(overlap)
    ensures Fits(Plan(lens, size, overlap, lo, i), lens, size + Excess(overlap))
    decreases |lens| - i
  {
    if i < |lens| {
      if lens[i] >= size {
        PlanFits(lens, size, overlap, i + 1, i + 1);
      } else if Full(lens, size, lo, i) {
        CarryWithinExcess(lens, lo, i, overlap);
        PlanFits(lens, size, overlap, CarryStart(lens, lo, i, 0, overlap), i + 1);
      } else {
        PlanFits(lens, size, overlap, lo, i + 1);
      }
    }
  }

  /** Two units that overflow: the first is carried whole and the second just fits alone. */
  lemma OverflowPlan(size: nat, overlap: nat)
    requires 2 <= overlap && 2 * overlap <= size
    ensures var lens := [overlap - 1, size - 1];
            Plan(lens, size, overlap, 0, 0) == [Joined(0, 1), Joined(0, 2)] && Room(lens, 0, 2) == size + overlap
  {
    var lens: seq<nat> := [overlap - 1, size - 1];
    assert Room(lens, 0, 1) == overlap && Room(lens, 0, 0) == 0;
    assert Room(lens, 0, 2) == size + overlap;
    assert CarryStart(lens, 0, 0, overlap, overlap) == 0;
    assert CarryStart(lens, 0, 1, 0, overlap) == 0;
    assert Plan(lens, size, overlap, 0, 2) == [Joined(0, 2)];
    assert Plan(lens, size, overlap, 0, 1) == [Joined(0, 1)] + Plan(lens, size, overlap, 0, 2);
    assert Plan(lens, size, overlap, 0, 0) == Plan(lens, size, overlap, 0, 1);
  }
}
