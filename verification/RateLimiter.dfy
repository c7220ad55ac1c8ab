/** The per-key sliding-window limiter, against its whole accepted history. */
module RateLimiter {
  import opened FiniteSets

  /** Times of the accepted calls of one key, oldest first. */
  type History = seq<real>

  ghost predicate Sorted(h: History) { forall i, j :: 0 <= i < j < |h| ==> h[i] <= h[j] }

  /** The indices of the calls in `(now - window, now]`. */
  ghost function Recent(h: History, window: real, now: real): set<nat> {
    set i: nat | i < |h| && now - window < h[i] <= now
  }

  /** Any `limit + 1` accepted calls span at least the window. */
  ghost predicate Spaced(h: History, limit: nat, window: real) {
    forall i, j :: 0 <= i && i + limit == j < |h| ==> h[j] - h[i] >= window
  }

  ghost function Range(lo: nat, hi: nat): (r: set<nat>)
    requires lo <= hi
    ensures forall i :: i in r <==> lo <= i < hi
    ensures |r| == hi - lo
    decreases hi - lo
  {
    if lo == hi then {} else Range(lo, hi - 1) + {hi - 1}
  }

  lemma SpacedFar(h: History, limit: nat, window: real, i: nat, j: nat)
    requires Sorted(h) && Spaced(h, limit, window) && i + limit <= j < |h|
    ensures h[j] - h[i] >= window
  {
    var k := i + limit;
    assert h[k] - h[i] >= window;
    assert k < j ==> h[k] <= h[j];
  }

  /** No window, wherever it ends, holds more than `limit` accepted calls. */
  lemma WindowHoldsAtMostLimit(h: History, limit: nat, window: real, now: real)
    requires Sorted(h) && Spaced(h, limit, window) && limit > 0
    ensures |Recent(h, window, now)| <= limit
  {
    var r := Recent(h, window, now);
    if exists i: nat :: i in r {
      var first := FirstRecent(h, window, now, 0);
      forall j | j in r ensures first <= j < first + limit {
        if j >= first + limit { SpacedFar(h, limit, window, first, j); }
      }
      SubsetSize(r, Range(first, first + limit));
    } else {
      assert r == {};
    }
  }

  lemma {:induction false} FirstRecent(h: History, window: real, now: real, lo: nat) returns (first: nat)
    requires exists i: nat :: i in Recent(h, window, now) && lo <= i
    ensures lo <= first && first in Recent(h, window, now)
    ensures forall i :: i in Recent(h, window, now) && lo <= i ==> first <= i
    decreases |h| - lo
  {
    first := lo;
    if lo !in Recent(h, window, now) {
      first := FirstRecent(h, window, now, lo + 1);
    }
  }

  /** In a sorted history the recent calls are the ones a pruned deque still holds. */
  lemma RecentIsTail(h: History, window: real, now: real, cut: nat)
    requires cut <= |h| && Sorted(h)
    requires forall i :: 0 <= i < |h| ==> h[i] <= now
    requires forall i :: 0 <= i < cut ==> now - h[i] >= window
    requires cut < |h| ==> now - h[cut] < window
    ensures |Recent(h, window, now)| == |h| - cut
  {
    forall i | cut < i < |h| ensures now - h[i] < window {}
    assert Recent(h, window, now) == Range(cut, |h|);
  }

  /** An accepted call keeps every window within the limit. */
  lemma AcceptKeepsSpacing(h: History, limit: nat, window: real, now: real)
    requires Sorted(h) && Spaced(h, limit, window) && limit > 0
    requires forall i :: 0 <= i < |h| ==> h[i] <= now
    requires |Recent(h, window, now)| < limit
    ensures Sorted(h + [now]) && Spaced(h + [now], limit, window)
  {
    var h' := h + [now];
    forall i, j | 0 <= i && i + limit == j < |h'| ensures h'[j] - h'[i] >= window {
      if j == |h| && now - h[i] < window {
        forall k: nat | i <= k < |h| ensures k in Recent(h, window, now) {}
        SubsetSize(Range(i, |h|), Recent(h, window, now));
      }
    }
  }

  // ----- What the deque of one key is -----

  /** The deque is the history without some calls that have left the window. */
  ghost predicate Tracks(h: History, kept: seq<real>, limit: nat, window: real, clock: real) {
    && Sorted(h) && Spaced(h, limit, window)
    && (forall i :: 0 <= i < |h| ==> h[i] <= clock)
    && |kept| <= |h| && kept == h[|h| - |kept|..]
    && (forall i :: 0 <= i < |h| - |kept| ==> clock - h[i] >= window)
  }

  lemma TracksLater(h: History, kept: seq<real>, limit: nat, window: real, clock: real, now: real)
    requires Tracks(h, kept, limit, window, clock) && clock <= now
    ensures Tracks(h, kept, limit, window, now)
  {
  }

  lemma TracksPopped(h: History, kept: seq<real>, limit: nat, window: real, now: real)
    requires Tracks(h, kept, limit, window, now) && kept != [] && now - kept[0] >= window
    ensures Tracks(h, kept[1..], limit, window, now)
  {
    assert kept[0] == h[|h| - |kept|];
  }

  lemma TracksSwept(h: History, kept: seq<real>, limit: nat, window: real, now: real)
    requires Tracks(h, kept, limit, window, now) && (kept == [] || now - kept[|kept| - 1] >= window)
    ensures Tracks(h, [], limit, window, now)
  {
    if kept != [] {
      assert kept[|kept| - 1] == h[|h| - 1];
      forall i | 0 <= i < |h| ensures now - h[i] >= window {
        assert i < |h| - 1 ==> h[i] <= h[|h| - 1];
      }
    }
  }

  lemma TracksAccepted(h: History, kept: seq<real>, limit: nat, window: real, now: real)
    requires Tracks(h, kept, limit, window, now) && (kept != [] ==> now - kept[0] < window)
    requires |kept| < limit
    ensures Tracks(h + [now], kept + [now], limit, window, now)
  {
    RecentIsTail(h, window, now, |h| - |kept|);
    AcceptKeepsSpacing(h, limit, window, now);
  }

  function Of(m: map<string, seq<real>>, key: string): seq<real> { if key in m then m[key] else [] }

  predicate Stale(kept: seq<real>, window: real, now: real) { kept == [] || now - kept[|kept| - 1] >= window }

  /** The newest call is still in the window. */
  ghost predicate Live(kept: seq<real>, window: real, now: real) { kept != [] && now - kept[|kept| - 1] < window }

  /** No deque outgrows the limit. */
  ghost predicate Small(hits: map<string, seq<real>>, limit: nat) { forall key :: key in hits ==> |hits[key]| <= limit }

  const MAX_KEYS: nat := 10_000

  /** Few keys, or only keys whose newest accepted call is still in the window. */
  ghost predicate Swept(hits: map<string, seq<real>>, window: real, now: real) {
    |hits| <= 10_000 || forall key :: key in hits ==> Live(hits[key], window, now)
  }

  ghost predicate KeyTracks(accepted: map<string, History>, hits: map<string, seq<real>>, key: string, limit: nat, window: real, clock: real) {
    Tracks(Of(accepted, key), Of(hits, key), limit, window, clock)
  }

  /** Every deque, stored or swept, is its key's history without calls that left the window. */
  ghost predicate AllTrack(accepted: map<string, History>, hits: map<string, seq<real>>, limit: nat, window: real, clock: real) {
    forall key :: KeyTracks(accepted, hits, key, limit, window, clock)
  }

  lemma AllLater(accepted: map<string, History>, hits: map<string, seq<real>>, limit: nat, window: real, clock: real, now: real)
    requires AllTrack(accepted, hits, limit, window, clock) && clock <= now
    ensures AllTrack(accepted, hits, limit, window, now)
  {
    forall key ensures KeyTracks(accepted, hits, key, limit, window, now) {
      assert KeyTracks(accepted, hits, key, limit, window, clock);
      TracksLater(Of(accepted, key), Of(hits, key), limit, window, clock, now);
    }
  }

  lemma AllStored(accepted: map<string, History>, hits: map<string, seq<real>>, limit: nat, window: real, clock: real,
                  accepted': map<string, History>, key: string, dq: seq<real>)
    requires AllTrack(accepted, hits, limit, window, clock)
    requires forall k :: k != key ==> Of(accepted', k) == Of(accepted, k)
    requires Tracks(Of(accepted', key), dq, limit, window, clock)
    ensures AllTrack(accepted', hits[key := dq], limit, window, clock)
  {
    var stored := hits[key := dq];
    forall k ensures KeyTracks(accepted', stored, k, limit, window, clock) {
      if k != key { assert KeyTracks(accepted, hits, k, limit, window, clock); }
    }
  }

  function Unswept(hits: map<string, seq<real>>, window: real, now: real): map<string, seq<real>> {
    map k | k in hits && !Stale(hits[k], window, now) :: hits[k]
  }

  lemma AllSwept(accepted: map<string, History>, hits: map<string, seq<real>>, limit: nat, window: real, now: real)
    requires AllTrack(accepted, hits, limit, window, now)
    ensures AllTrack(accepted, Unswept(hits, window, now), limit, window, now)
  {
    var after := Unswept(hits, window, now);
    forall k ensures KeyTracks(accepted, after, k, limit, window, now) {
      assert KeyTracks(accepted, hits, k, limit, window, now);
      if k in hits && Stale(hits[k], window, now) { TracksSwept(Of(accepted, k), Of(hits, k), limit, window, now); }
    }
  }

  class SlidingWindowRateLimiter {
    const limit: nat
    const window: real
    var hits: map<string, seq<real>>
    ghost var accepted: map<string, History>
    ghost var clock: real

    ghost predicate Valid()
      reads this
    {
      AllTrack(accepted, hits, limit, window, clock) && Small(hits, limit)
    }

    constructor (limit: int, window: real, now: real)
      ensures this.limit == (if limit > 0 then limit else 0) && this.window == window && clock == now
      ensures Valid() && accepted == map[]
    {
      this.limit := if limit > 0 then limit else 0;
      this.window := window;
      hits := map[];
      accepted := map[];
      clock := now;
    }

    /** `allow`. With a limit, the answer depends only on the whole accepted history of the
        key; pruning and sweeping never show. Memory stays bounded: no deque outgrows the limit,
        and past `MAX_KEYS` only keys with an accepted call in the window are kept. */
    method Allow(key: string, now: real) returns (ok: bool)
      requires Valid() && clock <= now
      modifies this
      ensures Valid() && clock == now
      ensures Small(hits, limit) && (limit > 0 && ok ==> Swept(hits, window, now))
      ensures limit == 0 ==> ok && hits == old(hits) && accepted == old(accepted)
      ensures limit > 0 ==> (ok <==> |Recent(Of(old(accepted), key), window, now)| < limit)
      ensures limit > 0 ==> accepted == if ok then old(accepted)[key := Of(old(accepted), key) + [now]] else old(accepted)
    {
      AllLater(accepted, hits, limit, window, clock, now);
      clock := now;
      if limit <= 0 { return true; }
      ghost var h := Of(accepted, key);
      assert KeyTracks(accepted, hits, key, limit, window, now);
      var dq := Prune(Of(hits, key), now, h);
      RecentIsTail(h, window, now, |h| - |dq|);
      ok := |dq| < limit;
      if ok {
        Accept(key, now, dq, h);
      } else {
        AllStored(accepted, hits, limit, window, now, accepted, key, dq);
        hits := hits[key := dq];
      }
    }

    /** Note one accepted call, and sweep when there are too many keys. */
    method Accept(key: string, now: real, dq: seq<real>, ghost h: History)
      requires Valid() && clock == now && h == Of(accepted, key)
      requires Tracks(h, dq, limit, window, now) && (dq != [] ==> now - dq[0] < window) && |dq| < limit
      modifies this`hits, this`accepted
      ensures Valid() && Swept(hits, window, now)
      ensures accepted == old(accepted)[key := h + [now]]
    {
      TracksAccepted(h, dq, limit, window, now);
      AllStored(accepted, hits, limit, window, now, accepted[key := h + [now]], key, dq + [now]);
      hits, accepted := hits[key := dq + [now]], accepted[key := h + [now]];
      if |hits| > MAX_KEYS { Sweep(now); }
    }

    /** Drop the calls that have left the window. */
    method Prune(kept: seq<real>, now: real, ghost h: History) returns (dq: seq<real>)
      requires Tracks(h, kept, limit, window, now)
      ensures Tracks(h, dq, limit, window, now) && (dq != [] ==> now - dq[0] < window)
      ensures |dq| <= |kept|
    {
      dq := kept;
      while dq != [] && now - dq[0] >= window
        invariant Tracks(h, dq, limit, window, now) && |dq| <= |kept|
        decreases |dq|
      {
        TracksPopped(h, dq, limit, window, now);
        dq := dq[1..];
      }
    }

    /** Forget every key whose newest call has left the window. */
    method Sweep(now: real)
      requires Valid() && clock == now
      modifies this`hits
      ensures Valid() && Swept(hits, window, now) && hits == Unswept(old(hits), window, now)
      ensures forall key :: key in hits <==> key in old(hits) && Live(old(hits)[key], window, now)
      ensures forall key :: key in hits ==> hits[key] == old(hits)[key]
    {
      AllSwept(accepted, hits, limit, window, now);
      hits := Unswept(hits, window, now);
    }
  }
}
