/** The forecaster's capped corpus: an append that ignores duplicates and a replace that
    does not, each followed by trimming to the newest rows. */
module ForecastStore {
  import opened FiniteSets

  /** One observation; all three columns are the primary key. */
  datatype Observation = Observation(entity: string, tactic: string, at: real)

  /** `store_max or 200000`, at least one. */
  function Cap(storeMax: int): (cap: nat)
    ensures (storeMax >= 1 ==> cap == storeMax) && (storeMax == 0 ==> cap == 200000) && (storeMax < 0 ==> cap == 1)
  {
    if storeMax == 0 then 200000 else if storeMax < 1 then 1 else storeMax
  }

  function Stamp(): Observation -> real { (o: Observation) => o.at }
  function Itself(): real -> real { (ts: real) => ts }

  /** `kept` is what ORDER BY stamp DESC LIMIT -1 OFFSET `cap` may leave of `rows`. SQLite
      promises nothing about rows with equal stamps, so several outcomes can be allowed. */
  ghost predicate Newest<T(!new)>(at: T -> real, rows: set<T>, cap: nat, kept: set<T>) {
    && kept <= rows
    && |kept| == (if |rows| <= cap then |rows| else cap)
    && forall k, d :: k in kept && d in rows - kept ==> at(k) >= at(d)
  }

  lemma NothingDropped<T(!new)>(at: T -> real, rows: set<T>, cap: nat, kept: set<T>)
    requires Newest(at, rows, cap, kept) && |rows| <= cap
    ensures kept == rows
  {
    SubsetSize(kept, rows);
  }

  lemma NothingOutside<T>(a: set<T>, b: set<T>)
    requires a - b == {}
    ensures a <= b
  {
    forall x | x in a ensures x in b { assert x in b || x in a - b; }
  }

  lemma Missing<T>(a: set<T>, b: set<T>, y: T) returns (x: T)
    requires |a| >= |b| && y in b && y !in a
    ensures x in a && x !in b
  {
    if a - b == {} {
      NothingOutside(a, b);
      SubsetSize(a, b);
    }
    x := Pick(a - b);
  }

  /** Trimming has one outcome exactly when no row it keeps ties with a row it drops. */
  lemma TrimDeterminedExactly<T(!new)>(at: T -> real, rows: set<T>, cap: nat, kept: set<T>)
    requires Newest(at, rows, cap, kept)
    ensures (forall other :: Newest(at, rows, cap, other) ==> other == kept) <==>
            (forall k, d :: k in kept && d in rows - kept ==> at(k) > at(d))
  {
    if forall k, d :: k in kept && d in rows - kept ==> at(k) > at(d) {
      forall other | Newest(at, rows, cap, other) ensures other == kept { StrictTrim(at, rows, cap, kept, other); }
    } else {
      var k, d :| k in kept && d in rows - kept && at(k) <= at(d);
      var other := kept - {k} + {d};
      assert Newest(at, rows, cap, other);
      assert k !in other;
    }
  }

  lemma KeptIsNewer<T(!new)>(at: T -> real, rows: set<T>, cap: nat, kept: set<T>, k: T, d: T)
    requires Newest(at, rows, cap, kept) && k in kept && d in rows && d !in kept
    ensures at(k) >= at(d)
  {
    assert d in rows - kept;
  }

  lemma StrictTrim<T(!new)>(at: T -> real, rows: set<T>, cap: nat, kept: set<T>, other: set<T>)
    requires Newest(at, rows, cap, kept) && Newest(at, rows, cap, other)
    requires forall k, d :: k in kept && d in rows && d !in kept ==> at(k) > at(d)
    ensures other == kept
  {
    if y :| y in other && y !in kept {
      var x := Missing(kept, other, y);
      KeptIsNewer(at, rows, cap, other, y, x);
    }
    SubsetSize(other, kept);
  }

  /** Trimming along the way loses nothing: two batches leave what one batch of both may
      leave, under a cap that has not grown, ties or not. */
  lemma TrimOfTrim<T(!new)>(at: T -> real, rows: set<T>, first: nat, kept: set<T>, more: set<T>, cap: nat, last: set<T>)
    requires cap <= first
    requires Newest(at, rows, first, kept) && Newest(at, kept + more, cap, last)
    ensures Newest(at, rows + more, cap, last)
  {
    SubsetSize(kept + more, rows + more);
    if |rows| <= first {
      NothingDropped(at, rows, first, kept);
    } else {
      SubsetSize(kept, kept + more);
      forall k, d | k in last && d in rows + more - last ensures at(k) >= at(d) {
        if d in rows - kept - more && k !in kept {
          var x := Missing(kept, last, k);
        }
      }
    }
  }

  ghost predicate DistinctStamps<T(!new)>(at: T -> real, rows: set<T>) {
    forall a, b :: a in rows && b in rows && at(a) == at(b) ==> a == b
  }

  /** With distinct stamps the order of two batches does not matter. */
  lemma BatchesCommute<T(!new)>(at: T -> real, rows: set<T>, a: set<T>, b: set<T>, cap: nat,
                                ra: set<T>, rab: set<T>, rb: set<T>, rba: set<T>)
    requires DistinctStamps(at, rows + a + b)
    requires Newest(at, rows + a, cap, ra) && Newest(at, ra + b, cap, rab)
    requires Newest(at, rows + b, cap, rb) && Newest(at, rb + a, cap, rba)
    ensures rab == rba && Newest(at, rows + a + b, cap, rab)
  {
    TrimOfTrim(at, rows + a, cap, ra, b, cap, rab);
    TrimOfTrim(at, rows + b, cap, rb, a, cap, rba);
    assert rows + b + a == rows + a + b;
    TrimDeterminedExactly(at, rows + a + b, cap, rab);
  }

  /** Appending rows that were appended before, even ones trimmed since, is certain to
      change nothing exactly when none of them ties with a stored row it is not. */
  lemma ReappendExactly<T(!new)>(at: T -> real, rows: set<T>, cap: nat, kept: set<T>, again: set<T>)
    requires Newest(at, rows, cap, kept) && again <= rows
    ensures (forall after :: Newest(at, kept + again, cap, after) ==> after == kept) <==>
            (forall k, d :: k in kept && d in again - kept ==> at(k) > at(d))
  {
    if |rows| <= cap {
      NothingDropped(at, rows, cap, kept);
      assert kept + again == kept;
    } else {
      SubsetSize(kept, kept + again);
    }
    assert Newest(at, kept + again, cap, kept);
    TrimDeterminedExactly(at, kept + again, cap, kept);
    assert kept + again - kept == again - kept;
  }

  // ----- Which rows a trim keeps -----

  /** The other rows that are at least as new as this one. */
  ghost function AsNew<T(!new)>(at: T -> real, rows: set<T>, x: T): set<T> { set y | y in rows && y != x && at(y) >= at(x) }

  /** The rows that are newer than this one. */
  ghost function Newer<T(!new)>(at: T -> real, rows: set<T>, x: T): set<T> { set y | y in rows && at(y) > at(x) }

  lemma {:induction false} OldestRow<T(!new)>(at: T -> real, rows: set<T>) returns (x: T)
    requires rows != {}
    ensures x in rows && forall y :: y in rows ==> at(x) <= at(y)
    decreases |rows|
  {
    x := Pick(rows);
    var rest := rows - {x};
    assert rows == rest + {x};
    if rest != {} {
      var y := OldestRow(at, rest);
      if at(y) < at(x) { x := y; }
    }
  }

  /** Some outcome of the trim. */
  lemma {:induction false} SomeTrim<T(!new)>(at: T -> real, rows: set<T>, cap: nat) returns (kept: set<T>)
    ensures Newest(at, rows, cap, kept)
    decreases |rows|
  {
    kept := rows;
    if |rows| > cap {
      var x := OldestRow(at, rows);
      kept := SomeTrim(at, rows - {x}, cap);
    }
  }

  /** With fewer than `cap` rows as new, a row stays. */
  lemma NewRowStays<T(!new)>(at: T -> real, rows: set<T>, cap: nat, kept: set<T>, x: T)
    requires Newest(at, rows, cap, kept) && x in rows && |AsNew(at, rows, x)| < cap
    ensures x in kept
  {
    if x !in kept {
      forall k | k in kept ensures k in AsNew(at, rows, x) { KeptIsNewer(at, rows, cap, kept, k, x); }
      SubsetSize(kept, AsNew(at, rows, x));
      NothingDropped(at, rows, cap, kept);
    }
  }

  /** With `cap` newer rows, a row goes. */
  lemma OldRowGoes<T(!new)>(at: T -> real, rows: set<T>, cap: nat, kept: set<T>, x: T)
    requires Newest(at, rows, cap, kept) && |Newer(at, rows, x)| >= cap
    ensures x !in kept
  {
    if x in kept {
      forall y | y in Newer(at, rows, x) ensures y in kept {
        if y !in kept { KeptIsNewer(at, rows, cap, kept, x, y); }
      }
      SubsetSize(Newer(at, rows, x) + {x}, kept);
    }
  }

  /** With `cap` rows as new, some outcome drops the row. */
  lemma SomeTrimDrops<T(!new)>(at: T -> real, rows: set<T>, cap: nat, x: T) returns (kept: set<T>)
    requires x in rows && |AsNew(at, rows, x)| >= cap
    ensures Newest(at, rows, cap, kept) && x !in kept
  {
    var rest := rows - {x};
    kept := SomeTrim(at, rest, cap);
    SubsetSize(AsNew(at, rows, x), rest);
    forall k | k in kept ensures at(k) >= at(x) {
      if at(k) < at(x) {
        forall y | y in AsNew(at, rows, x) ensures y in kept - {k} {
          if y !in kept { KeptIsNewer(at, rest, cap, kept, k, y); }
        }
        SubsetSize(AsNew(at, rows, x), kept - {k});
      }
    }
  }

  /** With fewer than `cap` newer rows, some outcome keeps the row. */
  lemma SomeTrimKeeps<T(!new)>(at: T -> real, rows: set<T>, cap: nat, x: T) returns (kept: set<T>)
    requires x in rows && |Newer(at, rows, x)| < cap
    ensures Newest(at, rows, cap, kept) && x in kept
  {
    var rest := rows - {x};
    var others := SomeTrim(at, rest, cap - 1);
    kept := others + {x};
    if |rest| <= cap - 1 { NothingDropped(at, rest, cap - 1, others); }
    forall d | d in rows - kept ensures at(x) >= at(d) {
      if at(x) < at(d) {
        forall k | k in others ensures k in Newer(at, rows, x) - {d} { KeptIsNewer(at, rest, cap - 1, others, k, d); }
        SubsetSize(others, Newer(at, rows, x) - {d});
      }
    }
  }

  /** A row is certain to stay exactly when fewer than `cap` others are as new. */
  lemma StaysExactly<T(!new)>(at: T -> real, rows: set<T>, cap: nat, x: T)
    requires x in rows
    ensures (forall kept :: Newest(at, rows, cap, kept) ==> x in kept) <==> |AsNew(at, rows, x)| < cap
  {
    if |AsNew(at, rows, x)| < cap {
      forall kept | Newest(at, rows, cap, kept) ensures x in kept { NewRowStays(at, rows, cap, kept, x); }
    } else {
      var kept := SomeTrimDrops(at, rows, cap, x);
    }
  }

  /** A row is certain to go exactly when `cap` others are newer. */
  lemma GoesExactly<T(!new)>(at: T -> real, rows: set<T>, cap: nat, x: T)
    requires x in rows
    ensures (forall kept :: Newest(at, rows, cap, kept) ==> x !in kept) <==> |Newer(at, rows, x)| >= cap
  {
    if |Newer(at, rows, x)| >= cap {
      forall kept | Newest(at, rows, cap, kept) ensures x !in kept { OldRowGoes(at, rows, cap, kept, x); }
    } else {
      var kept := SomeTrimKeeps(at, rows, cap, x);
    }
  }

  /** Trimming has one outcome exactly when every row is certain to stay or certain to go. */
  lemma OneOutcomeExactly<T(!new)>(at: T -> real, rows: set<T>, cap: nat)
    ensures (forall a, b :: Newest(at, rows, cap, a) && Newest(at, rows, cap, b) ==> a == b) <==>
            (forall x :: x in rows ==> |AsNew(at, rows, x)| < cap || |Newer(at, rows, x)| >= cap)
  {
    if forall x :: x in rows ==> |AsNew(at, rows, x)| < cap || |Newer(at, rows, x)| >= cap {
      forall a, b | Newest(at, rows, cap, a) && Newest(at, rows, cap, b) ensures a == b { SameRowsKept(at, rows, cap, a, b); }
    } else {
      var x :| x in rows && |AsNew(at, rows, x)| >= cap && |Newer(at, rows, x)| < cap;
      var a := SomeTrimDrops(at, rows, cap, x);
      var b := SomeTrimKeeps(at, rows, cap, x);
    }
  }

  lemma SameRowsKept<T(!new)>(at: T -> real, rows: set<T>, cap: nat, a: set<T>, b: set<T>)
    requires Newest(at, rows, cap, a) && Newest(at, rows, cap, b)
    requires forall x :: x in rows ==> |AsNew(at, rows, x)| < cap || |Newer(at, rows, x)| >= cap
    ensures a == b
  {
    forall x | x in rows ensures x in a <==> x in b {
      if |AsNew(at, rows, x)| < cap {
        NewRowStays(at, rows, cap, a, x);
        NewRowStays(at, rows, cap, b, x);
      } else {
        OldRowGoes(at, rows, cap, a, x);
        OldRowGoes(at, rows, cap, b, x);
      }
    }
  }

  // ----- The number an append reports -----

  /** The batch rows that were not stored are as many as the rows the table gains exactly
      when the trim lets every one of them stay. */
  lemma CountedAsNew<T(!new)>(at: T -> real, stored: set<T>, batch: set<T>, cap: nat, after: set<T>)
    requires Newest(at, stored + batch, cap, after)
    ensures |batch - stored| >= |after - stored|
    ensures |batch - stored| == |after - stored| <==> batch - stored <= after
  {
    assert after - stored <= batch - stored;
    SubsetSize(after - stored, batch - stored);
    if batch - stored <= after { assert batch - stored == after - stored; }
    if after - stored == batch - stored {
      forall x | x in batch - stored ensures x in after { assert x in after - stored; }
    }
  }

  /** Every row the batch adds has fewer than `cap` rows as new in the table and the batch. */
  ghost predicate RoomForBatch<T(!new)>(at: T -> real, stored: set<T>, batch: set<T>, cap: nat) {
    forall x :: x in batch - stored ==> |AsNew(at, stored + batch, x)| < cap
  }

  /** The rows the batch adds, with the rows newer than one of them, are more than `cap`. */
  ghost predicate CrowdedOut<T(!new)>(at: T -> real, stored: set<T>, batch: set<T>, cap: nat) {
    exists x :: x in batch - stored && |Newer(at, stored + batch, x) + (batch - stored)| > cap
  }

  /** An append is certain to report the rows the table gains exactly when, before it, every
      row of the batch that is not stored has fewer than `cap` rows as new. */
  lemma ReportsGainExactly<T(!new)>(at: T -> real, stored: set<T>, batch: set<T>, cap: nat)
    ensures (forall after :: Newest(at, stored + batch, cap, after) ==> |batch - stored| == |after - stored|) <==>
            RoomForBatch(at, stored, batch, cap)
  {
    var rows := stored + batch;
    if RoomForBatch(at, stored, batch, cap) {
      forall after | Newest(at, rows, cap, after) ensures |batch - stored| == |after - stored| {
        RoomMeansGain(at, stored, batch, cap, after);
      }
    } else {
      var x :| x in batch - stored && |AsNew(at, rows, x)| >= cap;
      var after := SomeTrimDrops(at, rows, cap, x);
      CountedAsNew(at, stored, batch, cap, after);
    }
  }

  lemma RoomMeansGain<T(!new)>(at: T -> real, stored: set<T>, batch: set<T>, cap: nat, after: set<T>)
    requires Newest(at, stored + batch, cap, after) && RoomForBatch(at, stored, batch, cap)
    ensures batch - stored <= after && |batch - stored| == |after - stored|
  {
    forall x | x in batch - stored ensures x in after { NewRowStays(at, stored + batch, cap, after, x); }
    CountedAsNew(at, stored, batch, cap, after);
  }

  lemma CrowdDropsOne<T(!new)>(at: T -> real, stored: set<T>, batch: set<T>, cap: nat, after: set<T>)
    requires Newest(at, stored + batch, cap, after) && CrowdedOut(at, stored, batch, cap)
    ensures |batch - stored| > |after - stored|
  {
    var rows, added := stored + batch, batch - stored;
    var x :| x in added && |Newer(at, rows, x) + added| > cap;
    if added <= after {
      forall y | y in Newer(at, rows, x) ensures y in after {
        if y !in after { KeptIsNewer(at, rows, cap, after, x, y); }
      }
      SubsetSize(Newer(at, rows, x) + added, after);
    }
    CountedAsNew(at, stored, batch, cap, after);
  }

  /** Rows that are not crowded out can all stay. */
  lemma SomeTrimKeepsAll<T(!new)>(at: T -> real, rows: set<T>, added: set<T>, cap: nat) returns (kept: set<T>)
    requires added <= rows && forall x :: x in added ==> |Newer(at, rows, x) + added| <= cap
    ensures Newest(at, rows, cap, kept) && added <= kept
  {
    if added == {} {
      kept := SomeTrim(at, rows, cap);
    } else {
      var x := OldestRow(at, added);
      kept := SomeTrimFrom(at, rows, cap, Newer(at, rows, x) + added, at(x));
    }
  }

  lemma SomeTrimFrom<T(!new)>(at: T -> real, rows: set<T>, cap: nat, top: set<T>, least: real) returns (kept: set<T>)
    requires top <= rows && |top| <= cap
    requires (forall k :: k in top ==> at(k) >= least) && (forall d :: d in rows - top ==> at(d) <= least)
    ensures Newest(at, rows, cap, kept) && top <= kept
  {
    var others := SomeTrim(at, rows - top, cap - |top|);
    kept := top + others;
    assert |rows| == |top| + |rows - top| by { assert rows == top + (rows - top); }
    forall k, d | k in kept && d in rows - kept ensures at(k) >= at(d) {
      if k !in top { KeptIsNewer(at, rows - top, cap - |top|, others, k, d); }
    }
  }

  /** It is certain to report too many exactly when, before it, the rows of the batch that
      are not stored are crowded out. */
  lemma ReportsTooManyExactly<T(!new)>(at: T -> real, stored: set<T>, batch: set<T>, cap: nat)
    ensures (forall after :: Newest(at, stored + batch, cap, after) ==> |batch - stored| > |after - stored|) <==>
            CrowdedOut(at, stored, batch, cap)
  {
    var rows := stored + batch;
    if CrowdedOut(at, stored, batch, cap) {
      forall after | Newest(at, rows, cap, after) ensures |batch - stored| > |after - stored| {
        CrowdDropsOne(at, stored, batch, cap, after);
      }
    } else {
      var after := SomeTrimKeepsAll(at, rows, batch - stored, cap);
      CountedAsNew(at, stored, batch, cap, after);
    }
  }

  /** Appending again rows that a trim dropped counts every one of them as new and, when none
      ties with a stored row, changes nothing. */
  lemma ReappendReports<T(!new)>(at: T -> real, rows: set<T>, cap: nat, kept: set<T>, again: set<T>, after: set<T>)
    requires Newest(at, rows, cap, kept) && again <= rows && Newest(at, kept + again, cap, after)
    requires forall k, d :: k in kept && d in again - kept ==> at(k) > at(d)
    ensures after == kept && |after - kept| == 0
    ensures |again - kept| == |after - kept| <==> again <= kept
  {
    ReappendExactly(at, rows, cap, kept, again);
    CountedAsNew(at, kept, again, cap, after);
    assert after - kept == {};
    if again - kept == {} { NothingOutside(again, kept); }
    if again <= kept { assert again - kept == {}; }
  }

  // ----- Counts: later values win -----

  /** The table INSERT OR REPLACE leaves. */
  function Put(t: map<real, int>, rows: seq<(real, int)>): map<real, int> {
    if rows == [] then t
    else Put(t, rows[..|rows| - 1])[rows[|rows| - 1].0 := rows[|rows| - 1].1]
  }

  lemma {:induction false} PutKeys(t: map<real, int>, rows: seq<(real, int)>)
    ensures Put(t, rows).Keys == t.Keys + Buckets(rows)
  {
    if rows != [] {
      var n := |rows| - 1;
      assert rows == rows[..n] + [rows[n]];
      PutKeys(t, rows[..n]);
      assert Buckets(rows) == Buckets(rows[..n]) + {rows[n].0};
    }
  }

  /** Row `i` is the last one for its bucket. */
  ghost predicate LastFor(rows: seq<(real, int)>, i: nat) {
    i < |rows| && forall j :: i < j < |rows| ==> rows[j].0 != rows[i].0
  }

  /** A bucket has the value of the last row for it, or the one it had before. */
  lemma {:induction false} LastValueWins(t: map<real, int>, rows: seq<(real, int)>, i: nat)
    requires LastFor(rows, i)
    ensures rows[i].0 in Put(t, rows) && Put(t, rows)[rows[i].0] == rows[i].1
  {
    var n := |rows| - 1;
    if i < n {
      assert rows[n].0 != rows[i].0;
      LastValueWins(t, rows[..n], i);
    }
  }

  lemma {:induction false} OtherValuesStay(t: map<real, int>, rows: seq<(real, int)>, ts: real)
    requires forall i :: 0 <= i < |rows| ==> rows[i].0 != ts
    ensures (ts in Put(t, rows) <==> ts in t) && (ts in t ==> Put(t, rows)[ts] == t[ts])
  {
    if rows != [] { OtherValuesStay(t, rows[..|rows| - 1], ts); }
  }

  /** Each bucket has its latest value. */
  ghost predicate LatestValues(t: map<real, int>, rows: seq<(real, int)>, after: map<real, int>) {
    && (forall i: nat :: LastFor(rows, i) && rows[i].0 in after ==> after[rows[i].0] == rows[i].1)
    && (forall ts :: ts in after && (forall i :: 0 <= i < |rows| ==> rows[i].0 != ts) ==> ts in t && after[ts] == t[ts])
  }

  /** Of all buckets the newest are left, as many as the cap allows. */
  ghost predicate NewestBuckets(all: set<real>, cap: nat, left: set<real>) {
    left <= all && |left| == (if |all| <= cap then |all| else cap) && forall k, d :: k in left && d in all && d !in left ==> k >= d
  }

  lemma CountsAreLatest(t: map<real, int>, rows: seq<(real, int)>, cap: nat, after: map<real, int>)
    requires CountsAfter(t, rows, cap, after)
    ensures LatestValues(t, rows, after)
  {
    forall i: nat | LastFor(rows, i) && rows[i].0 in after ensures after[rows[i].0] == rows[i].1 { LastValueWins(t, rows, i); }
    forall ts | ts in after && (forall i :: 0 <= i < |rows| ==> rows[i].0 != ts) ensures ts in t && after[ts] == t[ts] {
      OtherValuesStay(t, rows, ts);
    }
  }

  lemma CountsAreNewest(t: map<real, int>, rows: seq<(real, int)>, cap: nat, after: map<real, int>)
    requires CountsAfter(t, rows, cap, after)
    ensures NewestBuckets(t.Keys + Buckets(rows), cap, after.Keys)
  {
    PutKeys(t, rows);
    BucketsNewest(t.Keys + Buckets(rows), cap, after.Keys);
  }

  lemma BucketsNewest(all: set<real>, cap: nat, left: set<real>)
    requires Newest(Itself(), all, cap, left)
    ensures NewestBuckets(all, cap, left)
  {
    forall k, d | k in left && d in all && d !in left ensures k >= d { KeptIsNewer(Itself(), all, cap, left, k, d); }
  }

  function Buckets(rows: seq<(real, int)>): set<real> { set r | r in rows :: r.0 }

  /** What one `upsert_counts` may leave. */
  ghost predicate CountsAfter(t: map<real, int>, rows: seq<(real, int)>, cap: nat, after: map<real, int>) {
    && Newest(Itself(), Put(t, rows).Keys, cap, after.Keys)
    && forall ts :: ts in after ==> after[ts] == Put(t, rows)[ts]
  }

  lemma {:induction false} PutConcat(t: map<real, int>, a: seq<(real, int)>, b: seq<(real, int)>)
    ensures Put(t, a + b) == Put(Put(t, a), b)
  {
    if b == [] {
      assert a + b == a;
    } else {
      var n := |b| - 1;
      var whole := a + b;
      assert whole[..|a| + n] == a + b[..n] && whole[|a| + n] == b[n];
      PutConcat(t, a, b[..n]);
    }
  }

  lemma {:induction false} PutAgrees(t: map<real, int>, u: map<real, int>, rows: seq<(real, int)>, ts: real)
    requires ts in t ==> ts in u && t[ts] == u[ts]
    requires ts in Put(t, rows)
    ensures ts in Put(u, rows) && Put(t, rows)[ts] == Put(u, rows)[ts]
  {
    if rows != [] {
      var n := |rows| - 1;
      if rows[n].0 != ts { PutAgrees(t, u, rows[..n], ts); }
    }
  }

  /** Counts have one outcome, and two calls leave what one call with both lists would. */
  lemma CountsCompose(t: map<real, int>, a: seq<(real, int)>, b: seq<(real, int)>, cap: nat,
                      first: map<real, int>, after: map<real, int>, once: map<real, int>)
    requires CountsAfter(t, a, cap, first) && CountsAfter(first, b, cap, after) && CountsAfter(t, a + b, cap, once)
    ensures after == once
  {
    PutConcat(t, a, b);
    var all := Put(t, a);
    PutKeys(first, b);
    PutKeys(all, b);
    TrimOfTrim(Itself(), all.Keys, cap, first.Keys, Buckets(b), cap, after.Keys);
    StampsDecide(all.Keys + Buckets(b), cap, after.Keys, once.Keys);
    forall ts | ts in after ensures after[ts] == once[ts] {
      PutAgrees(first, all, b, ts);
    }
  }

  lemma StampsDecide(rows: set<real>, cap: nat, a: set<real>, b: set<real>)
    requires Newest(Itself(), rows, cap, a) && Newest(Itself(), rows, cap, b)
    ensures a == b
  {
    TrimDeterminedExactly(Itself(), rows, cap, a);
  }

  // ----- The store -----

  /** A row that sorts last. */
  method Oldest<T(==)>(at: T -> real, rows: set<T>) returns (x: T)
    requires rows != {}
    ensures x in rows && forall y :: y in rows ==> at(x) <= at(y)
  {
    x := PickOne(rows);
    var rest := rows - {x};
    while rest != {}
      invariant rest <= rows && x in rows
      invariant forall y :: y in rows - rest ==> at(x) <= at(y)
      decreases |rest|
    {
      var y := PickOne(rest);
      if at(y) < at(x) { x := y; }
      rest := rest - {y};
    }
  }

  /** The DELETE: one oldest row at a time until the cap is met. */
  method Trim<T(!new, ==)>(at: T -> real, rows: set<T>, cap: nat) returns (kept: set<T>)
    ensures Newest(at, rows, cap, kept)
  {
    kept := rows;
    while |kept| > cap
      invariant kept <= rows && |kept| >= (if |rows| <= cap then |rows| else cap)
      invariant forall k, d :: k in kept && d in rows - kept ==> at(k) >= at(d)
      decreases |kept|
    {
      var x := Oldest(at, kept);
      kept := kept - {x};
    }
    SubsetSize(kept, rows);
  }

  function RowSet(rows: seq<Observation>): set<Observation> { set r | r in rows }

  lemma RowSetSnoc(rows: seq<Observation>, i: nat)
    requires i < |rows|
    ensures RowSet(rows[..i + 1]) == RowSet(rows[..i]) + {rows[i]}
  {
    assert rows[..i + 1] == rows[..i] + [rows[i]];
  }

  lemma NewestByStamp(all: set<Observation>, cap: nat, kept: set<Observation>)
    requires Newest(Stamp(), all, cap, kept)
    ensures forall k, d :: k in kept && d in all && d !in kept ==> k.at >= d.at
  {
    forall k, d | k in kept && d in all && d !in kept ensures k.at >= d.at { KeptIsNewer(Stamp(), all, cap, kept, k, d); }
  }

  lemma OneMoreRow(stored: set<Observation>, row: Observation)
    ensures |stored + {row}| == if row in stored then |stored| else |stored| + 1
  {
    if row in stored { assert stored + {row} == stored; }
  }

  lemma NewRows(stored: set<Observation>, rows: set<Observation>)
    ensures |stored + rows| - |stored| == |rows - stored|
  {
    assert stored + rows == stored + (rows - stored);
  }

  class Store {
    var observations: set<Observation>
    var counts: map<real, int>

    constructor ()
      ensures observations == {} && counts == map[]
    {
      observations, counts := {}, map[];
    }

    /** The number answered is the rows that were not stored before the call, whether or not
        the trim lets them stay. */
    method AppendObservations(storeMax: int, rows: seq<Observation>) returns (inserted: nat)
      modifies this`observations
      ensures inserted == |RowSet(rows) - old(observations)|
      ensures rows == [] ==> observations == old(observations)
      ensures rows != [] ==> Newest(Stamp(), old(observations) + RowSet(rows), Cap(storeMax), observations)
      ensures rows != [] ==> forall k, d :: k in observations && (d in old(observations) || d in rows) && d !in observations ==> k.at >= d.at
      ensures inserted == |observations - old(observations)| <==> RowSet(rows) - old(observations) <= observations
      ensures RoomForBatch(Stamp(), old(observations), RowSet(rows), Cap(storeMax)) ==>
                inserted == |observations - old(observations)|
      ensures CrowdedOut(Stamp(), old(observations), RowSet(rows), Cap(storeMax)) ==>
                inserted > |observations - old(observations)|
    {
      if rows == [] { return 0; }
      inserted := 0;
      for i := 0 to |rows|
        invariant observations == old(observations) + RowSet(rows[..i])
        invariant |old(observations)| + inserted == |observations|
      {
        RowSetSnoc(rows, i);
        OneMoreRow(observations, rows[i]);
        if rows[i] !in observations { inserted := inserted + 1; }
        observations := observations + {rows[i]};
      }
      assert rows[..|rows|] == rows;
      NewRows(old(observations), RowSet(rows));
      observations := Trim(Stamp(), observations, Cap(storeMax));
      NewestByStamp(old(observations) + RowSet(rows), Cap(storeMax), observations);
      CountedAsNew(Stamp(), old(observations), RowSet(rows), Cap(storeMax), observations);
      ReportsGainExactly(Stamp(), old(observations), RowSet(rows), Cap(storeMax));
      ReportsTooManyExactly(Stamp(), old(observations), RowSet(rows), Cap(storeMax));
    }

    method UpsertCounts(storeMax: int, rows: seq<(real, int)>) returns (written: nat)
      modifies this`counts
      ensures written == |rows|
      ensures rows == [] ==> counts == old(counts)
      ensures rows != [] ==> CountsAfter(old(counts), rows, Cap(storeMax), counts)
      ensures rows != [] ==> LatestValues(old(counts), rows, counts)
      ensures rows != [] ==> NewestBuckets(old(counts).Keys + Buckets(rows), Cap(storeMax), counts.Keys)
    {
      if rows == [] { return 0; }
      for i := 0 to |rows|
        invariant counts == Put(old(counts), rows[..i])
      {
        assert rows[..i + 1][..i] == rows[..i];
        counts := counts[rows[i].0 := rows[i].1];
      }
      assert rows[..|rows|] == rows;
      var kept := Trim(Itself(), counts.Keys, Cap(storeMax));
      counts := map ts | ts in kept :: counts[ts];
      assert counts.Keys == kept;
      CountsAreLatest(old(counts), rows, Cap(storeMax), counts);
      CountsAreNewest(old(counts), rows, Cap(storeMax), counts);
      return |rows|;
    }
  }
}
