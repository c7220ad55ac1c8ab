/** Which rows retention deletes, and the order it deletes them in. */
module Eviction {
  import opened Basics
  import opened StableSort
  import opened MemoryTable

  // The three sort keys of `_eviction_order`.
  predicate ById(x: Row, y: Row) { x.id <= y.id }
  predicate BySupport(x: Row, y: Row) { Support(x) <= Support(y) }
  predicate ByLastSeen(x: Row, y: Row) { x.lastSeen <= y.lastSeen }

  /** The total order the three passes are meant to produce. */
  predicate Before(x: Row, y: Row) {
    || x.lastSeen < y.lastSeen
    || (x.lastSeen == y.lastSeen && Support(x) < Support(y))
    || (x.lastSeen == y.lastSeen && Support(x) == Support(y) && x.id < y.id)
  }

  ghost predicate Differ(x: Row, y: Row) { x.id != y.id }

  function Evictables(env: Env, rows: seq<Row>): (r: seq<Row>)
    ensures forall u :: u in r <==> u in rows && Evictable(env, u)
  {
    if rows == [] then []
    else
      assert rows == [rows[0]] + rows[1..];
      if Evictable(env, rows[0]) then [rows[0]] + Evictables(env, rows[1..]) else Evictables(env, rows[1..])
  }

  lemma {:induction false} EvictablesDiffer(env: Env, rows: seq<Row>)
    requires Ordered(Differ, rows)
    ensures Ordered(Differ, Evictables(env, rows))
  {
    if rows != [] {
      EvictablesDiffer(env, rows[1..]);
      var rest := Evictables(env, rows[1..]);
      forall j | 0 <= j < |rest| ensures Differ(rows[0], rest[j]) {
        assert rest[j] in rows[1..];
        var k :| 0 <= k < |rows[1..]| && rows[1..][k] == rest[j];
        assert rest[j] == rows[k + 1];
      }
    }
  }

  ghost function EvictionList(env: Env, rows: seq<Row>): seq<Row> {
    SortBy(ByLastSeen, SortBy(BySupport, SortBy(ById, Evictables(env, rows))))
  }

  /** Three stable passes, least significant key first, give the lexicographic order. */
  lemma PassesAreLexicographic(env: Env, rows: seq<Row>)
    requires Distinct(rows)
    ensures Ordered(Before, EvictionList(env, rows))
    ensures multiset(EvictionList(env, rows)) == multiset(Evictables(env, rows))
  {
    var c0 := Evictables(env, rows);
    EvictablesDiffer(env, rows);
    var c1 := SortBy(ById, c0);
    SortRefines(ById, Differ, c0);
    var c2 := SortBy(BySupport, c1);
    SortRefines(BySupport, Refine(ById, Differ), c1);
    var c3 := SortBy(ByLastSeen, c2);
    SortRefines(ByLastSeen, Refine(BySupport, Refine(ById, Differ)), c2);
    forall i, j | 0 <= i < j < |c3| ensures Before(c3[i], c3[j]) {
      assert Refine(ByLastSeen, Refine(BySupport, Refine(ById, Differ)))(c3[i], c3[j]);
    }
  }

  method EvictionOrder(env: Env, rows: seq<Row>) returns (candidates: seq<Row>)
    requires Distinct(rows)
    ensures Ordered(Before, candidates)
    ensures multiset(candidates) == multiset(Evictables(env, rows))
  {
    candidates := Evictables(env, rows);
    candidates := SortBy(ById, candidates);
    candidates := SortBy(BySupport, candidates);
    candidates := SortBy(ByLastSeen, candidates);
    PassesAreLexicographic(env, rows);
  }

  lemma EvictablesPermute(env: Env, a: seq<Row>, b: seq<Row>)
    requires multiset(a) == multiset(b)
    ensures multiset(Evictables(env, a)) == multiset(Evictables(env, b))
  {
    forall u ensures multiset(Evictables(env, a))[u] == multiset(Evictables(env, b))[u] {
      EvictablesCount(env, a, u);
      EvictablesCount(env, b, u);
    }
  }

  lemma {:induction false} EvictablesCount(env: Env, rows: seq<Row>, u: Row)
    ensures multiset(Evictables(env, rows))[u] == if Evictable(env, u) then multiset(rows)[u] else 0
  {
    if rows != [] {
      assert rows == [rows[0]] + rows[1..];
      EvictablesCount(env, rows[1..], u);
    }
  }

  /** The order in which rows were read never shows in the eviction order. */
  lemma EvictionOrderIgnoresReadOrder(env: Env, a: seq<Row>, b: seq<Row>, ca: seq<Row>, cb: seq<Row>)
    requires multiset(a) == multiset(b)
    requires Ordered(Before, ca) && multiset(ca) == multiset(Evictables(env, a))
    requires Ordered(Before, cb) && multiset(cb) == multiset(Evictables(env, b))
    ensures ca == cb
  {
    EvictablesPermute(env, a, b);
    OrderedIsUnique(Before, ca, cb);
  }

  // ----- What a pruning pass deletes, said without sorting -----

  ghost predicate EvictableIn(env: Env, t: Table, subject: string, id: int) {
    id in t && t[id].subject == subject && Evictable(env, t[id])
  }

  ghost function EvictableIds(env: Env, t: Table, subject: string): set<int> {
    set id | id in t && EvictableIn(env, t, subject, id)
  }

  /** How many evictable rows of the subject come before this one. */
  ghost function Rank(env: Env, t: Table, subject: string, id: int): nat
    requires id in t
  {
    |set j | j in t && EvictableIn(env, t, subject, j) && Before(t[j], t[id])|
  }

  ghost function Room(env: Env, t: Table, subject: string): nat {
    Max(0, CountOf(t, subject) - MaxUnitsPerSubject(env) + 1)
  }

  ghost predicate Doomed(env: Env, t: Table, subject: string, makeRoom: bool, id: int) {
    EvictableIn(env, t, subject, id) && (makeRoom ==> Rank(env, t, subject, id) < Room(env, t, subject))
  }

  ghost function DoomedIds(env: Env, t: Table, subject: string, makeRoom: bool): set<int> {
    set id | id in t && Doomed(env, t, subject, makeRoom, id)
  }

  ghost function Pruned(env: Env, t: Table, subject: string, makeRoom: bool): Table {
    t - DoomedIds(env, t, subject, makeRoom)
  }

  lemma CandidateIds(env: Env, t: Table, subject: string, rows: seq<Row>, c: seq<Row>)
    requires WellFormed(t) && Enumerates(rows, t, subject)
    requires Ordered(Before, c) && multiset(c) == multiset(Evictables(env, rows))
    ensures forall i :: 0 <= i < |c| ==> EvictableIn(env, t, subject, c[i].id) && t[c[i].id] == c[i]
    ensures forall id :: EvictableIn(env, t, subject, id) ==> t[id] in c
    ensures Distinct(c)
  {
    SameElements(c, Evictables(env, rows));
    forall i | 0 <= i < |c|
      ensures EvictableIn(env, t, subject, c[i].id) && t[c[i].id] == c[i]
    {
      assert c[i] in Evictables(env, rows);
      assert c[i] in rows;
    }
    forall i, j | 0 <= i < j < |c| ensures c[i].id != c[j].id {
      assert Before(c[i], c[j]);
    }
  }

  lemma BeforeIsEarlier(c: seq<Row>, m: nat, k: nat)
    requires Ordered(Before, c) && m < |c| && k < |c| && Before(c[m], c[k])
    ensures m < k
  {
  }

  lemma EarlierIds(env: Env, t: Table, subject: string, rows: seq<Row>, c: seq<Row>, k: nat, j: int)
    requires WellFormed(t) && Enumerates(rows, t, subject)
    requires Ordered(Before, c) && multiset(c) == multiset(Evictables(env, rows)) && k < |c|
    ensures c[k].id in t
    ensures j in t && EvictableIn(env, t, subject, j) && Before(t[j], t[c[k].id]) <==> exists m :: 0 <= m < k && c[m].id == j
  {
    CandidateIds(env, t, subject, rows, c);
    if j in t && EvictableIn(env, t, subject, j) && Before(t[j], t[c[k].id]) {
      assert t[j] in c;
      var m :| 0 <= m < |c| && c[m] == t[j];
      BeforeIsEarlier(c, m, k);
      assert c[m].id == j;
    }
    if m :| 0 <= m < k && c[m].id == j { assert Before(c[m], c[k]); }
  }

  /** Sorting finds the rank: the row at position `k` has exactly `k` rows before it. */
  lemma PositionIsRank(env: Env, t: Table, subject: string, rows: seq<Row>, c: seq<Row>, k: nat)
    requires WellFormed(t) && Enumerates(rows, t, subject)
    requires Ordered(Before, c) && multiset(c) == multiset(Evictables(env, rows))
    requires k < |c|
    ensures c[k].id in t && Rank(env, t, subject, c[k].id) == k
  {
    EarlierIds(env, t, subject, rows, c, k, c[k].id);
    var lower := set j | j in t && EvictableIn(env, t, subject, j) && Before(t[j], t[c[k].id]);
    var ids := set r | r in c[..k] :: r.id;
    forall j ensures j in lower <==> j in ids {
      EarlierIds(env, t, subject, rows, c, k, j);
      PrefixId(c, k, j);
    }
    assert lower == ids;
    CandidateIds(env, t, subject, rows, c);
    DistinctIds(c[..k]);
  }

  lemma EvictableCount(env: Env, t: Table, subject: string, rows: seq<Row>, c: seq<Row>)
    requires WellFormed(t) && Enumerates(rows, t, subject)
    requires Ordered(Before, c) && multiset(c) == multiset(Evictables(env, rows))
    ensures (set r | r in c :: r.id) == EvictableIds(env, t, subject)
    ensures |c| == |EvictableIds(env, t, subject)|
  {
    CandidateIds(env, t, subject, rows, c);
    DistinctIds(c);
    var ids := set r | r in c :: r.id;
    forall id | id in EvictableIds(env, t, subject) ensures id in ids {
      assert t[id] in c && t[id].id == id;
    }
    assert ids == EvictableIds(env, t, subject);
  }

  lemma InPrefixIsDoomed(env: Env, t: Table, subject: string, rows: seq<Row>, c: seq<Row>, makeRoom: bool, k: nat, id: int)
    requires WellFormed(t) && Enumerates(rows, t, subject)
    requires Ordered(Before, c) && multiset(c) == multiset(Evictables(env, rows))
    requires k == if makeRoom then Min(|c|, Room(env, t, subject)) else |c|
    ensures (exists m :: 0 <= m < k && c[m].id == id) <==> id in DoomedIds(env, t, subject, makeRoom)
  {
    CandidateIds(env, t, subject, rows, c);
    if EvictableIn(env, t, subject, id) {
      var m :| 0 <= m < |c| && c[m] == t[id];
      PositionIsRank(env, t, subject, rows, c, m);
      assert c[m].id == id;
    }
  }

  /** The prefix the code cuts off is the set of rows ranked below the room needed. */
  lemma PrefixIsDoomed(env: Env, t: Table, subject: string, rows: seq<Row>, c: seq<Row>, makeRoom: bool)
    requires WellFormed(t) && Enumerates(rows, t, subject)
    requires Ordered(Before, c) && multiset(c) == multiset(Evictables(env, rows))
    ensures var k := if makeRoom then Min(|c|, Room(env, t, subject)) else |c|;
            && 0 <= k <= |c|
            && (set r | r in c[..k] :: r.id) == DoomedIds(env, t, subject, makeRoom)
            && |DoomedIds(env, t, subject, makeRoom)| == k
            && k == if makeRoom then Min(|c|, Max(0, |rows| - MaxUnitsPerSubject(env) + 1)) else |c|
  {
    EnumerationSize(rows, t, subject);
    var k := if makeRoom then Min(|c|, Room(env, t, subject)) else |c|;
    var ids := set r | r in c[..k] :: r.id;
    forall id ensures id in ids <==> id in DoomedIds(env, t, subject, makeRoom) {
      InPrefixIsDoomed(env, t, subject, rows, c, makeRoom, k, id);
      PrefixId(c, k, id);
    }
    assert ids == DoomedIds(env, t, subject, makeRoom);
    CandidateIds(env, t, subject, rows, c);
    DistinctIds(c[..k]);
  }

  lemma PrefixId(c: seq<Row>, k: nat, id: int)
    requires k <= |c|
    ensures id in (set r | r in c[..k] :: r.id) <==> exists m :: 0 <= m < k && c[m].id == id
  {
    if m :| 0 <= m < k && c[m].id == id { assert c[..k][m] == c[m]; }
  }

  lemma PressureCount(env: Env, t: Table, subject: string, rows: seq<Row>, c: seq<Row>)
    requires WellFormed(t) && Enumerates(rows, t, subject)
    requires Ordered(Before, c) && multiset(c) == multiset(Evictables(env, rows))
    ensures |DoomedIds(env, t, subject, true)| ==
            Min(|EvictableIds(env, t, subject)|, Max(0, CountOf(t, subject) - MaxUnitsPerSubject(env) + 1))
  {
    PrefixIsDoomed(env, t, subject, rows, c, true);
    EvictableCount(env, t, subject, rows, c);
    EnumerationSize(rows, t, subject);
  }

  lemma PressureOrder(env: Env, t: Table, subject: string, rows: seq<Row>, c: seq<Row>)
    requires WellFormed(t) && Enumerates(rows, t, subject)
    requires Ordered(Before, c) && multiset(c) == multiset(Evictables(env, rows))
    ensures var gone := DoomedIds(env, t, subject, true);
            forall d, e :: d in gone && e in EvictableIds(env, t, subject) - gone ==> Before(t[d], t[e])
  {
    var gone, evictable := DoomedIds(env, t, subject, true), EvictableIds(env, t, subject);
    forall d, e | d in gone && e in evictable - gone ensures Before(t[d], t[e]) {
      LowerRankFirst(env, t, subject, rows, c, d, e);
    }
  }

  /** Pressure deletes exactly as many rows as are needed and allowed, the least first. */
  lemma PressureDeletesExactly(env: Env, t: Table, subject: string)
    requires WellFormed(t)
    ensures var gone := DoomedIds(env, t, subject, true);
            var evictable := EvictableIds(env, t, subject);
            && gone <= evictable
            && |gone| == Min(|evictable|, Max(0, CountOf(t, subject) - MaxUnitsPerSubject(env) + 1))
            && (forall d, e :: d in gone && e in evictable - gone ==> Before(t[d], t[e]))
            && (forall d :: d in gone ==> !Protected(t[d]) && Evictable(env, t[d]))
  {
    ReadingExists(t, subject);
    var rows := RowsOf(t, SubjectIds(t, subject));
    PassesAreLexicographic(env, rows);
    PressureCount(env, t, subject, rows, EvictionList(env, rows));
    PressureOrder(env, t, subject, rows, EvictionList(env, rows));
  }

  lemma LowerRankFirst(env: Env, t: Table, subject: string, rows: seq<Row>, c: seq<Row>, d: int, e: int)
    requires WellFormed(t) && Enumerates(rows, t, subject)
    requires Ordered(Before, c) && multiset(c) == multiset(Evictables(env, rows))
    requires EvictableIn(env, t, subject, d) && EvictableIn(env, t, subject, e)
    requires Rank(env, t, subject, d) < Rank(env, t, subject, e)
    ensures Before(t[d], t[e])
  {
    CandidateIds(env, t, subject, rows, c);
    assert t[d] in c && t[e] in c;
    var i :| 0 <= i < |c| && c[i] == t[d];
    var j :| 0 <= j < |c| && c[j] == t[e];
    PositionIsRank(env, t, subject, rows, c, i);
    PositionIsRank(env, t, subject, rows, c, j);
  }

  /** Of two evictable rows pressure never takes the one seen later and leaves the other;
      among rows seen last together the less confirmed goes first, and then the smaller id. */
  lemma OldestGoFirst(env: Env, t: Table, subject: string, d: int, e: int)
    requires WellFormed(t) && d in t && d !in Pruned(env, t, subject, true)
    requires e in Pruned(env, t, subject, true) && EvictableIn(env, t, subject, e)
    ensures t[d].lastSeen <= t[e].lastSeen
    ensures t[d].lastSeen == t[e].lastSeen ==> t[d].support <= t[e].support
    ensures t[d].lastSeen == t[e].lastSeen && t[d].support == t[e].support ==> d < e
  {
    PressureDeletesExactly(env, t, subject);
  }

  /** A full subject with enough evictable rows is left with one place free, no more. */
  lemma PressureFreesOnePlace(env: Env, t: Table, subject: string)
    requires WellFormed(t) && CountOf(t, subject) >= MaxUnitsPerSubject(env)
    ensures var unevictable := CountOf(t, subject) - |EvictableIds(env, t, subject)|;
            CountOf(Pruned(env, t, subject, true), subject) ==
            if unevictable < MaxUnitsPerSubject(env) then MaxUnitsPerSubject(env) - 1 else unevictable
  {
    PressureDeletesExactly(env, t, subject);
    var gone := DoomedIds(env, t, subject, true);
    assert SubjectIds(Pruned(env, t, subject, true), subject) == SubjectIds(t, subject) - gone;
    assert gone <= SubjectIds(t, subject);
  }

  /** The operator's sweep deletes every evictable row of the subject and nothing else. */
  lemma SweepDeletesEvictable(env: Env, t: Table, subject: string, id: int)
    requires WellFormed(t) && id in t
    ensures id in Pruned(env, t, subject, false) <==> t[id].subject != subject || !Evictable(env, t[id])
  {
  }

  /** What it takes to expire: retention on, no audit record, a decayed weight, a stamp that
      can be read, and one whole TTL of silence for each of the first four confirmations. */
  lemma ExpiresExactly(env: Env, u: Row)
    ensures Evictable(env, u) <==>
            && env.ttlSeconds > 0 && u.invalidatedBy == ""
            && (u.kind == Decision && u.utype == World && u.provenance == Analyst ==> u.tainted)
            && env.weight(u.firstSeen, u.lastSeen) < 0.01
            && env.age(u.lastSeen).Some?
            && forall n :: 1 <= n <= 4 && (n == 1 || n <= u.support) ==> env.age(u.lastSeen).value > (env.ttlSeconds * n) as real
  {
    var n := Max(1, Min(Support(u), SUPPORT_HORIZON_CAP));
    if env.ttlSeconds > 0 && env.age(u.lastSeen).Some? {
      assert 1 <= n <= 4 && (n == 1 || n <= u.support) && RetentionHorizon(env, u) == env.ttlSeconds * n;
      forall m | 1 <= m <= 4 && (m == 1 || m <= u.support) ensures env.ttlSeconds * m <= env.ttlSeconds * n {
        assert m <= n;
        assert env.ttlSeconds * (n - m) >= 0;
      }
    }
  }

  lemma PrunedKeeps(env: Env, t: Table, subject: string, makeRoom: bool)
    requires WellFormed(t)
    ensures var p := Pruned(env, t, subject, makeRoom);
            && WellFormed(p)
            && (forall id :: id in p ==> id in t && p[id] == t[id])
            && (forall id :: id in t && id !in p ==> t[id].subject == subject && Evictable(env, t[id]))
  {
  }
}
