/** What a caller is shown of a subject: the heaviest readable rows of each kind. */
module MemoryRecall {
  import opened FiniteSets
  import opened StableSort
  import opened MemoryTable
  import opened Eviction

  const RECALL_MAX_LIMIT := 20
  const RECALL_READ_LIMIT := 1000

  datatype DecisionView = DecisionView(id: int, verdict: string, advisory: bool, support: int)
  datatype ReasonView = ReasonView(id: int, text: string, support: int)

  /** Rows a reader may be shown. */
  predicate TrustShapeOk(u: Row) {
    && (u.kind == Decision || u.kind == Reason)
    && u.utype != OtherType && u.provenance != OtherProvenance
    && (u.tainted <==> Tainted(u.provenance))
    && !(u.utype == World && u.provenance != Analyst)
    && !(u.kind == Decision && u.value !in VERDICTS)
  }

  predicate Readable(u: Row, subject: string, kind: Kind) {
    u.subject == subject && u.invalidatedBy == "" && u.kind == kind && TrustShapeOk(u)
  }

  // The sort keys of the two passes.
  predicate NewestFirst(x: Row, y: Row) { x.lastSeen >= y.lastSeen }

  predicate HeaviestFirst(env: Env, x: Row, y: Row) {
    env.weight(x.firstSeen, x.lastSeen) >= env.weight(y.firstSeen, y.lastSeen)
  }

  function Heaviest(env: Env): (Row, Row) -> bool { (x, y) => HeaviestFirst(env, x, y) }

  /** Relevance: the heavier row first, the newer among equals. */
  ghost function Ahead(env: Env): (Row, Row) -> bool {
    (x: Row, y: Row) =>
      && x.id != y.id
      && HeaviestFirst(env, x, y)
      && (HeaviestFirst(env, y, x) ==> NewestFirst(x, y))
  }

  /** `rows` are the `n` most relevant readable rows of the kind, in order. A subject with
      more live rows than one read returns may show fewer: only rows beyond the read are missed. */
  ghost predicate BestReadable(env: Env, t: Table, subject: string, kind: Kind, rows: seq<Row>, n: nat) {
    && |rows| <= n && Ordered(Ahead(env), rows)
    && (forall u :: u in rows ==> u.id in t && t[u.id] == u && Readable(u, subject, kind))
    && (forall u, id :: u in rows && id in t && Readable(t[id], subject, kind) && t[id] !in rows ==> Ahead(env)(u, t[id]))
    && (|rows| < n ==>
          forall id :: id in t && Readable(t[id], subject, kind) && t[id] !in rows ==> BeyondRead(env, t, subject, id))
  }

  /** The live rows of the subject that a read puts before this one. */
  ghost function AheadOf(env: Env, t: Table, subject: string, id: int): set<int>
    requires id in t
  {
    set j | j in t && t[j].subject == subject && t[j].invalidatedBy == "" && Ahead(env)(t[j], t[id])
  }

  /** A read stops before it comes to this row. */
  ghost predicate BeyondRead(env: Env, t: Table, subject: string, id: int)
    requires id in t
  {
    |AheadOf(env, t, subject, id)| >= 1000
  }

  /** In a subject with no more live rows than one read returns no row is beyond the read. */
  lemma NothingBeyondRead(env: Env, t: Table, subject: string, id: int)
    requires id in t && t[id].subject == subject && CountOf(t, subject) <= RECALL_READ_LIMIT
    ensures !BeyondRead(env, t, subject, id)
  {
    var ahead, ids := AheadOf(env, t, subject, id), SubjectIds(t, subject);
    assert id in ids && id !in ahead;
    SubsetSize(ahead, ids - {id});
  }

  /** What a reader may see: a decision with a known verdict or a reason, of a declared type,
      untainted from an analyst or tainted and no world fact from anywhere else. */
  lemma ReadableExactly(u: Row)
    ensures TrustShapeOk(u) <==>
            && ((u.kind == Decision && u.value in VERDICTS) || u.kind == Reason)
            && ( || (u.provenance == Analyst && !u.tainted && u.utype in {Observation, Experience, World})
                 || (u.provenance in {AlertText, ToolOutput} && u.tainted && u.utype in {Observation, Experience}))
  {
  }

  /** A row left out is lighter than every row shown, or as light and not seen later. */
  lemma ShownOutweighHidden(env: Env, t: Table, subject: string, kind: Kind, rows: seq<Row>, n: nat, u: Row, id: int)
    requires BestReadable(env, t, subject, kind, rows, n) && u in rows
    requires id in t && t[id] !in rows && t[id].subject == subject && t[id].invalidatedBy == "" && t[id].kind == kind && TrustShapeOk(t[id])
    ensures env.weight(u.firstSeen, u.lastSeen) >= env.weight(t[id].firstSeen, t[id].lastSeen)
    ensures env.weight(u.firstSeen, u.lastSeen) == env.weight(t[id].firstSeen, t[id].lastSeen) ==> u.lastSeen >= t[id].lastSeen
  {
    assert Readable(t[id], subject, kind);
  }

  function ViewOf(u: Row): DecisionView { DecisionView(u.id, u.value, u.utype != World, Support(u)) }

  function DecisionViews(rows: seq<Row>): seq<DecisionView> {
    seq(|rows|, i requires 0 <= i < |rows| => ViewOf(rows[i]))
  }

  function ReasonViews(rows: seq<Row>): seq<ReasonView> {
    seq(|rows|, i requires 0 <= i < |rows| => ReasonView(rows[i].id, rows[i].text, Support(rows[i])))
  }

  /** The rows a read without `include_invalidated` returns. */
  function Live(rows: seq<Row>): (r: seq<Row>)
    ensures forall u :: u in r <==> u in rows && u.invalidatedBy == ""
    ensures |r| <= |rows|
  {
    if rows == [] then []
    else
      assert rows == [rows[0]] + rows[1..];
      if rows[0].invalidatedBy == "" then [rows[0]] + Live(rows[1..]) else Live(rows[1..])
  }

  lemma {:induction false} LiveDiffer(rows: seq<Row>)
    requires Ordered(Differ, rows)
    ensures Ordered(Differ, Live(rows))
  {
    if rows != [] {
      LiveDiffer(rows[1..]);
      forall u | u in Live(rows[1..]) ensures Differ(rows[0], u) {
        var k :| 0 <= k < |rows[1..]| && rows[1..][k] == u;
        assert u == rows[k + 1];
      }
    }
  }

  /** The readable rows of one kind. */
  function Kept(rows: seq<Row>, kind: Kind): (r: seq<Row>)
    ensures forall u :: u in r <==> u in rows && TrustShapeOk(u) && u.kind == kind
    ensures |r| <= |rows|
  {
    if rows == [] then []
    else
      assert rows == [rows[0]] + rows[1..];
      if TrustShapeOk(rows[0]) && rows[0].kind == kind then [rows[0]] + Kept(rows[1..], kind) else Kept(rows[1..], kind)
  }

  lemma {:induction false} KeptOrdered(rel: (Row, Row) -> bool, rows: seq<Row>, kind: Kind)
    requires Ordered(rel, rows)
    ensures Ordered(rel, Kept(rows, kind))
  {
    if rows != [] {
      KeptOrdered(rel, rows[1..], kind);
      forall u | u in Kept(rows[1..], kind) ensures rel(rows[0], u) {
        var k :| 0 <= k < |rows[1..]| && rows[1..][k] == u;
        assert u == rows[k + 1];
      }
    }
  }

  /** `items[:n]`. */
  function Take<T>(items: seq<T>, n: nat): (r: seq<T>)
    ensures |r| == if |items| < n then |items| else n
    ensures r <= items
  {
    if |items| > n then items[..n] else items
  }

  lemma InPrefix<T>(taken: seq<T>, items: seq<T>, j: nat)
    requires taken <= items && j < |taken|
    ensures items[j] in taken
  {
    assert items[j] == taken[j];
  }

  /** Everything a prefix of an ordered list leaves out stands behind all of it. */
  lemma TakenIsAhead<T(!new)>(rel: (T, T) -> bool, items: seq<T>, n: nat, x: T, y: T)
    requires Ordered(rel, items)
    requires x in Take(items, n) && y in items && y !in Take(items, n)
    ensures rel(x, y)
  {
    var taken := Take(items, n);
    var i :| 0 <= i < |taken| && taken[i] == x;
    var j :| 0 <= j < |items| && items[j] == y;
    assert items[i] == x;
    if j < |taken| { InPrefix(taken, items, j); }
  }

  /** The live rows in the order the two passes leave them. */
  ghost function ByRelevance(env: Env, found: seq<Row>): seq<Row> {
    SortBy(Heaviest(env), SortBy(NewestFirst, Live(found)))
  }

  lemma PassesAreRelevance(env: Env, t: Table, subject: string, found: seq<Row>)
    requires WellFormed(t) && Enumerates(found, t, subject)
    ensures Ordered(Ahead(env), ByRelevance(env, found))
    ensures forall u :: u in ByRelevance(env, found) <==> u.id in t && t[u.id] == u && u.subject == subject && u.invalidatedBy == ""
    ensures |ByRelevance(env, found)| <= CountOf(t, subject)
  {
    var live := Live(found);
    LiveDiffer(found);
    var byTime := SortBy(NewestFirst, live);
    var rows := SortBy(Heaviest(env), byTime);
    SortRefines(NewestFirst, Differ, live);
    SortRefines(Heaviest(env), Refine(NewestFirst, Differ), byTime);
    SameElements(rows, live);
    EnumerationSize(found, t, subject);
    forall u | u in found ensures u.id in t && t[u.id] == u && u.subject == subject {
      var k :| 0 <= k < |found| && found[k] == u;
    }
    forall i, j | 0 <= i < j < |rows| ensures Ahead(env)(rows[i], rows[j]) {
      assert Refine(Heaviest(env), Refine(NewestFirst, Differ))(rows[i], rows[j]);
      assert rows[i] in live && rows[j] in live;
    }
  }

  ghost predicate LiveRows(env: Env, t: Table, subject: string, rows: seq<Row>) {
    && Ordered(Ahead(env), rows) && |rows| <= CountOf(t, subject)
    && (forall u :: u in rows <==> u.id in t && t[u.id] == u && u.subject == subject && u.invalidatedBy == "")
  }

  ghost function Best(rows: seq<Row>, kind: Kind, n: nat): seq<Row> {
    Take(Kept(Take(rows, RECALL_READ_LIMIT), kind), n)
  }

  lemma BestIsOrdered(env: Env, t: Table, subject: string, rows: seq<Row>, kind: Kind, n: nat)
    requires LiveRows(env, t, subject, rows)
    ensures Ordered(Ahead(env), Best(rows, kind, n))
    ensures forall u :: u in Best(rows, kind, n) ==> u in rows && TrustShapeOk(u) && u.kind == kind
  {
    var read := Take(rows, RECALL_READ_LIMIT);
    KeptOrdered(Ahead(env), read, kind);
    forall u | u in Best(rows, kind, n) ensures u in Kept(read, kind) {}
  }

  lemma BestIsAhead(env: Env, t: Table, subject: string, rows: seq<Row>, kind: Kind, n: nat, u: Row, v: Row)
    requires LiveRows(env, t, subject, rows) && u in Best(rows, kind, n)
    requires v in rows && TrustShapeOk(v) && v.kind == kind && v !in Best(rows, kind, n)
    ensures Ahead(env)(u, v)
  {
    var read := Take(rows, RECALL_READ_LIMIT);
    var kept := Kept(read, kind);
    assert u in kept;
    if v in read {
      KeptOrdered(Ahead(env), read, kind);
      TakenIsAhead(Ahead(env), kept, n, u, v);
    } else {
      TakenIsAhead(Ahead(env), rows, RECALL_READ_LIMIT, u, v);
    }
  }

  lemma BestAreTaken(env: Env, t: Table, subject: string, found: seq<Row>, kind: Kind, n: nat)
    requires WellFormed(t) && Enumerates(found, t, subject)
    ensures BestReadable(env, t, subject, kind, Best(ByRelevance(env, found), kind, n), n)
  {
    var rows := ByRelevance(env, found);
    PassesAreRelevance(env, t, subject, found);
    BestIsBest(env, t, subject, rows, kind, n);
  }

  lemma PastTheRead(env: Env, t: Table, subject: string, rows: seq<Row>, id: int)
    requires WellFormed(t) && LiveRows(env, t, subject, rows) && id in t
    requires t[id] in rows && t[id] !in Take(rows, RECALL_READ_LIMIT)
    ensures BeyondRead(env, t, subject, id)
  {
    var read := Take(rows, RECALL_READ_LIMIT);
    assert |read| == RECALL_READ_LIMIT;
    var ids := set u | u in read :: u.id;
    forall i, j | 0 <= i < j < |read| ensures read[i].id != read[j].id { assert Ahead(env)(rows[i], rows[j]); }
    DistinctIds(read);
    forall j | j in ids ensures j in AheadOf(env, t, subject, id) {
      var u :| u in read && u.id == j;
      TakenIsAhead(Ahead(env), rows, RECALL_READ_LIMIT, u, t[id]);
      assert u in rows;
    }
    SubsetSize(ids, AheadOf(env, t, subject, id));
  }

  lemma BestMissesOnlyBeyond(env: Env, t: Table, subject: string, rows: seq<Row>, kind: Kind, n: nat, id: int)
    requires WellFormed(t) && LiveRows(env, t, subject, rows) && |Best(rows, kind, n)| < n
    requires id in t && Readable(t[id], subject, kind) && t[id] !in Best(rows, kind, n)
    ensures BeyondRead(env, t, subject, id)
  {
    assert t[id] in rows;
    assert Best(rows, kind, n) == Kept(Take(rows, RECALL_READ_LIMIT), kind);
    PastTheRead(env, t, subject, rows, id);
  }

  lemma BestIsBest(env: Env, t: Table, subject: string, rows: seq<Row>, kind: Kind, n: nat)
    requires WellFormed(t) && LiveRows(env, t, subject, rows)
    ensures BestReadable(env, t, subject, kind, Best(rows, kind, n), n)
  {
    BestIsOrdered(env, t, subject, rows, kind, n);
    forall u, id | u in Best(rows, kind, n) && id in t && Readable(t[id], subject, kind) && t[id] !in Best(rows, kind, n)
      ensures Ahead(env)(u, t[id])
    {
      BestIsAhead(env, t, subject, rows, kind, n, u, t[id]);
    }
    if |Best(rows, kind, n)| < n {
      forall id | id in t && Readable(t[id], subject, kind) && t[id] !in Best(rows, kind, n) ensures BeyondRead(env, t, subject, id) {
        BestMissesOnlyBeyond(env, t, subject, rows, kind, n, id);
      }
    }
  }

  /** Each reason is shown with its own text and count, in order. */
  lemma ReasonsAreQuoted(rows: seq<Row>, i: nat)
    requires i < |rows|
    ensures |ReasonViews(rows)| == |rows| && ReasonViews(rows)[i].id == rows[i].id && ReasonViews(rows)[i].text == rows[i].text
    ensures rows[i].support >= 1 ==> ReasonViews(rows)[i].support == rows[i].support
  {
  }

  /** Among the decisions a caller is shown, the authoritative ones are exactly those
      retention must keep. */
  lemma ViewsAreHonest(t: Table, subject: string, rows: seq<Row>)
    requires forall u :: u in rows ==> u.id in t && t[u.id] == u && Readable(u, subject, Decision)
    ensures forall d :: d in DecisionViews(rows) ==> d.id in t && d.verdict in VERDICTS && (d.advisory <==> !Protected(t[d.id]))
    ensures forall d :: d in DecisionViews(rows) ==>
              d.id in t && d.verdict == t[d.id].value && (t[d.id].support >= 1 ==> d.support == t[d.id].support)
  {
    forall d | d in DecisionViews(rows)
      ensures d.id in t && d.verdict in VERDICTS && (d.advisory <==> !Protected(t[d.id]))
      ensures d.verdict == t[d.id].value && (t[d.id].support >= 1 ==> d.support == t[d.id].support)
    {
      var i :| 0 <= i < |rows| && DecisionViews(rows)[i] == d;
      assert rows[i] in rows && d == ViewOf(rows[i]);
    }
  }
}
