/** Rows of the units table, the retention policy and the invariants every writer keeps. */
module MemoryTable {
  import opened Basics
  import opened FiniteSets

  // The `Other...` constructors stand for any text outside the declared vocabulary: a
  // forged or legacy row may carry one.
  datatype UnitType = Observation | Experience | World | OtherType
  datatype Provenance = AlertText | ToolOutput | Analyst | OtherProvenance
  datatype Kind = NoKind | Decision | Reason | OtherKind

  /** What a digest is taken over; SHA-256 is treated as injective. `NoKey` is the empty key. */
  datatype DedupeKey =
    | NoKey
    | DecisionKey(subject: string, verdict: string, advisory: bool)
    | ReasonKey(subject: string, body: string)

  /** The columns some branch reads. Ids and stamps are ordered as their texts are. */
  datatype Row = Row(
    id: int,
    utype: UnitType,
    subject: string,
    text: string,
    firstSeen: int,
    lastSeen: int,
    support: int,
    source: string,
    provenance: Provenance,
    tainted: bool,
    invalidatedBy: string,
    kind: Kind,
    value: string,
    key: DedupeKey)

  type Table = map<int, Row>

  /** Configuration and clock as one transaction sees them. `age` is None for an
      unreadable stamp; `weight` is the shared time-decay weight; `norm` folds case and
      white space; `lower` folds case. */
  datatype Env = Env(
    maxUnits: int,
    ttlSeconds: int,
    age: int -> Option<real>,
    weight: (int, int) -> real,
    norm: string -> string,
    lower: string -> string)

  const MIN_DECAY_EVICT: real := 0.01
  const SUPPORT_HORIZON_CAP := 4
  const VERDICTS := ["true_positive", "false_positive", "suspicious", "clean", "unknown"]
  const ANALYST_SOURCES := ["manual", "verdict", "analyst"]

  function MaxUnitsPerSubject(env: Env): (cap: int)
    ensures (env.maxUnits >= 1 ==> cap == env.maxUnits) && (env.maxUnits == 0 ==> cap == 50) && (env.maxUnits < 0 ==> cap == 1)
  {
    Max(1, if env.maxUnits == 0 then 50 else env.maxUnits)
  }

  /** `int(support_count or 1)`. */
  function Support(u: Row): int { if u.support == 0 then 1 else u.support }

  predicate Tainted(p: Provenance) { p == AlertText || p == ToolOutput }

  predicate Protected(u: Row) {
    || u.invalidatedBy != ""
    || (u.kind == Decision && u.utype == World && !u.tainted && u.provenance == Analyst)
  }

  function RetentionHorizon(env: Env, u: Row): int {
    if env.ttlSeconds <= 0 then 0
    else env.ttlSeconds * Max(1, Min(Support(u), SUPPORT_HORIZON_CAP))
  }

  predicate Evictable(env: Env, u: Row) {
    && !Protected(u)
    && RetentionHorizon(env, u) > 0
    && env.age(u.lastSeen).Some?
    && env.age(u.lastSeen).value > RetentionHorizon(env, u) as real
    && env.weight(u.firstSeen, u.lastSeen) < MIN_DECAY_EVICT
  }

  function SubjectIds(t: Table, subject: string): set<int> {
    set id | id in t && t[id].subject == subject
  }

  function CountOf(t: Table, subject: string): nat { |SubjectIds(t, subject)| }

  ghost predicate KeyStored(t: Table, key: DedupeKey) {
    key != NoKey && exists id :: id in t && t[id].key == key
  }

  /** Primary key, partial unique index, and the counter every writer starts at one. */
  ghost predicate WellFormed(t: Table) {
    && (forall id :: id in t ==> t[id].id == id && t[id].support >= 1)
    && (forall i, j :: i in t && j in t && t[i].key == t[j].key != NoKey ==> i == j)
  }

  /** No two rows share an id. */
  ghost predicate Distinct(rows: seq<Row>) {
    forall i, j :: 0 <= i < j < |rows| ==> rows[i].id != rows[j].id
  }

  /** `rows` is one reading of the subject's rows, in any order the engine likes. */
  ghost predicate Enumerates(rows: seq<Row>, t: Table, subject: string) {
    && (forall i :: 0 <= i < |rows| ==> rows[i].id in t && t[rows[i].id] == rows[i] && rows[i].subject == subject)
    && Distinct(rows)
    && (forall id :: id in t && t[id].subject == subject ==> t[id] in rows)
  }

  lemma {:induction false} DistinctIds(rows: seq<Row>)
    requires Distinct(rows)
    ensures |set r | r in rows :: r.id| == |rows|
  {
    if rows != [] {
      var n := |rows| - 1;
      var head := rows[..n];
      assert rows == head + [rows[n]];
      DistinctIds(head);
      var ids := set r | r in head :: r.id;
      assert rows[n].id !in ids;
      assert (set r | r in rows :: r.id) == ids + {rows[n].id};
    }
  }

  lemma EnumerationSize(rows: seq<Row>, t: Table, subject: string)
    requires Enumerates(rows, t, subject) && forall id :: id in t ==> t[id].id == id
    ensures |rows| == CountOf(t, subject)
  {
    DistinctIds(rows);
    var ids := set r | r in rows :: r.id;
    forall id | id in SubjectIds(t, subject) ensures id in ids {
      assert t[id] in rows && t[id].id == id;
    }
    assert ids == SubjectIds(t, subject);
  }

  ghost function RowsOf(t: Table, ids: set<int>): (rows: seq<Row>)
    requires ids <= t.Keys && forall id :: id in t ==> t[id].id == id
    ensures forall u :: u in rows <==> u.id in ids && t[u.id] == u
    ensures Distinct(rows)
  {
    if ids == {} then []
    else var x := Pick(ids); [t[x]] + RowsOf(t, ids - {x})
  }

  lemma ReadingExists(t: Table, subject: string)
    requires WellFormed(t)
    ensures Enumerates(RowsOf(t, SubjectIds(t, subject)), t, subject)
  {
    var rows := RowsOf(t, SubjectIds(t, subject));
    forall i | 0 <= i < |rows|
      ensures rows[i].id in t && t[rows[i].id] == rows[i] && rows[i].subject == subject
    {
      assert rows[i] in rows;
    }
    forall id | id in t && t[id].subject == subject ensures t[id] in rows {
      assert id in SubjectIds(t, subject);
    }
  }
}
