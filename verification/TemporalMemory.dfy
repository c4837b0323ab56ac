/**
 The temporal memory store: the `memory_items` table and the three operations on it.

 The table is a map keyed by the primary key. Rows carry a validity interval
 [validFrom, validTo); a row with no validTo is live. Timestamps are integers taken from one
 clock, passed to every operation as `now`.
 */
module TemporalMemory {
  import opened Wrappers

  type Uuid = nat
  type Time = int
  type Vector = seq<real>

  const EMBEDDING_DIM: nat := 1536

  datatype MemoryItem = MemoryItem(
    content: string,
    scope: string,
    embedding: Option<Vector>,
    encoderId: Option<string>,
    source: string,
    validFrom: Option<Time>,
    validTo: Option<Time>,
    id: string)

  datatype Row = Row(
    scope: string,
    content: string,
    embedding: Vector,
    encoderId: string,
    source: string,
    validFrom: Time,
    validTo: Option<Time>)

  type Table = map<Uuid, Row>

  datatype Insertion = Insertion(id: Uuid, row: Row)

  type Matcher = MemoryItem -> bool

  /** The exceptions an operation can end with; none of them has touched the table. */
  datatype StoreError = AssertionError | ValueError | DatabaseError | Outage

  /** What the store calls but does not define: the encoder, UUID text, and the distance operator. */
  datatype Externals = Externals(
    encode: seq<string> -> seq<Vector>,
    parseUuid: string -> Option<Uuid>,
    showUuid: Uuid -> string,
    distance: (Vector, Vector) -> real,
    encoderId: string)

  // ---------------------------------------------------------------- inserting

  function Embed(env: Externals, texts: seq<string>): Result<seq<Vector>, StoreError> {
    var vectors := env.encode(texts);
    if forall v <- vectors :: |v| == EMBEDDING_DIM then Success(vectors) else Failure(AssertionError)
  }

  function Contents(items: seq<MemoryItem>): seq<string> {
    seq(|items|, i requires 0 <= i < |items| => items[i].content)
  }

  /** The row of one item: the `scope` argument wins over `item.scope`, `item.validTo` is ignored. */
  function NewRow(env: Externals, item: MemoryItem, vector: Vector, scope: string, now: Time): Row {
    Row(scope, item.content, vector, env.encoderId, item.source,
        if item.validFrom.Some? then item.validFrom.value else now, None)
  }

  /** The strict zip of items and vectors; a bad UUID and a length mismatch are both a ValueError. */
  function ZipRows(env: Externals, items: seq<MemoryItem>, vectors: seq<Vector>, scope: string, now: Time)
    : Result<seq<Insertion>, StoreError>
  {
    if items == [] && vectors == [] then Success([])
    else if items == [] || vectors == [] then Failure(ValueError)
    else
      match env.parseUuid(items[0].id)
      case None => Failure(ValueError)
      case Some(id) =>
        var rest :- ZipRows(env, items[1..], vectors[1..], scope, now);
        Success([Insertion(id, NewRow(env, items[0], vectors[0], scope, now))] + rest)
  }

  function PrepareRows(env: Externals, items: seq<MemoryItem>, scope: string, now: Time)
    : Result<seq<Insertion>, StoreError>
  {
    if items == [] then Success([])
    else
      var vectors :- Embed(env, Contents(items));
      ZipRows(env, items, vectors, scope, now)
  }

  /** INSERT ... ON CONFLICT (id) DO NOTHING. */
  function InsertRow(t: Table, ins: Insertion): Table {
    if ins.id in t then t else t[ins.id := ins.row]
  }

  function InsertAll(t: Table, rows: seq<Insertion>): Table
    decreases |rows|
  {
    if rows == [] then t else InsertAll(InsertRow(t, rows[0]), rows[1..])
  }

  function Remembered(env: Externals, t: Table, items: seq<MemoryItem>, scope: string, now: Time): Table {
    match PrepareRows(env, items, scope, now)
    case Success(rows) => InsertAll(t, rows)
    case Failure(_) => t
  }

  /** The rows of a remember call, unless there are some and the encoder or the database raises. */
  function Offered(env: Externals, items: seq<MemoryItem>, scope: string, now: Time, outage: bool)
    : Result<seq<Insertion>, StoreError>
  {
    if items != [] && outage then Failure(Outage) else PrepareRows(env, items, scope, now)
  }

  function AfterRemember(env: Externals, t: Table, items: seq<MemoryItem>, scope: string, now: Time, outage: bool)
    : Table
  {
    match Offered(env, items, scope, now, outage)
    case Success(rows) => InsertAll(t, rows)
    case Failure(_) => t
  }

  function IdsOf(rows: seq<Insertion>): set<Uuid> {
    set i | 0 <= i < |rows| :: rows[i].id
  }

  /** First write wins: old rows are kept as they are, and a new id gets the first row offered for it. */
  lemma {:induction false} FirstWriteWins(t: Table, rows: seq<Insertion>)
    ensures InsertAll(t, rows).Keys == t.Keys + IdsOf(rows)
    ensures forall id <- t :: InsertAll(t, rows)[id] == t[id]
    ensures forall i :: 0 <= i < |rows| && rows[i].id !in t && (forall j :: 0 <= j < i ==> rows[j].id != rows[i].id)
                        ==> InsertAll(t, rows)[rows[i].id] == rows[i].row
    decreases |rows|
  {
    if rows != [] {
      var t', rest := InsertRow(t, rows[0]), rows[1..];
      FirstWriteWins(t', rest);
      assert IdsOf(rows) == {rows[0].id} + IdsOf(rest) by {
        forall id | id in IdsOf(rows) ensures id in {rows[0].id} + IdsOf(rest) {
          var i :| 0 <= i < |rows| && rows[i].id == id;
          assert i > 0 ==> rest[i - 1].id == id;
        }
        assert forall i :: 0 <= i < |rest| ==> rest[i] == rows[i + 1];
      }
      forall i | 0 <= i < |rows| && rows[i].id !in t && (forall j :: 0 <= j < i ==> rows[j].id != rows[i].id)
        ensures InsertAll(t, rows)[rows[i].id] == rows[i].row
      {
        if i > 0 {
          assert rest[i - 1] == rows[i];
          assert forall j :: 0 <= j < i - 1 ==> rest[j] == rows[j + 1];
        }
      }
    }
  }

  /** The row of an item: the caller's scope, open, stamped with `now` unless the item brings its own stamp. */
  predicate IsRowOf(env: Externals, ins: Insertion, item: MemoryItem, vector: Vector, scope: string, now: Time) {
    && env.parseUuid(item.id) == Some(ins.id)
    && ins.row.scope == scope
    && ins.row.content == item.content
    && ins.row.embedding == vector
    && ins.row.encoderId == env.encoderId
    && ins.row.source == item.source
    && (if item.validFrom.Some? then item.validFrom == Some(ins.row.validFrom) else ins.row.validFrom == now)
    && ins.row.validTo.None?
  }

  lemma {:induction false} ZippedRowsAre(env: Externals, items: seq<MemoryItem>, vectors: seq<Vector>,
                                         scope: string, now: Time)
    ensures ZipRows(env, items, vectors, scope, now) == Failure(ValueError) || (
              && ZipRows(env, items, vectors, scope, now).Success?
              && |ZipRows(env, items, vectors, scope, now).value| == |items|)
    ensures ZipRows(env, items, vectors, scope, now).Success? <==>
            |items| == |vectors| && forall i :: 0 <= i < |items| ==> env.parseUuid(items[i].id).Some?
    ensures var r := ZipRows(env, items, vectors, scope, now);
            r.Success? ==> forall i :: 0 <= i < |items| ==> IsRowOf(env, r.value[i], items[i], vectors[i], scope, now)
  {
    if items != [] && vectors != [] {
      ZippedRowsAre(env, items[1..], vectors[1..], scope, now);
      assert forall i :: 0 < i < |items| ==> items[i] == items[1..][i - 1];
      assert forall i :: 0 < i < |vectors| ==> vectors[i] == vectors[1..][i - 1];
      assert forall i :: 0 <= i < |items| - 1 ==> items[1..][i] == items[i + 1];
    }
  }

  /**
   When a batch is accepted: the encoder gave one vector of the right size per item, and every id parses. A
   vector of the wrong size is found first. One row per item then, each the row of its item and its vector.
   */
  lemma PreparedRowsAre(env: Externals, items: seq<MemoryItem>, scope: string, now: Time)
    ensures |Contents(items)| == |items| && forall i :: 0 <= i < |items| ==> Contents(items)[i] == items[i].content
    ensures var vectors, r := env.encode(Contents(items)), PrepareRows(env, items, scope, now);
            var sized := forall v <- vectors :: |v| == 1536;
            && (r.Success? <==> items == [] || (sized && |vectors| == |items|
                                                && forall i :: 0 <= i < |items| ==> env.parseUuid(items[i].id).Some?))
            && (r.Failure? ==> r.error == if sized then ValueError else AssertionError)
            && (r.Success? ==>
                  && |r.value| == |items| && (items != [] ==> |vectors| == |items|)
                  && forall i :: 0 <= i < |items| ==> IsRowOf(env, r.value[i], items[i], vectors[i], scope, now))
  {
    ZippedRowsAre(env, items, env.encode(Contents(items)), scope, now);
  }

  // ---------------------------------------------------------------- reading and closing

  function LiveIds(t: Table, scope: string): set<Uuid> {
    set id | id in t && t[id].validTo.None? && t[id].scope == scope
  }

  function AllLive(t: Table): set<Uuid> {
    set id | id in t && t[id].validTo.None?
  }

  function ClosedIds(t: Table): set<Uuid> {
    set id | id in t && t[id].validTo.Some?
  }

  function RowToItem(env: Externals, id: Uuid, row: Row, scope: string, validTo: Option<Time> := None): MemoryItem {
    MemoryItem(row.content, scope, None, Some(row.encoderId), row.source, Some(row.validFrom), validTo,
               env.showUuid(id))
  }

  /** `item` shows a live row of `scope`: its text and source, its stamp and encoder, its id, and nothing else. */
  ghost predicate Shows(env: Externals, item: MemoryItem, id: Uuid, row: Row, scope: string) {
    && item.content == row.content
    && item.source == row.source
    && item.scope == scope
    && item.encoderId == Some(row.encoderId)
    && item.validFrom == Some(row.validFrom)
    && item.validTo.None?
    && item.embedding.None?
    && item.id == env.showUuid(id)
  }

  /** Remembering what was recalled changes nothing, in whatever scope and at whatever time: its ids are taken. */
  lemma RecalledItemsAreKnown(env: Externals, t: Table, ids: seq<Uuid>, from: string, into: string, now: Time)
    requires forall id <- ids :: id in t && env.parseUuid(env.showUuid(id)) == Some(id)
    ensures var items := seq(|ids|, i requires 0 <= i < |ids| && ids[i] in t =>
                               RowToItem(env, ids[i], t[ids[i]], from));
            Remembered(env, t, items, into, now) == t
  {
    var items := seq(|ids|, i requires 0 <= i < |ids| && ids[i] in t => RowToItem(env, ids[i], t[ids[i]], from));
    var r := PrepareRows(env, items, into, now);
    if items != [] && r.Success? {
      PreparedRowsAre(env, items, into, now);
      FirstWriteWins(t, r.value);
      forall id | id in IdsOf(r.value) ensures id in t {
        var i :| 0 <= i < |r.value| && r.value[i].id == id;
        assert ids[i] in ids && items[i].id == env.showUuid(ids[i]);
      }
    }
  }

  /** The ids an invalidate call selects: live rows of the scope that its predicate accepts. */
  function Selected(env: Externals, t: Table, scope: string, matches: Matcher): set<Uuid> {
    set id | id in LiveIds(t, scope) && matches(RowToItem(env, id, t[id], scope))
  }

  /** An invalidate call closes the live rows of its scope that pass its predicate as they are shown. */
  lemma PredicateSeesTheRow(env: Externals, t: Table, scope: string, matches: Matcher, now: Time, id: Uuid)
    requires id in t
    ensures Invalidated(env, t, scope, matches, now).Keys == t.Keys
    ensures var closes := t[id].scope == scope && t[id].validTo.None? && exists item ::
                            Shows(env, item, id, t[id], scope) && matches(item);
            Invalidated(env, t, scope, matches, now)[id] == if closes then t[id].(validTo := Some(now)) else t[id]
  {
    var shown := RowToItem(env, id, t[id], scope);
    assert Shows(env, shown, id, t[id], scope);
    assert forall item :: Shows(env, item, id, t[id], scope) ==> item == shown;
  }

  /** Invalidating by content closes exactly the live rows of the scope with that content. */
  lemma ClosesByContent(env: Externals, t: Table, scope: string, content: string, now: Time, id: Uuid)
    requires id in t
    ensures Invalidated(env, t, scope, (item: MemoryItem) => item.content == content, now)[id] ==
            if t[id].scope == scope && t[id].validTo.None? && t[id].content == content
            then t[id].(validTo := Some(now)) else t[id]
  {
    var matches: Matcher := (item: MemoryItem) => item.content == content;
    PredicateSeesTheRow(env, t, scope, matches, now, id);
    assert Shows(env, RowToItem(env, id, t[id], scope), id, t[id], scope);
  }

  /** UPDATE ... SET valid_to WHERE id = ANY(ids): it does not look at the old valid_to. */
  function Close(t: Table, ids: set<Uuid>, now: Time): Table {
    map id | id in t :: if id in ids then t[id].(validTo := Some(now)) else t[id]
  }

  function Invalidated(env: Externals, t: Table, scope: string, matches: Matcher, now: Time): Table {
    Close(t, Selected(env, t, scope, matches), now)
  }

  /** `ids` answers a top-k query: distinct live rows of the scope in distance order, as many as k and
      the scope allow, and no live row of the scope that was left out is strictly closer than one returned. */
  ghost predicate IsNearest(env: Externals, t: Table, scope: string, v: Vector, k: nat, ids: seq<Uuid>) {
    && |ids| == (if k < |LiveIds(t, scope)| then k else |LiveIds(t, scope)|)
    && (forall i, j :: 0 <= i < j < |ids| ==> ids[i] != ids[j])
    && (forall i :: 0 <= i < |ids| ==> ids[i] in LiveIds(t, scope))
    && (forall i, j :: 0 <= i < j < |ids| ==> Dist(env, t, ids[i], v) <= Dist(env, t, ids[j], v))
    && (forall id, i :: id in LiveIds(t, scope) && id !in ids && 0 <= i < |ids|
                        ==> Dist(env, t, ids[i], v) <= Dist(env, t, id, v))
  }

  function Dist(env: Externals, t: Table, id: Uuid, v: Vector): real {
    if id in t then env.distance(t[id].embedding, v) else 0.0
  }

  /** Nearest by the distance of their embeddings from the vector asked for. */
  lemma NearestByDistance(env: Externals, t: Table, scope: string, v: Vector, k: nat, ids: seq<Uuid>)
    requires IsNearest(env, t, scope, v, k, ids)
    ensures forall i :: 0 <= i < |ids| ==> ids[i] in t && t[ids[i]].scope == scope && t[ids[i]].validTo.None?
    ensures forall i, j :: 0 <= i < j < |ids| ==>
              ids[i] in t && ids[j] in t
              && env.distance(t[ids[i]].embedding, v) <= env.distance(t[ids[j]].embedding, v)
    ensures forall id, i :: id in t && t[id].scope == scope && t[id].validTo.None? && id !in ids && 0 <= i < |ids| ==>
              ids[i] in t && env.distance(t[ids[i]].embedding, v) <= env.distance(t[id].embedding, v)
  {
    forall i | 0 <= i < |ids| ensures ids[i] in t && t[ids[i]].scope == scope && t[ids[i]].validTo.None? {
      assert ids[i] in LiveIds(t, scope);
    }
    forall i, j | 0 <= i < j < |ids|
      ensures env.distance(t[ids[i]].embedding, v) <= env.distance(t[ids[j]].embedding, v)
    {
      assert Dist(env, t, ids[i], v) <= Dist(env, t, ids[j], v);
    }
    forall id, i | id in t && t[id].scope == scope && t[id].validTo.None? && id !in ids && 0 <= i < |ids|
      ensures env.distance(t[ids[i]].embedding, v) <= env.distance(t[id].embedding, v)
    {
      assert id in LiveIds(t, scope);
      assert Dist(env, t, ids[i], v) <= Dist(env, t, id, v);
    }
  }

  /** What a recall answers: such rows, each shown as it is. */
  ghost predicate Answers(env: Externals, t: Table, scope: string, v: Vector, k: nat,
                          ids: seq<Uuid>, items: seq<MemoryItem>)
  {
    && IsNearest(env, t, scope, v, k, ids)
    && |items| == |ids|
    && forall i :: 0 <= i < |ids| ==> ids[i] in t && Shows(env, items[i], ids[i], t[ids[i]], scope)
  }

  function IdSet(ids: seq<Uuid>): set<Uuid> {
    set id | id in ids
  }

  lemma {:induction false} DistinctCount(ids: seq<Uuid>)
    requires forall i, j :: 0 <= i < j < |ids| ==> ids[i] != ids[j]
    ensures |IdSet(ids)| == |ids|
    decreases |ids|
  {
    if ids != [] {
      var init, last := ids[..|ids| - 1], ids[|ids| - 1];
      DistinctCount(init);
      assert last !in init;
      assert IdSet(ids) == IdSet(init) + {last};
    }
  }

  /** With k at least the number of live rows, every one of them is answered. */
  lemma WideAnswersAreComplete(env: Externals, t: Table, scope: string, v: Vector, k: nat, ids: seq<Uuid>)
    requires IsNearest(env, t, scope, v, k, ids) && k >= |LiveIds(t, scope)|
    ensures forall id <- LiveIds(t, scope) :: id in ids
  {
    DistinctCount(ids);
    forall id | id in IdSet(ids) ensures id in LiveIds(t, scope) {
      var i :| 0 <= i < |ids| && ids[i] == id;
    }
    EqualBySize(IdSet(ids), LiveIds(t, scope));
  }

  lemma EqualBySize(a: set<Uuid>, b: set<Uuid>)
    requires a <= b && |a| >= |b|
    ensures a == b
  {
    assert |b - a| == |b| - |a|;
  }

  /**
   What is remembered is recalled: an item with a new id, in a batch that is accepted, is among the answers of any
   wide enough recall of that scope, with its own text and source, and its own stamp or the time of the call.
   */
  lemma RememberedIsRecalled(env: Externals, t: Table, batch: seq<MemoryItem>, n: nat, id: Uuid, scope: string,
                             now: Time, v: Vector, k: nat, ids: seq<Uuid>, items: seq<MemoryItem>)
    requires n < |batch| && PrepareRows(env, batch, scope, now).Success?
    requires env.parseUuid(batch[n].id) == Some(id) && id !in t
    requires forall i :: 0 <= i < n ==> env.parseUuid(batch[i].id) != Some(id)
    requires Answers(env, Remembered(env, t, batch, scope, now), scope, v, k, ids, items)
    requires k >= |LiveIds(Remembered(env, t, batch, scope, now), scope)|
    ensures exists j :: 0 <= j < |items|
                        && items[j].content == batch[n].content
                        && items[j].source == batch[n].source
                        && items[j].scope == scope
                        && items[j].encoderId == Some(env.encoderId)
                        && items[j].validFrom == (if batch[n].validFrom.Some? then batch[n].validFrom else Some(now))
                        && items[j].validTo.None?
                        && items[j].id == env.showUuid(id)
  {
    var rows, t' := PrepareRows(env, batch, scope, now).value, Remembered(env, t, batch, scope, now);
    PreparedRowsAre(env, batch, scope, now);
    assert rows[n].id == id && forall i :: 0 <= i < n ==> rows[i].id != id;
    FirstWriteWins(t, rows);
    assert t'[id] == rows[n].row;
    WideAnswersAreComplete(env, t', scope, v, k, ids);
    assert id in LiveIds(t', scope);
    var j :| 0 <= j < |ids| && ids[j] == id;
    assert Shows(env, items[j], id, t'[id], scope);
  }

  /** A nonempty finite set of rows has a closest one. */
  lemma {:induction false} ClosestExists(env: Externals, t: Table, ids: set<Uuid>, v: Vector)
    requires ids != {}
    ensures exists id :: id in ids && forall other <- ids :: Dist(env, t, id, v) <= Dist(env, t, other, v)
    decreases |ids|
  {
    var a :| a in ids;
    if ids != {a} {
      assert |ids - {a}| < |ids|;
      ClosestExists(env, t, ids - {a}, v);
      var b :| b in ids - {a} && forall other <- ids - {a} :: Dist(env, t, b, v) <= Dist(env, t, other, v);
      assert forall other <- ids :: other == a || other in ids - {a};
      var c := if Dist(env, t, a, v) <= Dist(env, t, b, v) then a else b;
      assert c in ids && forall other <- ids :: Dist(env, t, c, v) <= Dist(env, t, other, v);
    }
  }

  /** The selection in progress: `ids` picked in order, `left` still to pick, nothing left is closer. */
  ghost predicate NearestSoFar(env: Externals, t: Table, scope: string, v: Vector, left: set<Uuid>, ids: seq<Uuid>) {
    && (forall i, j :: 0 <= i < j < |ids| ==> ids[i] != ids[j])
    && (forall id :: id in LiveIds(t, scope) <==> id in left || id in ids)
    && (forall i :: 0 <= i < |ids| ==> ids[i] !in left)
    && (forall i, j :: 0 <= i < j < |ids| ==> Dist(env, t, ids[i], v) <= Dist(env, t, ids[j], v))
    && (forall id, i :: id in left && 0 <= i < |ids| ==> Dist(env, t, ids[i], v) <= Dist(env, t, id, v))
  }

  lemma NearestGrows(env: Externals, t: Table, scope: string, v: Vector, left: set<Uuid>, ids: seq<Uuid>, id: Uuid)
    requires NearestSoFar(env, t, scope, v, left, ids)
    requires id in left && forall other <- left :: Dist(env, t, id, v) <= Dist(env, t, other, v)
    ensures NearestSoFar(env, t, scope, v, left - {id}, ids + [id])
  {
    var ids' := ids + [id];
    forall x ensures x in LiveIds(t, scope) <==> x in left - {id} || x in ids' {
      assert x in ids' <==> x in ids || x == id;
    }
  }

  datatype RecallCall = RecallCall(query: string, scope: string, k: int)

  class PgVectorMemoryStore {
    const env: Externals
    var rows: Table

    // How often `Remember` was called, and the calls of `Recall`.
    ghost var remembers: nat
    ghost var recalls: seq<RecallCall>

    constructor (env: Externals)
      ensures this.env == env && rows == map[] && remembers == 0 && recalls == []
    {
      this.env := env;
      rows := map[];
      remembers, recalls := 0, [];
    }

    /** First write wins; every error leaves the table as it was. */
    method Remember(items: seq<MemoryItem>, scope: string, now: Time, outage: bool)
      returns (r: Result<(), StoreError>)
      modifies `rows, `remembers
      ensures remembers == old(remembers) + 1
      ensures rows == AfterRemember(env, old(rows), items, scope, now, outage)
      ensures !outage ==> rows == Remembered(env, old(rows), items, scope, now)
      ensures r.Success? <==> Offered(env, items, scope, now, outage).Success?
      ensures r.Failure? ==> rows == old(rows) && r.error == Offered(env, items, scope, now, outage).error
    {
      remembers := remembers + 1;
      if items == [] {
        return Success(());
      }
      if outage {
        return Failure(Outage);
      }
      var prepared := PrepareRows(env, items, scope, now);
      if prepared.Failure? {
        return Failure(prepared.error);
      }
      var n := 0;
      while n < |prepared.value|
        invariant 0 <= n <= |prepared.value| && remembers == old(remembers) + 1
        invariant InsertAll(old(rows), prepared.value) == InsertAll(rows, prepared.value[n..])
      {
        var ins := prepared.value[n];
        assert prepared.value[n..][1..] == prepared.value[n + 1..];
        if ins.id !in rows {
          rows := rows[ins.id := ins.row];
        }
        n := n + 1;
      }
      r := Success(());
    }

    /** SELECT ... WHERE scope AND live ORDER BY distance LIMIT k; rows of other encoders are not filtered out. */
    method SelectNearest(scope: string, v: Vector, k: nat) returns (ids: seq<Uuid>)
      ensures IsNearest(env, rows, scope, v, k, ids)
    {
      ids := [];
      var left := LiveIds(rows, scope);
      while left != {} && |ids| < k
        invariant |ids| <= k
        invariant |left| + |ids| == |LiveIds(rows, scope)|
        invariant NearestSoFar(env, rows, scope, v, left, ids)
        decreases left
      {
        ClosestExists(env, rows, left, v);
        var id :| id in left && forall other <- left :: Dist(env, rows, id, v) <= Dist(env, rows, other, v);
        NearestGrows(env, rows, scope, v, left, ids, id);
        left := left - {id};
        ids := ids + [id];
      }
    }

    method Recall(query: string, scope: string, k: int, outage: bool)
      returns (r: Result<seq<MemoryItem>, StoreError>, ghost ids: seq<Uuid>)
      modifies `recalls
      ensures recalls == old(recalls) + [RecallCall(query, scope, k)]
      ensures r.Success? <==> !outage && k >= 0 && Embed(env, [query]).Success? && |env.encode([query])| == 1
      ensures r.Success? ==> Answers(env, rows, scope, env.encode([query])[0], k, ids, r.value)
    {
      ids, recalls := [], recalls + [RecallCall(query, scope, k)];
      if outage {
        return Failure(Outage), [];
      }
      var vectors := Embed(env, [query]);
      if vectors.Failure? {
        return Failure(vectors.error), [];
      }
      if |vectors.value| != 1 {
        return Failure(ValueError), [];
      }
      if k < 0 {
        return Failure(DatabaseError), [];
      }
      var records := SelectNearest(scope, vectors.value[0], k);
      var table := rows;
      var items := seq(|records|, i requires 0 <= i < |records| && records[i] in table =>
        RowToItem(env, records[i], table[records[i]], scope, table[records[i]].validTo));
      forall i | 0 <= i < |records|
        ensures items[i] == RowToItem(env, records[i], rows[records[i]], scope)
      {
        assert records[i] in LiveIds(rows, scope);
      }
      ids := records;
      r := Success(items);
    }

    /** Closes exactly the selected live rows and returns how many there were. */
    method Invalidate(scope: string, matches: Matcher, now: Time) returns (n: nat)
      modifies `rows
      ensures rows == Invalidated(env, old(rows), scope, matches, now)
      ensures n == |Selected(env, old(rows), scope, matches)|
    {
      var toClose := set id | id in LiveIds(rows, scope) && matches(RowToItem(env, id, rows[id], scope));
      assert toClose == Selected(env, rows, scope, matches);
      if toClose == {} {
        assert Close(rows, toClose, now) == rows;
        return 0;
      }
      rows := Close(rows, toClose, now);
      return |toClose|;
    }
  }
}
