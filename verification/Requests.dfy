/** The table update_requests: its rows, the single SQL statements the storage issues, and
    CreateUpdateRequest as a machine that takes one step per statement
    (internal/storage/postgres/storage.go, migrations/0001_init.sql).
    A row's id is its position in the table: ids are fresh and rows are never deleted. */
module Requests {
  import opened Wrappers
  import opened Domain
  import opened Utf8

  datatype Status = Pending | Completed | Failed

  /** A stored row; the pair is kept as text, as the column is. */
  datatype Row = Row(
    pair: string, key: Option<Bytes>, status: Status,
    price: Option<real>, error: Option<Bytes>, createdAt: int, updatedAt: int)

  /** What a query returns to the service. */
  datatype Request = Request(
    id: nat, pair: Pair, status: Status,
    price: Option<real>, error: Option<Bytes>, createdAt: int, updatedAt: int)

  datatype Where = ByKey(key: Bytes) | PendingPair(pair: string)

  predicate Matches(row: Row, w: Where) {
    match w
    case ByKey(k) => row.key == Some(k)
    case PendingPair(p) => row.pair == p && row.status == Pending
  }

  // ---------- table constraints ----------

  predicate ShapeOk(row: Row) {
    match row.status
    case Pending => row.price == None && row.error == None
    case Completed => row.price.Some? && row.error == None
    case Failed => row.price == None && row.error.Some?
  }

  /** The stored text is the printed form of a valid pair, so scanning it cannot fail. */
  ghost predicate Readable(text: string) {
    exists p: Pair :: ValidPair(p) && p.ToString() == text
  }

  predicate KeyOk(row: Row) {
    row.key.Some? ==> Storable(row.key.value)
  }

  ghost predicate UniqueKeys(rows: seq<Row>) {
    forall i, j :: 0 <= i < j < |rows| && rows[i].key.Some? ==> rows[i].key != rows[j].key
  }

  ghost predicate UniquePending(rows: seq<Row>) {
    forall i, j :: 0 <= i < j < |rows| && rows[i].status == Pending && rows[j].status == Pending
      ==> rows[i].pair != rows[j].pair
  }

  ghost predicate TableOk(rows: seq<Row>) {
    && UniqueKeys(rows)
    && UniquePending(rows)
    && (forall i :: 0 <= i < |rows| ==> ShapeOk(rows[i]) && Readable(rows[i].pair) && KeyOk(rows[i]))
  }

  // ---------- how a table may change ----------

  /** One row over time: identity never changes, a terminal row never changes at all. */
  predicate RowEvolves(a: Row, b: Row) {
    && a.pair == b.pair && a.key == b.key && a.createdAt == b.createdAt
    && (a.status != Pending || b.status == Pending ==> a == b)
  }

  ghost predicate Evolves(a: seq<Row>, b: seq<Row>) {
    |a| <= |b| && forall i :: 0 <= i < |a| ==> RowEvolves(a[i], b[i])
  }

  // ---------- single statements ----------

  /** Whether a statement's effect and reply arrive: a lost connection may strike before the
      effect or after it. */
  datatype Fault = NoFault | LostBefore | LostAfter

  function First(rows: seq<Row>, w: Where, from: nat := 0): (r: Option<nat>)
    ensures r.Some? ==> from <= r.value < |rows| && Matches(rows[r.value], w)
    ensures r.Some? ==> forall i :: from <= i < r.value ==> !Matches(rows[i], w)
    ensures r.None? ==> forall i :: from <= i < |rows| ==> !Matches(rows[i], w)
    decreases |rows| - from
  {
    if from >= |rows| then None
    else if Matches(rows[from], w) then Some(from)
    else First(rows, w, from + 1)
  }

  datatype Answer = Broken | Missing | Found(req: Request)

  function Scan(id: nat, row: Row): Answer {
    match ParsePair(row.pair)
    case Failure(_) => Broken
    case Success(p) => Found(Request(id, p, row.status, row.price, row.error, row.createdAt, row.updatedAt))
  }

  /** The database refuses a key that is not a text. */
  predicate Refused(w: Where) {
    w.ByKey? && !Storable(w.key)
  }

  function SelectOne(rows: seq<Row>, w: Where, fault: Fault): Answer {
    if fault != NoFault || Refused(w) then Broken
    else match First(rows, w)
      case None => Missing
      case Some(i) => Scan(i, rows[i])
  }

  function NullIf(key: Bytes): Option<Bytes> {
    if key == [] then None else Some(key)
  }

  function NewRow(pair: string, key: Bytes, now: int): Row {
    Row(pair, NullIf(key), Pending, None, None, now, now)
  }

  /** A row that either unique index would clash with; the pending index is asked first. */
  function Conflict(rows: seq<Row>, pair: string, key: Bytes): (r: Option<nat>)
    ensures r.Some? ==> r.value < |rows|
  {
    var p := First(rows, PendingPair(pair));
    if p.Some? || key == [] then p else First(rows, ByKey(key))
  }

  datatype InsertReply = Inserted(req: Request) | Violation(hit: nat) | InsertBroken

  function Insert(rows: seq<Row>, pair: string, key: Bytes, now: int, fault: Fault): (seq<Row>, InsertReply) {
    var row := NewRow(pair, key, now);
    if fault == LostBefore || !Storable(key) then (rows, InsertBroken)
    else match Conflict(rows, pair, key)
      case Some(hit) => (rows, if fault == NoFault then Violation(hit) else InsertBroken)
      case None =>
        (rows + [row],
          match Scan(|rows|, row)
          case Found(req) => if fault == NoFault then Inserted(req) else InsertBroken
          case _ => InsertBroken)
  }

  predicate IsPendingId(rows: seq<Row>, id: nat) {
    id < |rows| && rows[id].status == Pending
  }

  /** UPDATE ... SET status = 'completed' ... WHERE id = $1 AND status = 'pending' */
  function CompleteRow(rows: seq<Row>, id: nat, price: real, at: int, fault: Fault): seq<Row> {
    if fault == LostBefore || !IsPendingId(rows, id) then rows
    else rows[id := rows[id].(status := Completed, price := Some(price), error := None, updatedAt := at)]
  }

  /** The text a failed row shows: the reason cut to 500 bytes. */
  function ErrorText(reason: Bytes): Bytes {
    Cut(reason, 500)
  }

  /** UPDATE ... SET status = 'failed' ... WHERE id = $1 AND status = 'pending'. The statement is
      refused, like one that met a fault, if the cut text is malformed. */
  function FailRow(rows: seq<Row>, id: nat, reason: Bytes, now: int, fault: Fault): seq<Row> {
    if fault == LostBefore || !IsPendingId(rows, id) || !Storable(ErrorText(reason)) then rows
    else rows[id := rows[id].(status := Failed, error := Some(ErrorText(reason)), updatedAt := now)]
  }

  // ---------- CreateUpdateRequest, one step per statement ----------

  datatype Outcome = Returned(req: Request, created: bool) | QueryError | InsertError

  datatype Pc =
    | CheckKey
    | CheckPending
    | Inserting
    | RecoverPending(hit: nat)
    | RecoverKey(hit: nat)
    | Done(outcome: Outcome)

  /** `clean` remembers that no statement of this call met a fault; `hit` inside the program
      counter remembers the row the insert clashed with. Neither is read by the code. */
  datatype Call = Call(pair: Pair, key: Bytes, pc: Pc, clean: bool)

  function NewCall(pair: Pair, key: Bytes): Call {
    Call(pair, key, if key != [] then CheckKey else CheckPending, true)
  }

  function CallStep(rows: seq<Row>, c: Call, fault: Fault, now: int): (seq<Row>, Call)
    requires !c.pc.Done?
  {
    var d := c.(clean := c.clean && fault == NoFault);
    match c.pc
    case CheckKey =>
      (rows, d.(pc := match SelectOne(rows, ByKey(c.key), fault)
                      case Broken => Done(QueryError)
                      case Found(req) => Done(Returned(req, false))
                      case Missing => CheckPending))
    case CheckPending =>
      (rows, d.(pc := match SelectOne(rows, PendingPair(c.pair.ToString()), fault)
                      case Broken => Done(QueryError)
                      case Found(req) => Done(Returned(req, false))
                      case Missing => Inserting))
    case Inserting =>
      var (rows', reply) := Insert(rows, c.pair.ToString(), c.key, now, fault);
      (rows', d.(pc := match reply
                       case Inserted(req) => Done(Returned(req, true))
                       case Violation(hit) => RecoverPending(hit)
                       case InsertBroken => Done(InsertError)))
    case RecoverPending(hit) =>
      (rows, d.(pc := match SelectOne(rows, PendingPair(c.pair.ToString()), fault)
                      case Found(req) => Done(Returned(req, false))
                      case _ => if c.key != [] then RecoverKey(hit) else Done(InsertError)))
    case RecoverKey(hit) =>
      (rows, d.(pc := match SelectOne(rows, ByKey(c.key), fault)
                      case Found(req) => Done(Returned(req, false))
                      case _ => Done(InsertError)))
  }

  // ---------- every statement keeps the constraints ----------

  lemma AppendKeeps(rows: seq<Row>, row: Row)
    requires TableOk(rows)
    requires ShapeOk(row) && Readable(row.pair) && KeyOk(row) && row.status == Pending
    requires forall i :: 0 <= i < |rows| ==> !Matches(rows[i], PendingPair(row.pair))
    requires row.key.Some? ==> forall i :: 0 <= i < |rows| ==> !Matches(rows[i], ByKey(row.key.value))
    ensures TableOk(rows + [row]) && Evolves(rows, rows + [row])
  {
  }

  lemma UpdateKeeps(rows: seq<Row>, id: nat, row: Row)
    requires TableOk(rows) && IsPendingId(rows, id)
    requires ShapeOk(row) && RowEvolves(rows[id], row) && row.status != Pending
    ensures TableOk(rows[id := row]) && Evolves(rows, rows[id := row])
  {
  }

  lemma InsertKeeps(rows: seq<Row>, pair: Pair, key: Bytes, now: int, fault: Fault)
    requires TableOk(rows) && ValidPair(pair)
    ensures var rows' := Insert(rows, pair.ToString(), key, now, fault).0;
      TableOk(rows') && Evolves(rows, rows')
  {
    var text := pair.ToString();
    hide Storable;
    if fault != LostBefore && Storable(key) && Conflict(rows, text, key).None? {
      AppendKeeps(rows, NewRow(text, key, now));
    }
  }

  lemma CompleteKeeps(rows: seq<Row>, id: nat, price: real, at: int, fault: Fault)
    requires TableOk(rows)
    ensures var rows' := CompleteRow(rows, id, price, at, fault);
      TableOk(rows') && Evolves(rows, rows') && |rows'| == |rows|
  {
    if CompleteRow(rows, id, price, at, fault) != rows {
      UpdateKeeps(rows, id, rows[id].(status := Completed, price := Some(price), error := None, updatedAt := at));
    }
  }

  lemma FailKeeps(rows: seq<Row>, id: nat, reason: Bytes, now: int, fault: Fault)
    requires TableOk(rows)
    ensures var rows' := FailRow(rows, id, reason, now, fault);
      TableOk(rows') && Evolves(rows, rows') && |rows'| == |rows|
  {
    if FailRow(rows, id, reason, now, fault) != rows {
      UpdateKeeps(rows, id, rows[id].(status := Failed, error := Some(ErrorText(reason)), updatedAt := now));
    }
  }

  lemma EvolvesReflexive(rows: seq<Row>)
    ensures Evolves(rows, rows)
  {
  }

  lemma EvolvesTransitive(a: seq<Row>, b: seq<Row>, c: seq<Row>)
    requires Evolves(a, b) && Evolves(b, c)
    ensures Evolves(a, c)
  {
    forall i | 0 <= i < |a| ensures RowEvolves(a[i], c[i]) {
      assert RowEvolves(a[i], b[i]) && RowEvolves(b[i], c[i]);
    }
  }

  /** The request a caller or a worker holds is a snapshot of its row taken at some time. */
  ghost predicate SnapshotOf(req: Request, id: nat, row: Row) {
    && req.id == id && req.pair.ToString() == row.pair
    && req.status == row.status && req.price == row.price && req.error == row.error
    && req.createdAt == row.createdAt && req.updatedAt == row.updatedAt
  }

  /** On a sound table a fault-free lookup finds a matching row if there is one, and returns it
      faithfully; it fails exactly on a key the database refuses. */
  lemma SelectOneExact(rows: seq<Row>, w: Where)
    requires TableOk(rows)
    ensures var a := SelectOne(rows, w, NoFault);
      && (a.Broken? <==> Refused(w))
      && (a.Missing? <==> !Refused(w) && forall i :: 0 <= i < |rows| ==> !Matches(rows[i], w))
      && (a.Found? <==> exists i :: 0 <= i < |rows| && Matches(rows[i], w))
      && (a.Found? ==> ValidPair(a.req.pair) && a.req.id < |rows| && Matches(rows[a.req.id], w))
      && (a.Found? ==> SnapshotOf(a.req, a.req.id, rows[a.req.id]))
  {
    hide Storable, ParsePair, Readable, UniqueKeys, UniquePending;
    var f := First(rows, w);
    if f.Some? {
      ScanReads(f.value, rows[f.value]);
      assert KeyOk(rows[f.value]);
    }
    assert forall i :: 0 <= i < |rows| && Matches(rows[i], w) ==> KeyOk(rows[i]);
  }

  lemma ScanReads(id: nat, row: Row)
    requires Readable(row.pair)
    ensures var a := Scan(id, row);
      a.Found? && SnapshotOf(a.req, id, row) && ValidPair(a.req.pair)
  {
    var p: Pair :| ValidPair(p) && p.ToString() == row.pair;
    RoundTrip(p);
  }

  /** At most one row carries a given key, at most one is pending for a given pair. */
  lemma MatchUnique(rows: seq<Row>, w: Where, i: nat, j: nat)
    requires TableOk(rows) && i < |rows| && j < |rows|
    requires Matches(rows[i], w) && Matches(rows[j], w)
    ensures i == j
  {
  }
}
