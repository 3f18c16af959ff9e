/** The storage object (internal/storage/postgres/storage.go): each method runs its statements
    one after another on the shared tables, and other clients' statements may run in between. */
module Storage {
  import opened Wrappers
  import opened Domain
  import opened Requests
  import opened Utf8

  datatype Quote = Quote(price: real, updatedAt: int)

  /** A statement of some other client. */
  datatype Statement =
    | InsertStmt(pair: Pair, key: Bytes, now: int)
    | CompleteStmt(id: nat, price: real, at: int)
    | FailStmt(id: nat, reason: Bytes, now: int)

  function Execute(rows: seq<Row>, st: Statement): seq<Row> {
    match st
    case InsertStmt(pair, key, now) => Insert(rows, pair.ToString(), key, now, NoFault).0
    case CompleteStmt(id, price, at) => CompleteRow(rows, id, price, at, NoFault)
    case FailStmt(id, reason, now) => FailRow(rows, id, reason, now, NoFault)
  }

  function ExecuteAll(rows: seq<Row>, sts: seq<Statement>): seq<Row>
    decreases |sts|
  {
    if sts == [] then rows else ExecuteAll(Execute(rows, sts[0]), sts[1..])
  }

  ghost predicate Lawful(sts: seq<Statement>) {
    forall i :: 0 <= i < |sts| && sts[i].InsertStmt? ==> ValidPair(sts[i].pair)
  }

  /** What happens around one statement of a call: what others do first, whether the statement
      meets a fault, and what the database clock says. */
  datatype Beat = Beat(others: seq<Statement>, fault: Fault, now: int)

  /** A whole call: the step machine, with other clients running before each step. */
  function RunCall(rows: seq<Row>, c: Call, beats: seq<Beat>): (seq<Row>, Call)
    decreases |beats|
  {
    if c.pc.Done? || beats == [] then (rows, c)
    else
      var r := CallStep(ExecuteAll(rows, beats[0].others), c, beats[0].fault, beats[0].now);
      RunCall(r.0, r.1, beats[1..])
  }

  /** One step of the machine, for a call that has reached its beat `b`. */
  lemma Advance(rows: seq<Row>, c: Call, beats: seq<Beat>, b: nat)
    requires b < |beats| && !c.pc.Done?
    ensures var r := CallStep(ExecuteAll(rows, beats[b].others), c, beats[b].fault, beats[b].now);
      RunCall(rows, c, beats[b..]) == RunCall(r.0, r.1, beats[b + 1..])
  {
    assert beats[b..][1..] == beats[b + 1..];
  }

  /** The request a call reports as created is for the pair of the call. */
  lemma {:induction false} CreatedIsOwn(rows: seq<Row>, c: Call, beats: seq<Beat>)
    requires ValidPair(c.pair) && !c.pc.Done?
    ensures var pc := RunCall(rows, c, beats).1.pc;
      pc.Done? && pc.outcome.Returned? && pc.outcome.created ==> pc.outcome.req.pair == c.pair
    decreases |beats|
  {
    hide ParsePair, SelectOne, ExecuteAll;
    if beats != [] {
      var now := ExecuteAll(rows, beats[0].others);
      var r := CallStep(now, c, beats[0].fault, beats[0].now);
      RoundTrip(c.pair);
      if r.1.pc.Done? {
        DoneStays();
      } else {
        CreatedIsOwn(r.0, r.1, beats[1..]);
      }
    }
  }

  lemma DoneStays()
    ensures forall rows: seq<Row>, c: Call, beats: seq<Beat> :: c.pc.Done? ==> RunCall(rows, c, beats) == (rows, c)
  {
  }

  /** Other clients get done what they set out to do: a free pair gets its row, and a pending row is
      settled with their price or their reason. */
  lemma OthersAct(rows: seq<Row>, st: Statement)
    requires TableOk(rows) && Lawful([st])
    ensures var after := Execute(rows, st);
      match st
      case InsertStmt(pair, key, now) =>
        var free := forall i :: 0 <= i < |rows| ==>
          !Matches(rows[i], PendingPair(pair.ToString())) && (key == [] || !Matches(rows[i], ByKey(key)));
        if free && Storable(key) then after == rows + [NewRow(pair.ToString(), key, now)] else after == rows
      case CompleteStmt(id, price, at) =>
        IsPendingId(rows, id) ==>
          after[id].status == Completed && after[id].price == Some(price) && after[id].updatedAt == at
      case FailStmt(id, reason, now) =>
        IsPendingId(rows, id) && Storable(Cut(reason, 500)) ==>
          after[id].status == Failed && after[id].error == Some(Cut(reason, 500)) && after[id].updatedAt == now
  {
    hide Storable, ParsePair;
    if st.InsertStmt? {
      assert ValidPair([st][0].pair);
      RoundTrip(st.pair);
    }
  }

  lemma {:induction false} ExecuteAllKeeps(rows: seq<Row>, sts: seq<Statement>)
    requires TableOk(rows) && Lawful(sts)
    ensures TableOk(ExecuteAll(rows, sts)) && Evolves(rows, ExecuteAll(rows, sts))
    decreases |sts|
  {
    if sts != [] {
      match sts[0] {
        case InsertStmt(pair, key, now) => InsertKeeps(rows, pair, key, now, NoFault);
        case CompleteStmt(id, price, at) => CompleteKeeps(rows, id, price, at, NoFault);
        case FailStmt(id, reason, now) => FailKeeps(rows, id, reason, now, NoFault);
      }
      var next := Execute(rows, sts[0]);
      ExecuteAllKeeps(next, sts[1..]);
      EvolvesTransitive(rows, next, ExecuteAll(next, sts[1..]));
    }
  }

  class Storage {
    var rows: seq<Row>
    var quotes: map<string, Quote>

    constructor (rows: seq<Row>, quotes: map<string, Quote>)
      ensures this.rows == rows && this.quotes == quotes
    {
      this.rows := rows;
      this.quotes := quotes;
    }

    /** Other clients' statements, in the order given. */
    method Interfere(sts: seq<Statement>)
      modifies this`rows
      ensures rows == ExecuteAll(old(rows), sts)
    {
      var k := 0;
      while k < |sts|
        invariant 0 <= k <= |sts|
        invariant ExecuteAll(rows, sts[k..]) == ExecuteAll(old(rows), sts)
      {
        rows := Execute(rows, sts[k]);
        k := k + 1;
      }
    }

    /** The scan behind a lookup by an indexed column. */
    method FindFirst(w: Where) returns (r: Option<nat>)
      ensures r == First(rows, w)
    {
      var i := 0;
      while i < |rows|
        invariant 0 <= i <= |rows|
        invariant First(rows, w) == First(rows, w, i)
      {
        if Matches(rows[i], w) {
          return Some(i);
        }
        i := i + 1;
      }
      return None;
    }

    method QueryRow(w: Where, fault: Fault) returns (a: Answer)
      ensures a == SelectOne(rows, w, fault)
    {
      if fault != NoFault || Refused(w) {
        return Broken;
      }
      var i := FindFirst(w);
      match i {
        case None => a := Missing;
        case Some(id) => a := Scan(id, rows[id]);
      }
    }

    method InsertRow(pair: string, key: Bytes, now: int, fault: Fault) returns (reply: InsertReply)
      modifies this`rows
      ensures (rows, reply) == Insert(old(rows), pair, key, now, fault)
    {
      hide First, Scan, NewRow, Matches, Storable;
      if fault == LostBefore || !Storable(key) {
        return InsertBroken;
      }
      var hit := FindFirst(PendingPair(pair));
      if hit.None? && key != [] {
        hit := FindFirst(ByKey(key));
      }
      if hit.Some? {
        return if fault == NoFault then Violation(hit.value) else InsertBroken;
      }
      var row := NewRow(pair, key, now);
      var a := Scan(|rows|, row);
      rows := rows + [row];
      reply := if a.Found? && fault == NoFault then Inserted(a.req) else InsertBroken;
    }

    /** Five statements at most, each preceded by whatever others do; the result and the final
        table are those of the step machine, for every interference and every fault. */
    method CreateUpdateRequest(pair: Pair, key: Bytes, beats: seq<Beat>) returns (outcome: Outcome)
      requires |beats| == 5
      modifies this`rows
      ensures var r := RunCall(old(rows), NewCall(pair, key), beats);
        r.0 == rows && r.1.pc == Done(outcome)
    {
      ghost var c := NewCall(pair, key);
      hide SelectOne, Insert, ExecuteAll, RunCall;
      DoneStays();
      assert beats == beats[0..];
      ghost var final := RunCall(rows, c, beats);
      var b: nat := 0;
      if key != [] {
        Advance(rows, c, beats, b);
        Interfere(beats[b].others);
        c := CallStep(rows, c, beats[b].fault, beats[b].now).1;
        var a := QueryRow(ByKey(key), beats[b].fault);
        b := b + 1;
        match a {
          case Broken => return QueryError;
          case Found(req) => return Returned(req, false);
          case Missing =>
        }
      }
      assert RunCall(rows, c, beats[b..]) == final && c.pc == CheckPending;

      Advance(rows, c, beats, b);
      Interfere(beats[b].others);
      c := CallStep(rows, c, beats[b].fault, beats[b].now).1;
      var p := QueryRow(PendingPair(pair.ToString()), beats[b].fault);
      b := b + 1;
      match p {
        case Broken => return QueryError;
        case Found(req) => return Returned(req, false);
        case Missing =>
      }
      assert RunCall(rows, c, beats[b..]) == final && c.pc == Inserting;

      Advance(rows, c, beats, b);
      Interfere(beats[b].others);
      c := CallStep(rows, c, beats[b].fault, beats[b].now).1;
      var reply := InsertRow(pair.ToString(), key, beats[b].now, beats[b].fault);
      b := b + 1;
      match reply {
        case Inserted(req) => return Returned(req, true);
        case InsertBroken => return InsertError;
        case Violation(_) =>
      }
      assert RunCall(rows, c, beats[b..]) == final && c.pc.RecoverPending?;

      Advance(rows, c, beats, b);
      Interfere(beats[b].others);
      c := CallStep(rows, c, beats[b].fault, beats[b].now).1;
      p := QueryRow(PendingPair(pair.ToString()), beats[b].fault);
      b := b + 1;
      if p.Found? {
        return Returned(p.req, false);
      }
      if key != [] {
        Advance(rows, c, beats, b);
        Interfere(beats[b].others);
        c := CallStep(rows, c, beats[b].fault, beats[b].now).1;
        var a := QueryRow(ByKey(key), beats[b].fault);
        if a.Found? {
          return Returned(a.req, false);
        }
      }
      return InsertError;
    }

    method CompleteUpdateRequest(id: nat, price: real, at: int, fault: Fault) returns (ok: bool)
      modifies this`rows
      ensures rows == CompleteRow(old(rows), id, price, at, fault) && ok == (fault == NoFault)
    {
      if fault != LostBefore && id < |rows| && rows[id].status == Pending {
        rows := rows[id := rows[id].(status := Completed, price := Some(price), error := None, updatedAt := at)];
      }
      return fault == NoFault;
    }

    method FailUpdateRequest(id: nat, reason: Bytes, now: int, fault: Fault) returns (ok: bool)
      modifies this`rows
      ensures rows == FailRow(old(rows), id, reason, now, fault)
      ensures ok == (fault == NoFault && Storable(ErrorText(reason)))
    {
      hide Decode, Cut;
      var text := if |reason| <= 500 then reason else reason[..500];
      assert text == ErrorText(reason) by { CutIsSlice(reason); }
      if !Storable(text) {
        return false;
      }
      if fault != LostBefore && id < |rows| && rows[id].status == Pending {
        rows := rows[id := rows[id].(status := Failed, error := Some(text), updatedAt := now)];
      }
      return fault == NoFault;
    }

    /** Replaces the quote of this pair, unless the statement is lost; every other quote stays. */
    method UpsertQuote(pair: Pair, price: real, at: int, fault: Fault) returns (ok: bool)
      modifies this`quotes
      ensures quotes == Upsert(old(quotes), pair.ToString(), price, at, fault) && ok == (fault == NoFault)
      ensures fault == LostBefore ==> quotes == old(quotes)
      ensures fault != LostBefore ==> Replaced(old(quotes), quotes, pair.ToString(), Quote(price, at))
    {
      if fault != LostBefore {
        quotes := quotes[pair.ToString() := Quote(price, at)];
      }
      return fault == NoFault;
    }

    /** The oldest pending rows, at most `limit` of them (100 when no positive limit is given). */
    method ListPendingUpdateRequests(limit: int, fault: Fault) returns (r: Option<seq<Request>>)
      requires TableOk(rows)
      ensures r.None? <==> fault != NoFault
      ensures r.Some? ==> IsListing(rows, if limit <= 0 then 100 else limit, r.value)
    {
      var n: nat := if limit <= 0 then 100 else limit;
      if fault != NoFault {
        return None;
      }
      var out: seq<Request> := [];
      while |out| < n
        invariant |out| <= n
        invariant ListedSoFar(rows, out)
      {
        var next := Oldest(out);
        if next.None? {
          break;
        }
        var id := next.value;
        SelectedScans(rows, id);
        ListOneMore(rows, out, id);
        out := out + [Scan(id, rows[id]).req];
      }
      return Some(out);
    }

    /** The oldest pending row not listed yet. */
    method Oldest(out: seq<Request>) returns (r: Option<nat>)
      ensures r.None? <==> forall id: nat :: IsPendingId(rows, id) ==> Listed(out, id)
      ensures r.Some? ==> IsPendingId(rows, r.value) && !Listed(out, r.value)
      ensures r.Some? ==> forall id: nat :: IsPendingId(rows, id) && !Listed(out, id) ==> NotNewer(rows, r.value, id)
    {
      r := None;
      var i: nat := 0;
      while i < |rows|
        invariant 0 <= i <= |rows|
        invariant r.None? <==> forall id: nat :: id < i && IsPendingId(rows, id) ==> Listed(out, id)
        invariant r.Some? ==> r.value < i && IsPendingId(rows, r.value) && !Listed(out, r.value)
        invariant r.Some? ==>
          forall id: nat :: id < i && IsPendingId(rows, id) && !Listed(out, id) ==> NotNewer(rows, r.value, id)
      {
        if rows[i].status == Pending && !Listed(out, i) {
          if r.None? || rows[i].createdAt < rows[r.value].createdAt {
            r := Some(i);
          }
        }
        i := i + 1;
      }
    }
  }

  lemma CutIsSlice(reason: Bytes)
    ensures ErrorText(reason) == if |reason| <= 500 then reason else reason[..500]
  {
  }

  function Upsert(quotes: map<string, Quote>, pair: string, price: real, at: int, fault: Fault): map<string, Quote> {
    if fault == LostBefore then quotes else quotes[pair := Quote(price, at)]
  }

  /** The quote of one pair is this one, and no other pair's quote differs. */
  ghost predicate Replaced(before: map<string, Quote>, after: map<string, Quote>, pair: string, q: Quote) {
    && after.Keys == before.Keys + {pair} && after[pair] == q
    && forall p :: p in before && p != pair ==> after[p] == before[p]
  }

  // ---------- the pending listing ----------

  predicate Listed(out: seq<Request>, id: nat) {
    exists k :: 0 <= k < |out| && out[k].id == id
  }

  ghost predicate Snapshot(rows: seq<Row>, req: Request) {
    IsPendingId(rows, req.id) && SnapshotOf(req, req.id, rows[req.id]) && ValidPair(req.pair)
  }

  predicate NotNewer(rows: seq<Row>, i: nat, j: nat) {
    i < |rows| && j < |rows| && rows[i].createdAt <= rows[j].createdAt
  }

  lemma ListOneMore(rows: seq<Row>, out: seq<Request>, id: nat)
    requires TableOk(rows) && ListedSoFar(rows, out)
    requires IsPendingId(rows, id) && !Listed(out, id)
    requires forall other :: IsPendingId(rows, other) && !Listed(out, other) ==> NotNewer(rows, id, other)
    ensures Scan(id, rows[id]).Found? && ListedSoFar(rows, out + [Scan(id, rows[id]).req])
  {
    SelectedScans(rows, id);
    hide TableOk, Scan, Listed, NotNewer, InOrder, NoneOlder, IsPendingId;
    var req := Scan(id, rows[id]).req;
    assert Snapshot(rows, req) && req.id == id;
    AppendSnapshot(rows, out, req);
    YetUnlisted(rows, out, id);
    OldestLast(rows, out, req);
    StillNoneOlder(rows, out, req);
  }

  lemma AppendSnapshot(rows: seq<Row>, out: seq<Request>, req: Request)
    requires Snapshot(rows, req) && !Listed(out, req.id)
    requires forall k :: 0 <= k < |out| ==> Snapshot(rows, out[k])
    requires forall j, k :: 0 <= j < k < |out| ==> out[j].id != out[k].id
    ensures var out' := out + [req];
      && (forall k :: 0 <= k < |out'| ==> Snapshot(rows, out'[k]))
      && (forall j, k :: 0 <= j < k < |out'| ==> out'[j].id != out'[k].id)
  {
    hide Snapshot;
  }

  lemma YetUnlisted(rows: seq<Row>, out: seq<Request>, id: nat)
    requires NoneOlder(rows, out) && IsPendingId(rows, id) && !Listed(out, id)
    ensures forall k :: 0 <= k < |out| ==> NotNewer(rows, out[k].id, id)
  {
    hide NotNewer, IsPendingId, Listed;
  }

  lemma StillNoneOlder(rows: seq<Row>, out: seq<Request>, req: Request)
    requires NoneOlder(rows, out)
    requires forall other :: IsPendingId(rows, other) && !Listed(out, other) ==> NotNewer(rows, req.id, other)
    ensures NoneOlder(rows, out + [req])
  {
    hide NotNewer, IsPendingId, Listed;
    ListedAppend(out, req);
  }

  lemma OldestLast(rows: seq<Row>, out: seq<Request>, req: Request)
    requires InOrder(rows, out) && forall k :: 0 <= k < |out| ==> NotNewer(rows, out[k].id, req.id)
    ensures InOrder(rows, out + [req])
  {
    hide NotNewer;
  }

  lemma ListedAppend(out: seq<Request>, req: Request)
    ensures forall j :: Listed(out + [req], j) <==> Listed(out, j) || j == req.id
  {
    var out' := out + [req];
    assert out'[|out|] == req;
    forall j | Listed(out, j) ensures Listed(out', j) {
      var k :| 0 <= k < |out| && out[k].id == j;
      assert out'[k].id == j;
    }
  }

  /** Faithful snapshots of distinct pending rows, oldest first, and nothing older is missing. */
  ghost predicate ListedSoFar(rows: seq<Row>, out: seq<Request>) {
    && (forall k :: 0 <= k < |out| ==> Snapshot(rows, out[k]))
    && (forall j, k :: 0 <= j < k < |out| ==> out[j].id != out[k].id)
    && InOrder(rows, out) && NoneOlder(rows, out)
  }

  ghost predicate InOrder(rows: seq<Row>, out: seq<Request>) {
    forall j, k :: 0 <= j < k < |out| ==> NotNewer(rows, out[j].id, out[k].id)
  }

  ghost predicate NoneOlder(rows: seq<Row>, out: seq<Request>) {
    forall k, id :: 0 <= k < |out| && IsPendingId(rows, id) && !Listed(out, id) ==> NotNewer(rows, out[k].id, id)
  }

  /** A possible answer to SELECT ... WHERE status = 'pending' ORDER BY created_at LIMIT n; rows
      created at the same instant may come in any order. */
  ghost predicate IsListing(rows: seq<Row>, n: nat, out: seq<Request>) {
    && ListedSoFar(rows, out)
    && |out| <= n
    && (|out| < n ==> forall id: nat :: IsPendingId(rows, id) ==> Listed(out, id))
  }

  lemma SelectedScans(rows: seq<Row>, id: nat)
    requires TableOk(rows) && id < |rows|
    ensures var a := Scan(id, rows[id]);
      a.Found? && SnapshotOf(a.req, id, rows[id]) && ValidPair(a.req.pair)
  {
    assert Readable(rows[id].pair);
    var p: Pair :| ValidPair(p) && p.ToString() == rows[id].pair;
    RoundTrip(p);
  }
}
