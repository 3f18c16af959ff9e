/** What idempotency means: exactly when a repeated key returns the same request, in any run of the
    service (internal/storage/postgres/storage.go:33-81), and that a call nobody disturbs is the
    intended atomic operation of internal/service/service_test.go:38-64. */
module Idempotency {
  import opened Wrappers
  import opened Domain
  import opened Requests
  import opened Utf8
  import opened Storage
  import opened System
  import opened Invariants
  import opened Guarantees
  import opened Calls

  // ---------- any run ----------

  predicate HasAnswer(caller: Caller) {
    caller.call.pc.Done? && caller.call.pc.outcome.Returned?
  }

  /** Where a keyed call stands: statement `last` brought it there. At step `check` it asked for its
      key. Either that was its last statement so far, or nobody had the key and it asked for its pair
      at step `look`; either that was the last, or nothing was pending for the pair then. */
  ghost predicate Lookups(run: seq<State>, acts: seq<Action>, n: nat, d: nat, check: nat, look: nat, last: nat)
    requires IsRun(run, acts) && n < |run| && d < |run[n].callers|
  {
    var call := run[n].callers[d].call;
    && check <= last < n && Moved(run, acts, n, d, last)
    && Steps(run, acts, check, d) && run[check].callers[d].call.pc.CheckKey?
    && (check == last
        || (check < look <= last && Steps(run, acts, look, d) && run[look].callers[d].call.pc.CheckPending?
            && NoMatch(run[check].db.rows, ByKey(call.key))
            && (look == last || NoMatch(run[look].db.rows, PendingPair(call.pair.ToString())))))
  }

  /** The statement at step `t` brought the call to where it is at instant `n`. */
  ghost predicate Moved(run: seq<State>, acts: seq<Action>, n: nat, d: nat, t: nat)
    requires IsRun(run, acts) && n < |run| && d < |run[n].callers|
  {
    && Steps(run, acts, t, d) && !run[t].callers[d].call.pc.Done?
    && run[t].callers[d].call.pair == run[n].callers[d].call.pair
    && run[t].callers[d].call.key == run[n].callers[d].call.key
    && run[n].callers[d].call == CallStep(run[t].db.rows, run[t].callers[d].call, acts[t].fault, acts[t].dbNow).1
  }

  lemma NextPc(rows: seq<Row>, call: Call, fault: Fault, now: int)
    requires TableOk(rows) && CallOk(rows, call) && !call.pc.Done?
    ensures var pc := CallStep(rows, call, fault, now).1.pc;
      && !pc.CheckKey?
      && (pc.CheckPending? ==> call.pc.CheckKey? && NoMatch(rows, ByKey(call.key)))
      && (pc.Inserting? ==> call.pc.CheckPending? && NoMatch(rows, PendingPair(call.pair.ToString())))
      && (call.pc.CheckKey? ==> pc.Done? || pc.CheckPending?)
      && (call.pc.CheckPending? ==> pc.Done? || pc.Inserting?)
  {
    hide SelectOne, Insert, TableOk;
    SelectOneExact(rows, ByKey(call.key));
    SelectOneExact(rows, PendingPair(call.pair.ToString()));
    NoAnswerOnFault(rows, ByKey(call.key), fault);
    NoAnswerOnFault(rows, PendingPair(call.pair.ToString()), fault);
  }

  lemma NoAnswerOnFault(rows: seq<Row>, w: Where, fault: Fault)
    ensures fault != NoFault ==> SelectOne(rows, w, fault).Broken?
  {
  }

  lemma {:induction false} HowItGotThere(run: seq<State>, acts: seq<Action>, n: nat, d: nat)
      returns (check: nat, look: nat, last: nat)
    requires Starts(run, acts) && n < |run| && d < |run[n].callers|
    requires var call := run[n].callers[d].call; call.key != [] && !call.pc.CheckKey? && !call.pc.CheckPending?
    ensures Lookups(run, acts, n, d, check, look, last)
    decreases n
  {
    hide Init, Enabled, Apply, CallStep, TableOk, CallOk, HeldInv, Conserved, LifeInv, ExitInv, PublishedInv, NoMatch;
    last := LastMove(run, acts, n, d);
    var call := run[last].callers[d].call;
    Reachable(run, acts, last);
    NextPc(run[last].db.rows, call, acts[last].fault, acts[last].dbNow);
    if call.pc.CheckKey? {
      check, look := last, last;
    } else if call.pc.CheckPending? {
      look := last;
      check := LastMove(run, acts, last, d);
      Reachable(run, acts, check);
      NextPc(run[check].db.rows, run[check].callers[d].call, acts[check].fault, acts[check].dbNow);
    } else {
      var before: nat;
      check, look, before := HowItGotThere(run, acts, last, d);
      Reachable(run, acts, before);
      NextPc(run[before].db.rows, run[before].callers[d].call, acts[before].fault, acts[before].dbNow);
    }
  }

  /** Two calls with one key, in any run: `c` has its answer at instant `t`, and `d` starts later.
      Other calls, with this key too, workers, faults and shutdown interleave as they like. Call `d`
      is answered with the request of `c` exactly when that request carries the key, or nobody
      carries it when `d` asks for it and that very request is pending for the pair of `d` when `d`
      asks for its pair. */
  lemma RepeatedKeyExactly(run: seq<State>, acts: seq<Action>, t: nat, n: nat, c: nat, d: nat)
      returns (check: nat, look: nat)
    requires Starts(run, acts) && t <= n < |run|
    requires c < |run[t].callers| <= d < |run[n].callers|
    requires HasAnswer(run[t].callers[c]) && HasAnswer(run[n].callers[d])
    requires run[t].callers[c].call.key == run[n].callers[d].call.key != []
    ensures t <= check < n && Steps(run, acts, check, d) && run[check].callers[d].call.pc.CheckKey?
    ensures var call, rows := run[n].callers[d].call, run[check].db.rows;
      NoMatch(rows, ByKey(call.key)) ==>
        check < look < n && Steps(run, acts, look, d) && run[look].callers[d].call.pc.CheckPending?
    ensures var id, call := run[t].callers[c].call.pc.outcome.req.id, run[n].callers[d].call;
      && id < |run[t].db.rows|
      && (call.pc.outcome.req.id == id <==>
            || run[t].db.rows[id].key == Some(call.key)
            || (NoMatch(run[check].db.rows, ByKey(call.key))
                && id < |run[look].db.rows| && Matches(run[look].db.rows[id], PendingPair(call.pair.ToString()))))
  {
    hide Init, Enabled, Apply, CallStep, TableOk, HeldInv, Conserved, LifeInv, ExitInv, PublishedInv, SnapshotOf;
    var last: nat;
    check, look, last := HowItGotThere(run, acts, n, d);
    if check < t {
      CallersOnlyGrow(run, acts, check, t);
    }
    Reachable(run, acts, t);
    var id := run[t].callers[c].call.pc.outcome.req.id;
    assert CallOk(run[t].db.rows, run[t].callers[c].call);
    Between(run, acts, t, check);
    assert RowEvolves(run[t].db.rows[id], run[check].db.rows[id]);
    Reachable(run, acts, last);
    var rows, call := run[last].db.rows, run[last].callers[d].call;
    Answer(rows, call, acts[last].fault, acts[last].dbNow);
    if check < last {
      Between(run, acts, check, look);
      Between(run, acts, look, last);
      assert RowEvolves(run[check].db.rows[id], run[look].db.rows[id]);
      assert RowEvolves(run[look].db.rows[id], rows[id]);
    }
    var req := run[n].callers[d].call.pc.outcome.req;
    if check == last {
      SameRow(rows, ByKey(call.key), req.id, id);
    } else if look == last {
      SameRow(rows, PendingPair(call.pair.ToString()), req.id, id);
    }
  }

  lemma SameRow(rows: seq<Row>, w: Where, i: nat, j: nat)
    requires TableOk(rows) && i < |rows| && j < |rows| && Matches(rows[i], w)
    ensures i == j <==> Matches(rows[j], w)
  {
    hide Matches;
    if Matches(rows[j], w) {
      MatchUnique(rows, w, i, j);
    }
  }

  /** Which row a statement answers with: the key's for the first lookup, the pending one for the
      second, and otherwise a new one or one that matches either way. */
  lemma Answer(rows: seq<Row>, call: Call, fault: Fault, now: int)
    requires TableOk(rows) && CallOk(rows, call) && !call.pc.Done?
    ensures var pc := CallStep(rows, call, fault, now).1.pc;
      pc.Done? && pc.outcome.Returned? ==>
        var id := pc.outcome.req.id;
        && (call.pc.CheckKey? ==> id < |rows| && Matches(rows[id], ByKey(call.key)))
        && (call.pc.CheckPending? ==> id < |rows| && Matches(rows[id], PendingPair(call.pair.ToString())))
        && (id < |rows| ==> Answers(call, rows[id]))
  {
    hide SelectOne, Insert, TableOk, SnapshotOf;
    StatementKeeps(rows, call, fault, now);
    LookupAnswers(rows, call, ByKey(call.key), fault);
    LookupAnswers(rows, call, PendingPair(call.pair.ToString()), fault);
  }

  // ---------- calls one after another ----------

  ghost predicate Exists(rows: seq<Row>, w: Where) {
    exists i :: 0 <= i < |rows| && Matches(rows[i], w)
  }

  ghost predicate Returns(rows: seq<Row>, w: Where, req: Request) {
    req.id < |rows| && Matches(rows[req.id], w) && SnapshotOf(req, req.id, rows[req.id])
  }

  /** The atomic create: the row with the key, else the pending row of the pair, else a new row. */
  ghost predicate Creates(rows: seq<Row>, pair: Pair, key: Bytes, now: int,
                          rows': seq<Row>, req: Request, created: bool) {
    var text := pair.ToString();
    if key != [] && Exists(rows, ByKey(key)) then !created && rows' == rows && Returns(rows, ByKey(key), req)
    else if Exists(rows, PendingPair(text)) then !created && rows' == rows && Returns(rows, PendingPair(text), req)
    else
      && created && rows' == rows + [NewRow(text, key, now)]
      && req.id == |rows| && SnapshotOf(req, |rows|, rows'[|rows|])
  }

  /** A call nobody disturbs does exactly the atomic create, unless the database refuses its key; then
      it ends in an error and changes nothing. */
  lemma UndisturbedIsAtomic(rows: seq<Row>, pair: Pair, key: Bytes, beats: seq<Beat>)
    requires TableOk(rows) && ValidPair(pair) && |beats| == 5
    requires forall b :: 0 <= b < 5 ==> beats[b].others == [] && beats[b].fault == NoFault
    ensures var (rows', c) := RunCall(rows, NewCall(pair, key), beats);
      && c.pc.Done?
      && if !Storable(key) then rows' == rows && c.pc == Done(QueryError)
         else
           var now := beats[if key != [] then 2 else 1].now;
           c.pc.outcome.Returned? && Creates(rows, pair, key, now, rows', c.pc.outcome.req, c.pc.outcome.created)
  {
    hide SelectOne, Insert, TableOk, SnapshotOf, Storable;
    EmptyIsStorable();
    var c := NewCall(pair, key);
    var b: nat := 0;
    assert beats[0..] == beats;
    SelectOneExact(rows, ByKey(key));
    SelectOneExact(rows, PendingPair(pair.ToString()));
    if key != [] {
      Advance(rows, c, beats, 0);
      c, b := CallStep(rows, c, NoFault, beats[0].now).1, 1;
    }
    if c.pc.CheckPending? {
      Advance(rows, c, beats, b);
      c := CallStep(rows, c, NoFault, beats[b].now).1;
      if c.pc.Inserting? {
        Advance(rows, c, beats, b + 1);
        FreeInsert(rows, pair, key, beats[b + 1].now);
      }
    }
  }

  lemma FreeInsert(rows: seq<Row>, pair: Pair, key: Bytes, now: int)
    requires ValidPair(pair) && Storable(key)
    requires key != [] ==> !Exists(rows, ByKey(key))
    requires !Exists(rows, PendingPair(pair.ToString()))
    ensures var (rows', reply) := Insert(rows, pair.ToString(), key, now, NoFault);
      && rows' == rows + [NewRow(pair.ToString(), key, now)]
      && reply.Inserted? && reply.req.id == |rows| && SnapshotOf(reply.req, |rows|, rows'[|rows|])
  {
    hide Storable, ParsePair;
    RoundTrip(pair);
  }

  /** The key is stored by a call exactly when it was stored already or the pair had nothing
      pending. */
  lemma KeyStoredExactly(rows: seq<Row>, pair: Pair, key: Bytes, now: int,
                         rows': seq<Row>, req: Request, created: bool)
    requires TableOk(rows) && key != [] && Creates(rows, pair, key, now, rows', req, created)
    ensures Exists(rows', ByKey(key)) <==> Exists(rows, ByKey(key)) || !Exists(rows, PendingPair(pair.ToString()))
    ensures Exists(rows', ByKey(key)) ==> rows'[req.id].key == Some(key)
  {
    if created {
      assert Matches(rows'[|rows|], ByKey(key));
    }
  }

  /** The sequential case: two undisturbed calls with the same key, and nobody uses the key in
      between. The second returns the request of the first exactly when the first call could store
      the key (it was stored already, or its pair had nothing pending) or that request is still
      pending for the pair of the second call. */
  lemma UndisturbedRepeat(key: Bytes,
      rows0: seq<Row>, pair1: Pair, now1: int, rows1: seq<Row>, req1: Request, created1: bool,
      rows2: seq<Row>, pair2: Pair, now2: int, rows3: seq<Row>, req2: Request, created2: bool)
    requires key != [] && TableOk(rows0) && TableOk(rows1) && TableOk(rows2)
    requires Creates(rows0, pair1, key, now1, rows1, req1, created1)
    requires Evolves(rows1, rows2) && (Exists(rows2, ByKey(key)) ==> Exists(rows1, ByKey(key)))
    requires Creates(rows2, pair2, key, now2, rows3, req2, created2)
    ensures req2.id == req1.id <==>
      || Exists(rows0, ByKey(key)) || !Exists(rows0, PendingPair(pair1.ToString()))
      || (req1.id < |rows2| && Matches(rows2[req1.id], PendingPair(pair2.ToString())))
  {
    hide SnapshotOf;
    KeyStoredExactly(rows0, pair1, key, now1, rows1, req1, created1);
    assert RowEvolves(rows1[req1.id], rows2[req1.id]);
    if Exists(rows1, ByKey(key)) {
      assert Matches(rows2[req1.id], ByKey(key));
      MatchUnique(rows2, ByKey(key), req1.id, req2.id);
    } else if Matches(rows2[req1.id], PendingPair(pair2.ToString())) {
      MatchUnique(rows2, PendingPair(pair2.ToString()), req1.id, req2.id);
    }
  }

  /** A concrete run in which the same key names two requests: it is sent while a keyless request
      for the pair is pending, and again after that request has completed. */
  lemma KeyCanBeLost()
    ensures exists rows0: seq<Row>, pair: Pair, key: Bytes, rows1: seq<Row>, req1: Request,
                   rows2: seq<Row>, rows3: seq<Row>, req2: Request ::
      && TableOk(rows0) && ValidPair(pair) && key != []
      && Creates(rows0, pair, key, 1, rows1, req1, false)
      && rows2 == CompleteRow(rows1, req1.id, 2.0, 2, NoFault)
      && Creates(rows2, pair, key, 3, rows3, req2, true)
      && req1.id != req2.id
  {
    var pair := EUR_USD;
    var text := pair.ToString();
    var pending := NewRow(text, [], 0);
    var rows0 := [pending];
    assert TableOk(rows0);
    var req1 := Request(0, pair, Pending, None, None, 0, 0);
    var rows2 := CompleteRow(rows0, 0, 2.0, 2, NoFault);
    assert rows2 == [pending.(status := Completed, price := Some(2.0), updatedAt := 2)];
    var rows3 := rows2 + [NewRow(text, KEY, 3)];
    var req2 := Request(1, pair, Pending, None, None, 3, 3);
    assert Matches(rows0[0], PendingPair(text));
    assert Creates(rows0, pair, KEY, 1, rows0, req1, false);
    assert rows3[1] == NewRow(text, KEY, 3);
    assert Creates(rows2, pair, KEY, 3, rows3, req2, true);
  }

  function Undisturbed(others: seq<Statement>): Beat {
    Beat(others, NoFault, 0)
  }

  const KEY: Bytes := [0x6B]
  const RACE_ROW := NewRow("EUR/USD", [], 0)
  const RACE_REQUEST := Request(0, EUR_USD, Pending, None, None, 0, 0)

  function RaceCall(pc: Pc): Call {
    Call(EUR_USD, KEY, pc, true)
  }

  lemma RaceLookups()
    ensures CallStep([], RaceCall(CheckKey), NoFault, 0) == ([], RaceCall(CheckPending))
    ensures CallStep([], RaceCall(CheckPending), NoFault, 0) == ([], RaceCall(Inserting))
  {
    hide ParsePair;
  }

  lemma RaceInsert()
    ensures ExecuteAll([], [InsertStmt(EUR_USD, [], 0)]) == [RACE_ROW]
    ensures CallStep([RACE_ROW], RaceCall(Inserting), NoFault, 0) == ([RACE_ROW], RaceCall(RecoverPending(0)))
  {
    hide ParsePair;
    assert EUR_USD.ToString() == "EUR/USD";
    RoundTrip(EUR_USD);
    assert Conflict([], "EUR/USD", []) == None;
    assert ExecuteAll([RACE_ROW], []) == [RACE_ROW];
    assert Conflict([RACE_ROW], "EUR/USD", KEY) == Some(0);
  }

  lemma RaceRecovers()
    ensures CallStep([RACE_ROW], RaceCall(RecoverPending(0)), NoFault, 0)
      == ([RACE_ROW], RaceCall(Done(Returned(RACE_REQUEST, false))))
  {
    hide ParsePair;
    assert EUR_USD.ToString() == "EUR/USD";
    RoundTrip(EUR_USD);
    assert Scan(0, RACE_ROW) == Found(RACE_REQUEST);
  }

  /** The key can be lost although the pair has nothing pending when the call begins and no statement
      fails: another client's insert gets in before the third statement. */
  lemma KeyLostInRace()
    ensures var calm := Undisturbed([]);
      var beats := [calm, calm, Undisturbed([InsertStmt(EUR_USD, [], 0)]), calm, calm];
      var (rows, c) := RunCall([], NewCall(EUR_USD, KEY), beats);
      && rows == [RACE_ROW] && c.pc == Done(Returned(RACE_REQUEST, false)) && NoMatch(rows, ByKey(KEY))
  {
    hide CallStep, RunCall;
    var calm := Undisturbed([]);
    var beats := [calm, calm, Undisturbed([InsertStmt(EUR_USD, [], 0)]), calm, calm];
    assert beats == beats[0..];
    assert forall rows :: ExecuteAll(rows, []) == rows;
    RaceLookups();
    RaceInsert();
    RaceRecovers();
    Advance([], RaceCall(CheckKey), beats, 0);
    Advance([], RaceCall(CheckPending), beats, 1);
    Advance([], RaceCall(Inserting), beats, 2);
    Advance([RACE_ROW], RaceCall(RecoverPending(0)), beats, 3);
    DoneStays();
  }
}
