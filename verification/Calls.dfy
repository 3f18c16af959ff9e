/** What callers of CreateUpdateRequest may rely on, over every run
    (internal/storage/postgres/storage.go:41-81). */
module Calls {
  import opened Wrappers
  import opened Domain
  import opened Requests
  import opened Utf8
  import opened Storage
  import opened System
  import opened Invariants
  import opened Guarantees

  // ---------- one call over time ----------

  ghost predicate Steps(run: seq<State>, acts: seq<Action>, t: nat, c: nat)
    requires IsRun(run, acts)
  {
    t < |acts| && acts[t].Query? && acts[t].c == c && c < |run[t].callers|
  }

  /** Only its own statements move a call; a call that appears has not run any. */
  lemma CallFrame(s: State, a: Action, c: nat)
    requires Enabled(s, a) && c < |Apply(s, a).callers|
    requires !(a.Query? && a.c == c)
    ensures var call := Apply(s, a).callers[c].call;
      if c < |s.callers| then call == s.callers[c].call else call == NewCall(call.pair, call.key)
    ensures |s.callers| <= |Apply(s, a).callers|
  {
    hide CallStep, ParsePair, IsListing;
    Untouched(s, a);
  }

  lemma CallMoves(s: State, a: Action, c: nat)
    requires Enabled(s, a) && a.Query? && a.c == c
    ensures |Apply(s, a).callers| == |s.callers| && c < |s.callers|
    ensures (Apply(s, a).db.rows, Apply(s, a).callers[c].call)
      == CallStep(s.db.rows, s.callers[c].call, a.fault, a.dbNow)
  {
    hide CallStep, ParsePair, IsListing;
  }

  lemma {:induction false} CallersOnlyGrow(run: seq<State>, acts: seq<Action>, i: nat, j: nat)
    requires IsRun(run, acts) && i <= j < |run|
    ensures |run[i].callers| <= |run[j].callers|
    decreases j
  {
    hide Enabled, Apply;
    if i < j {
      CallersOnlyGrow(run, acts, i, j - 1);
      CallerCount(run[j - 1], acts[j - 1]);
    }
  }

  lemma CallerCount(s: State, a: Action)
    requires Enabled(s, a)
    ensures |s.callers| <= |Apply(s, a).callers|
  {
    hide CallStep, ParsePair, IsListing;
    Untouched(s, a);
  }

  /** The call has run a statement. */
  predicate Started(call: Call) {
    call.pc != NewCall(call.pair, call.key).pc
  }

  /** The statement that brought a call to where it is. */
  lemma {:induction false} LastMove(run: seq<State>, acts: seq<Action>, n: nat, c: nat) returns (t: nat)
    requires Starts(run, acts) && n < |run| && c < |run[n].callers|
    requires Started(run[n].callers[c].call)
    ensures t < n && Steps(run, acts, t, c) && !run[t].callers[c].call.pc.Done?
    ensures (run[t + 1].db.rows, run[n].callers[c].call)
      == CallStep(run[t].db.rows, run[t].callers[c].call, acts[t].fault, acts[t].dbNow)
    ensures run[t].callers[c].call.pair == run[n].callers[c].call.pair
      && run[t].callers[c].call.key == run[n].callers[c].call.key
  {
    hide Enabled, Apply, CallStep;
    var s, a := run[n - 1], acts[n - 1];
    if a.Query? && a.c == c {
      t := n - 1;
      CallMoves(s, a, c);
      Queried(s, a);
      StepKeepsNames(s.db.rows, s.callers[c].call, a.fault, a.dbNow);
    } else {
      CallFrame(s, a, c);
      t := LastMove(run, acts, n - 1, c);
    }
  }

  lemma Queried(s: State, a: Action)
    requires Enabled(s, a) && a.Query?
    ensures a.c < |s.callers| && !s.callers[a.c].call.pc.Done?
  {
  }

  lemma StepKeepsNames(rows: seq<Row>, call: Call, fault: Fault, now: int)
    requires !call.pc.Done?
    ensures var d := CallStep(rows, call, fault, now).1;
      d.pair == call.pair && d.key == call.key && d.clean == (call.clean && fault == NoFault)
  {
    hide SelectOne, Insert;
  }

  // ---------- what a call returns ----------

  /** Every `created = false` answer is a faithful snapshot of a row that, at an instant while the
      call was running, carried the caller's key or was pending for the caller's pair. */
  lemma ExistingAnswersCall(run: seq<State>, acts: seq<Action>, n: nat, c: nat) returns (t: nat)
    requires Starts(run, acts) && n < |run| && c < |run[n].callers|
    requires var pc := run[n].callers[c].call.pc; pc.Done? && pc.outcome.Returned? && !pc.outcome.created
    ensures t < n && Steps(run, acts, t, c) && !run[t].callers[c].call.pc.Done?
    ensures var call, rows := run[n].callers[c].call, run[t].db.rows;
      var req := call.pc.outcome.req;
      req.id < |rows| && SnapshotOf(req, req.id, rows[req.id]) && Answers(call, rows[req.id])
  {
    hide Init, Enabled, Apply, CallStep, HeldInv, Conserved, LifeInv, ExitInv, PublishedInv, SnapshotOf;
    t := LastMove(run, acts, n, c);
    Reachable(run, acts, t);
    StatementKeeps(run[t].db.rows, run[t].callers[c].call, acts[t].fault, acts[t].dbNow);
  }

  /** A `created = true` answer is the row this very call appended: pending, for its pair, with its
      key, and dated by the database. */
  lemma CreatedAppends(run: seq<State>, acts: seq<Action>, n: nat, c: nat) returns (t: nat)
    requires Starts(run, acts) && n < |run| && c < |run[n].callers|
    requires Created(run[n].callers[c])
    ensures t < n && Steps(run, acts, t, c)
    ensures var req, call := run[n].callers[c].call.pc.outcome.req, run[n].callers[c].call;
      && req.id == |run[t].db.rows| && |run[t + 1].db.rows| == req.id + 1 && req.pair == call.pair
      && SnapshotOf(req, req.id, run[t + 1].db.rows[req.id])
      && var row := run[t + 1].db.rows[req.id];
         && row.pair == call.pair.ToString() && row.status == Pending && row.price == None && row.error == None
         && (call.key == [] ==> row.key == None) && (call.key != [] ==> row.key == Some(call.key))
         && row.createdAt == acts[t].dbNow && row.updatedAt == acts[t].dbNow
  {
    hide Init, Enabled, Apply, CallStep, HeldInv, Conserved, LifeInv, ExitInv, PublishedInv;
    t := LastMove(run, acts, n, c);
    Reachable(run, acts, t);
    var call := run[t].callers[c].call;
    StatementKeeps(run[t].db.rows, call, acts[t].fault, acts[t].dbNow);
    var req := run[n].callers[c].call.pc.outcome.req;
    assert run[t + 1].db.rows[req.id] == NewRow(call.pair.ToString(), call.key, acts[t].dbNow);
    assert Fits(run[t + 1].db.rows, req);
    ToStringInjective(req.pair, call.pair);
  }

  // ---------- from the text of a request to its row ----------

  /** A request begins a call exactly if its text asks for a supported pair; the call is for that pair
      and with that key. */
  lemma BeginAppends(s: State, text: string, key: Bytes)
    requires Enabled(s, Begin(text, key))
    ensures var t := Apply(s, Begin(text, key));
      && ((forall p :: !Requested(s.cfg, text, p)) ==> t == s)
      && forall p :: Requested(s.cfg, text, p) ==>
           t == s.(callers := s.callers + [Caller(NewCall(p, key), false)])
  {
    hide ParsePair, Normalize, Requested;
    forall p ensures Admit(s.cfg, text) == Some(p) <==> Requested(s.cfg, text, p) {
      AdmitExactly(s.cfg, text, p);
    }
  }

  /** Every call began with a request whose text asks for the pair of the call. */
  lemma {:induction false} CallBegan(run: seq<State>, acts: seq<Action>, n: nat, c: nat) returns (t: nat)
    requires Starts(run, acts) && n < |run| && c < |run[n].callers|
    ensures t < n && acts[t].Begin? && c == |run[t].callers|
    ensures var call := run[n].callers[c].call;
      Requested(run[t].cfg, acts[t].text, call.pair) && acts[t].key == call.key
  {
    hide Enabled, Apply, CallStep, Requested;
    assert n > 0;
    var s, a := run[n - 1], acts[n - 1];
    if c < |s.callers| {
      t := CallBegan(run, acts, n - 1, c);
      NamesForever(run, acts, n - 1, n, c);
    } else {
      t := n - 1;
      OnlyBeginAppends(s, a);
      BeginAppends(s, a.text, a.key);
    }
  }

  lemma OnlyBeginAppends(s: State, a: Action)
    requires Enabled(s, a) && |Apply(s, a).callers| > |s.callers|
    ensures a.Begin?
    ensures exists p :: Requested(s.cfg, a.text, p)
  {
    hide CallStep, ParsePair, IsListing;
    Untouched(s, a);
    if a.Begin? {
      AdmitExactly(s.cfg, a.text, Admit(s.cfg, a.text).value);
    }
  }

  /** A row reported as created stands in the table for the pair that some request's text asked for,
      sides in that order, with the key of that request. */
  lemma CreatedAsRequested(run: seq<State>, acts: seq<Action>, n: nat, c: nat) returns (t: nat)
    requires Starts(run, acts) && n < |run| && c < |run[n].callers| && Created(run[n].callers[c])
    ensures t < n && acts[t].Begin?
    ensures var id := run[n].callers[c].call.pc.outcome.req.id;
      && id < |run[n].db.rows| && run[n].db.rows[id].pair == Normalize(acts[t].text)
      && (acts[t].key == [] ==> run[n].db.rows[id].key == None)
      && (acts[t].key != [] ==> run[n].db.rows[id].key == Some(acts[t].key))
  {
    hide Init, Enabled, Apply, IsRun, Normalize;
    t := CallBegan(run, acts, n, c);
    var u := CreatedAppends(run, acts, n, c);
    Between(run, acts, u + 1, n);
    var id := run[n].callers[c].call.pc.outcome.req.id;
    assert RowEvolves(run[u + 1].db.rows[id], run[n].db.rows[id]);
  }

  predicate Created(caller: Caller) {
    caller.call.pc.Done? && caller.call.pc.outcome.Returned? && caller.call.pc.outcome.created
  }

  /** No row is reported created to two calls. */
  lemma CreatedOnce(run: seq<State>, acts: seq<Action>, n: nat, c: nat, d: nat)
    requires Starts(run, acts) && n < |run| && c < |run[n].callers| && d < |run[n].callers| && c != d
    requires Created(run[n].callers[c]) && Created(run[n].callers[d])
    ensures run[n].callers[c].call.pc.outcome.req.id != run[n].callers[d].call.pc.outcome.req.id
  {
    hide Init, Enabled, Apply, CallStep, SnapshotOf, IsRun;
    var t := CreatedAppends(run, acts, n, c);
    var u := CreatedAppends(run, acts, n, d);
    if t < u {
      RowsGrow(run, acts, t + 1, u);
    } else if u < t {
      RowsGrow(run, acts, u + 1, t);
    }
  }

  lemma RowsGrow(run: seq<State>, acts: seq<Action>, i: nat, j: nat)
    requires Starts(run, acts) && i <= j < |run|
    ensures |run[i].db.rows| <= |run[j].db.rows|
  {
    hide Enabled, Apply, Init;
    Between(run, acts, i, j);
  }

  // ---------- errors ----------

  /** Without a fault the only error comes from an insert that clashed, followed by a recovery
      that found nothing. */
  lemma ErrorStep(rows: seq<Row>, call: Call, fault: Fault, now: int)
    requires TableOk(rows) && CallOk(rows, call) && !call.pc.Done?
    ensures var d := CallStep(rows, call, fault, now).1;
      && (fault == NoFault ==> (d.pc == Done(QueryError) <==> call.pc.CheckKey? && !Storable(call.key)))
      && (fault == NoFault && d.pc == Done(InsertError) ==>
            || (call.pc.RecoverPending? && call.key == [] && NoMatch(rows, PendingPair(call.pair.ToString())))
            || (call.pc.RecoverKey? && NoMatch(rows, ByKey(call.key))))
      && (fault == NoFault && d.pc.RecoverKey? ==>
            call.pc == RecoverPending(d.pc.hit) && NoMatch(rows, PendingPair(call.pair.ToString())))
      && (fault == NoFault && d.pc.RecoverPending? ==> call.pc.Inserting? && Clash(rows, call, d.pc.hit))
  {
    hide SelectOne, Insert, TableOk;
    SelectOneExact(rows, ByKey(call.key));
    SelectOneExact(rows, PendingPair(call.pair.ToString()));
    if call.pc.Inserting? {
      InsertVerdict(rows, call, fault, now);
    }
  }

  ghost predicate NoMatch(rows: seq<Row>, w: Where) {
    forall i :: 0 <= i < |rows| ==> !Matches(rows[i], w)
  }

  /** The row the insert clashed with is pending for the pair, or else carries the key. */
  ghost predicate Clash(rows: seq<Row>, call: Call, hit: nat) {
    hit < |rows| && (Matches(rows[hit], PendingPair(call.pair.ToString()))
      || (call.key != [] && Matches(rows[hit], ByKey(call.key))))
  }

  lemma InsertVerdict(rows: seq<Row>, call: Call, fault: Fault, now: int)
    requires ValidPair(call.pair) && Storable(call.key)
    ensures var reply := Insert(rows, call.pair.ToString(), call.key, now, fault).1;
      && (fault == NoFault ==> !reply.InsertBroken?)
      && (reply.Violation? ==> fault == NoFault && Clash(rows, call, reply.hit))
  {
    hide Storable, ParsePair;
    RoundTrip(call.pair);
  }

  /** The call lost a race: its insert hit a pending row of its pair, that row left pending, nothing
      was pending for the pair at the recovery lookup, and then no row had the caller's key. */
  ghost predicate LostRace(run: seq<State>, acts: seq<Action>, n: nat, c: nat,
                           insert: nat, recover: nat, last: nat, hit: nat)
    requires IsRun(run, acts) && n < |run| && c < |run[n].callers|
  {
    var call := run[n].callers[c].call;
    var text := call.pair.ToString();
    && insert < recover <= last < n
    && Steps(run, acts, insert, c) && run[insert].callers[c].call.pc.Inserting?
    && Steps(run, acts, recover, c) && run[recover].callers[c].call.pc == RecoverPending(hit)
    && hit < |run[insert].db.rows| && hit < |run[recover].db.rows|
    && Matches(run[insert].db.rows[hit], PendingPair(text)) && run[recover].db.rows[hit].status != Pending
    && NoMatch(run[recover].db.rows, PendingPair(text))
    && (call.key != [] ==> recover < last && Steps(run, acts, last, c))
    && (call.key != [] ==> run[last].callers[c].call.pc.RecoverKey? && NoMatch(run[last].db.rows, ByKey(call.key)))
  }

  /** Without faults an error has one of two causes: the database refused the key at the first lookup,
      or the call lost a race. */
  lemma ErrorCause(run: seq<State>, acts: seq<Action>, n: nat, c: nat)
      returns (insert: nat, recover: nat, last: nat, hit: nat)
    requires Starts(run, acts) && n < |run| && c < |run[n].callers|
    requires var call := run[n].callers[c].call; call.clean && call.pc.Done? && !call.pc.outcome.Returned?
    ensures Storable(run[n].callers[c].call.key) ==> LostRace(run, acts, n, c, insert, recover, last, hit)
    ensures !Storable(run[n].callers[c].call.key) ==>
      last < n && Steps(run, acts, last, c) && run[last].callers[c].call.pc.CheckKey?
  {
    hide Init, Enabled, Apply, CallStep, IsRun, HeldInv, Conserved, LifeInv, ExitInv, PublishedInv, TableOk, CallOk,
      Storable;
    last := LastMove(run, acts, n, c);
    insert, recover, hit := 0, 0, 0;
    var call := run[last].callers[c].call;
    Reachable(run, acts, last);
    KeyPassed(run[last].db.rows, call);
    ErrorStep(run[last].db.rows, call, acts[last].fault, acts[last].dbNow);
    StepKeepsNames(run[last].db.rows, call, acts[last].fault, acts[last].dbNow);
    if call.pc.CheckKey? {
      return;
    }
    if call.pc.RecoverKey? {
      recover := LastMove(run, acts, last, c);
    } else {
      recover := last;
    }
    var call' := run[recover].callers[c].call;
    Reachable(run, acts, recover);
    ErrorStep(run[recover].db.rows, call', acts[recover].fault, acts[recover].dbNow);
    StepKeepsNames(run[recover].db.rows, call', acts[recover].fault, acts[recover].dbNow);
    hit := call'.pc.hit;
    insert := LastMove(run, acts, recover, c);
    var call'' := run[insert].callers[c].call;
    Reachable(run, acts, insert);
    ErrorStep(run[insert].db.rows, call'', acts[insert].fault, acts[insert].dbNow);
    StepKeepsNames(run[insert].db.rows, call'', acts[insert].fault, acts[insert].dbNow);
    HitLeftPending(run, acts, insert, recover, last, call'', hit);
  }

  lemma KeyPassed(rows: seq<Row>, call: Call)
    requires CallOk(rows, call) && !call.pc.Done?
    ensures call.pc.CheckKey? || Storable(call.key)
  {
  }

  lemma HitLeftPending(run: seq<State>, acts: seq<Action>, insert: nat, recover: nat, last: nat, call: Call, hit: nat)
    requires Starts(run, acts) && insert < recover <= last < |run|
    requires Clash(run[insert].db.rows, call, hit)
    requires NoMatch(run[recover].db.rows, PendingPair(call.pair.ToString()))
    requires call.key != [] ==> NoMatch(run[last].db.rows, ByKey(call.key))
    ensures hit < |run[recover].db.rows| && run[recover].db.rows[hit].status != Pending
    ensures Matches(run[insert].db.rows[hit], PendingPair(call.pair.ToString()))
  {
    hide Init, Enabled, Apply, IsRun;
    Between(run, acts, insert, recover);
    Between(run, acts, insert, last);
    assert RowEvolves(run[insert].db.rows[hit], run[recover].db.rows[hit]);
    assert RowEvolves(run[insert].db.rows[hit], run[last].db.rows[hit]);
  }

  /** A call that is done stays as it is. */
  lemma {:induction false} DoneForever(run: seq<State>, acts: seq<Action>, i: nat, j: nat, c: nat)
    requires IsRun(run, acts) && i <= j < |run| && c < |run[i].callers| && run[i].callers[c].call.pc.Done?
    ensures c < |run[j].callers| && run[j].callers[c].call == run[i].callers[c].call
    decreases j
  {
    hide Enabled, Apply;
    if i < j {
      DoneForever(run, acts, i, j - 1, c);
      CallerCount(run[j - 1], acts[j - 1]);
      if acts[j - 1].Query? {
        Queried(run[j - 1], acts[j - 1]);
      }
      CallFrame(run[j - 1], acts[j - 1], c);
    }
  }

  lemma {:induction false} NamesForever(run: seq<State>, acts: seq<Action>, i: nat, j: nat, c: nat)
    requires IsRun(run, acts) && i <= j < |run| && c < |run[i].callers|
    ensures c < |run[j].callers| && run[j].callers[c].call.pair == run[i].callers[c].call.pair
      && run[j].callers[c].call.key == run[i].callers[c].call.key
    decreases j
  {
    hide Enabled, Apply, CallStep;
    if i < j {
      var s, a := run[j - 1], acts[j - 1];
      NamesForever(run, acts, i, j - 1, c);
      CallerCount(s, a);
      if a.Query? && a.c == c {
        CallMoves(s, a, c);
        Queried(s, a);
        StepKeepsNames(s.db.rows, s.callers[c].call, a.fault, a.dbNow);
      } else {
        CallFrame(s, a, c);
      }
    }
  }

  /** A key the database refuses lets the call get nowhere. */
  lemma {:induction false} RefusedEverywhere(run: seq<State>, acts: seq<Action>, n: nat, c: nat)
    requires Starts(run, acts) && n < |run| && c < |run[n].callers| && !Storable(run[n].callers[c].call.key)
    ensures run[n].callers[c].call.pc.CheckKey? || run[n].callers[c].call.pc == Done(QueryError)
  {
    hide Init, Enabled, Apply, CallStep, HeldInv, Conserved, LifeInv, ExitInv, PublishedInv, TableOk, CallOk, Storable;
    if Started(run[n].callers[c].call) {
      var t := LastMove(run, acts, n, c);
      var call := run[t].callers[c].call;
      Reachable(run, acts, t);
      KeyPassed(run[t].db.rows, call);
      RefusedStep(run[t].db.rows, call, acts[t].fault, acts[t].dbNow);
    } else {
      EmptyIsStorable();
    }
  }

  lemma EmptyIsStorable()
    ensures Storable([])
  {
  }

  lemma RefusedStep(rows: seq<Row>, call: Call, fault: Fault, now: int)
    requires call.pc.CheckKey? && !Storable(call.key)
    ensures CallStep(rows, call, fault, now).1.pc == Done(QueryError)
  {
  }

  /** A recovery lookup that finds nothing leads on to the key or, without one, to the error; the
      lookup of the key that finds nothing leads to the error, faults or no faults. */
  lemma NothingRecovered(rows: seq<Row>, call: Call, fault: Fault, now: int)
    requires TableOk(rows)
    requires || (call.pc.RecoverPending? && call.key == [] && NoMatch(rows, PendingPair(call.pair.ToString())))
             || (call.pc.RecoverKey? && NoMatch(rows, ByKey(call.key)))
    ensures CallStep(rows, call, fault, now).1.pc == Done(InsertError)
  {
    hide SelectOne, TableOk;
    LookupAnswers(rows, call, ByKey(call.key), fault);
    LookupAnswers(rows, call, PendingPair(call.pair.ToString()), fault);
  }

  /** In every run: a call that met no fault ends in an error exactly when the database refuses its
      key or it lost a race. */
  lemma ErrorExactly(run: seq<State>, acts: seq<Action>, n: nat, c: nat)
    requires Starts(run, acts) && n < |run| && c < |run[n].callers|
    requires run[n].callers[c].call.clean && run[n].callers[c].call.pc.Done?
    ensures !run[n].callers[c].call.pc.outcome.Returned? <==>
      || !Storable(run[n].callers[c].call.key)
      || exists insert: nat, recover: nat, last: nat, hit: nat ::
           LostRace(run, acts, n, c, insert, recover, last, hit)
  {
    hide Init, Enabled, Apply, CallStep, HeldInv, Conserved, LifeInv, ExitInv, PublishedInv, TableOk, CallOk, Storable;
    if !Storable(run[n].callers[c].call.key) {
      RefusedEverywhere(run, acts, n, c);
    } else if !run[n].callers[c].call.pc.outcome.Returned? {
      var insert, recover, last, hit := ErrorCause(run, acts, n, c);
    } else if insert: nat, recover: nat, last: nat, hit: nat :| LostRace(run, acts, n, c, insert, recover, last, hit) {
      LostRaceFails(run, acts, n, c, insert, recover, last, hit);
    }
  }

  lemma LostRaceFails(run: seq<State>, acts: seq<Action>, n: nat, c: nat,
                      insert: nat, recover: nat, last: nat, hit: nat)
    requires Starts(run, acts) && n < |run| && c < |run[n].callers|
    requires LostRace(run, acts, n, c, insert, recover, last, hit)
    ensures run[n].callers[c].call.pc == Done(InsertError)
  {
    hide Init, Enabled, Apply, CallStep, HeldInv, Conserved, LifeInv, ExitInv, PublishedInv, TableOk, CallOk, NoMatch;
    var end := if run[n].callers[c].call.key == [] then recover else last;
    NamesForever(run, acts, end, n, c);
    Reachable(run, acts, end);
    NothingRecovered(run[end].db.rows, run[end].callers[c].call, acts[end].fault, acts[end].dbNow);
    CallMoves(run[end], acts[end], c);
    DoneForever(run, acts, end + 1, n, c);
  }

  /** Conversely, a call whose two recovery lookups find nothing does fail: the condition above is
      exact, one statement at a time. */
  lemma RecoveryFails(rows: seq<Row>, call: Call, now: int)
    requires TableOk(rows) && CallOk(rows, call)
    requires call.pc.RecoverPending? || call.pc.RecoverKey?
    ensures var pc := CallStep(rows, call, NoFault, now).1.pc;
      && (call.pc.RecoverPending? && call.key == [] ==>
            (pc == Done(InsertError) <==> NoMatch(rows, PendingPair(call.pair.ToString()))))
      && (call.pc.RecoverPending? && call.key != [] ==>
            (pc == RecoverKey(call.pc.hit) <==> NoMatch(rows, PendingPair(call.pair.ToString()))))
      && (call.pc.RecoverKey? ==> (pc == Done(InsertError) <==> NoMatch(rows, ByKey(call.key))))
  {
    hide SelectOne, TableOk;
    SelectOneExact(rows, ByKey(call.key));
    SelectOneExact(rows, PendingPair(call.pair.ToString()));
  }

  /** What a fault does to a call: lost before the insert it ends the call in a query error and the
      table is as it was; lost in the insert it ends the call in an insert error, and the row may be
      there all the same, namely when the answer was lost and nothing clashed; lost in a recovery
      lookup it counts as nothing found. */
  lemma FaultsExactly(rows: seq<Row>, call: Call, fault: Fault, now: int)
    requires TableOk(rows) && CallOk(rows, call) && !call.pc.Done? && fault != NoFault
    ensures var (rows', d) := CallStep(rows, call, fault, now);
      var text := call.pair.ToString();
      && (call.pc.CheckKey? || call.pc.CheckPending? ==> d.pc == Done(QueryError) && rows' == rows)
      && (call.pc.RecoverKey? ==> d.pc == Done(InsertError) && rows' == rows)
      && (call.pc.RecoverPending? ==>
            rows' == rows && d.pc == if call.key == [] then Done(InsertError) else RecoverKey(call.pc.hit))
      && (call.pc.Inserting? ==> d.pc == Done(InsertError))
      && (call.pc.Inserting? ==>
            var free := NoMatch(rows, PendingPair(text)) && (call.key == [] || NoMatch(rows, ByKey(call.key)));
            if fault == LostAfter && free then |rows'| == |rows| + 1 && rows'[|rows|] == NewRow(text, call.key, now)
            else rows' == rows)
  {
    hide Storable, ParsePair;
    RoundTrip(call.pair);
  }

  // ---------- idempotency keys ----------

  /** Once a row carries key K, every later fault-free call with K gets exactly that row, whatever
      pair it names and whatever happens in between. */
  lemma {:induction false} KeySticks(run: seq<State>, acts: seq<Action>, t: nat, n: nat, c: nat, id: nat)
    requires Starts(run, acts) && t <= n < |run|
    requires id < |run[t].db.rows| && run[t].db.rows[id].key.Some? && run[t].db.rows[id].key.value != []
    requires |run[t].callers| <= c < |run[n].callers|
    requires var call := run[n].callers[c].call; call.clean && run[t].db.rows[id].key == Some(call.key)
    ensures var call := run[n].callers[c].call;
      || call.pc.CheckKey?
      || (call.pc.Done? && call.pc.outcome.Returned? && call.pc.outcome.req.id == id && !call.pc.outcome.created)
    decreases n
  {
    hide Init, Enabled, Apply, CallStep, HeldInv, Conserved, LifeInv, ExitInv, PublishedInv, TableOk;
    var s, a := run[n - 1], acts[n - 1];
    if a.Query? && a.c == c {
      CallMoves(s, a, c);
      Queried(s, a);
      StepKeepsNames(s.db.rows, s.callers[c].call, a.fault, a.dbNow);
      KeySticks(run, acts, t, n - 1, c, id);
      Between(run, acts, t, n - 1);
      Reachable(run, acts, n - 1);
      assert RowEvolves(run[t].db.rows[id], s.db.rows[id]);
      KeyFound(s.db.rows, s.callers[c].call, a.dbNow, id);
    } else {
      CallFrame(s, a, c);
      if c < |s.callers| {
        KeySticks(run, acts, t, n - 1, c, id);
      }
    }
  }

  lemma KeyFound(rows: seq<Row>, call: Call, now: int, id: nat)
    requires TableOk(rows) && call.pc.CheckKey? && id < |rows| && Matches(rows[id], ByKey(call.key))
    ensures var pc := CallStep(rows, call, NoFault, now).1.pc;
      pc.Done? && pc.outcome.Returned? && pc.outcome.req.id == id && !pc.outcome.created
  {
    hide SelectOne;
    SelectOneExact(rows, ByKey(call.key));
    var req := SelectOne(rows, ByKey(call.key), NoFault).req;
    MatchUnique(rows, ByKey(call.key), req.id, id);
  }
}
