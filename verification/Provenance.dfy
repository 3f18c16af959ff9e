/** Where the outcome of a request comes from (internal/service/service.go:210-243,
    internal/storage/postgres/storage.go:126-155). */
module Provenance {
  import opened Wrappers
  import opened Domain
  import opened Requests
  import opened Storage
  import opened Utf8
  import opened System
  import opened Invariants
  import opened Guarantees

  /** At step `t` the provider's call returned this answer to a worker that asked on behalf of row `id`. */
  ghost predicate AnsweredAt(run: seq<State>, acts: seq<Action>, t: nat, id: nat, answer: Result<real, Bytes>)
    requires IsRun(run, acts)
  {
    && t < |acts| && acts[t].Provider? && acts[t].answer == answer && acts[t].w < |run[t].pool.workers|
    && run[t].pool.workers[acts[t].w].Calling? && run[t].pool.workers[acts[t].w].req.id == id
  }

  /** At step `t` the quote write of a worker holding row `id` met a fault, with these words. */
  ghost predicate QuoteLostAt(run: seq<State>, acts: seq<Action>, t: nat, id: nat, why: Bytes)
    requires IsRun(run, acts)
  {
    && t < |acts| && acts[t].Write? && acts[t].fault != NoFault && acts[t].why == why
    && acts[t].w < |run[t].pool.workers|
    && run[t].pool.workers[acts[t].w].Publishing? && run[t].pool.workers[acts[t].w].req.id == id
  }

  ghost predicate PriceHeard(run: seq<State>, acts: seq<Action>, n: nat, id: nat, price: real, at: int)
    requires IsRun(run, acts)
  {
    exists t: nat :: t < n && AnsweredAt(run, acts, t, id, Success(price)) && run[t].clock == at
  }

  ghost predicate FailureHeard(run: seq<State>, acts: seq<Action>, n: nat, id: nat, reason: Bytes)
    requires IsRun(run, acts)
  {
    || (exists t: nat :: t < n && AnsweredAt(run, acts, t, id, Failure(reason)))
    || (exists t: nat, why: Bytes ::
          t < n && QuoteLostAt(run, acts, t, id, why) && reason == Encode("upsert quote: ") + why)
  }

  ghost predicate WorkerHeard(run: seq<State>, acts: seq<Action>, n: nat, worker: Worker)
    requires IsRun(run, acts)
  {
    match worker
    case Publishing(req, price, now) => PriceHeard(run, acts, n, req.id, price, now)
    case Completing(req, price, now) => PriceHeard(run, acts, n, req.id, price, now)
    case Failing(req, reason) => FailureHeard(run, acts, n, req.id, reason)
    case _ => true
  }

  lemma WorkerMoves(s: State, a: Action, w: nat)
    requires Enabled(s, a) && w < |Apply(s, a).pool.workers|
    ensures w < |s.pool.workers|
    ensures var v, v' := s.pool.workers[w], Apply(s, a).pool.workers[w];
      || v' == v || v'.Calling? || v'.Idle? || v'.Exited?
      || (a.Provider? && a.w == w && v.Calling? && v' == Answered(v, a.answer, s.clock))
      || (a.Write? && a.w == w && v.Publishing? && v' == NextWorker(v, a.fault, a.why))
  {
    hide CallStep, ParsePair, IsListing, WriteDb;
    Untouched(s, a);
  }

  lemma {:induction false} HeldStory(run: seq<State>, acts: seq<Action>, n: nat, w: nat)
    requires Starts(run, acts) && n < |run| && w < |run[n].pool.workers|
    ensures WorkerHeard(run, acts, n, run[n].pool.workers[w])
  {
    hide Enabled, Apply, PriceHeard, FailureHeard;
    if n > 0 {
      var s, a := run[n - 1], acts[n - 1];
      WorkerMoves(s, a, w);
      HeldStory(run, acts, n - 1, w);
      HeardStays(run, acts, n - 1, s.pool.workers[w]);
      if a.Provider? && a.w == w && s.pool.workers[w].Calling? {
        JustHeard(run, acts, n - 1);
      } else if a.Write? && a.w == w && s.pool.workers[w].Publishing? && a.fault != NoFault {
        JustLost(run, acts, n - 1);
      }
    }
  }

  lemma HeardStays(run: seq<State>, acts: seq<Action>, n: nat, worker: Worker)
    requires IsRun(run, acts) && WorkerHeard(run, acts, n, worker)
    ensures WorkerHeard(run, acts, n + 1, worker)
  {
    hide AnsweredAt, QuoteLostAt, IsRun;
  }

  lemma JustHeard(run: seq<State>, acts: seq<Action>, n: nat)
    requires IsRun(run, acts) && n < |acts| && acts[n].Provider? && acts[n].w < |run[n].pool.workers|
    requires run[n].pool.workers[acts[n].w].Calling?
    ensures WorkerHeard(run, acts, n + 1, Answered(run[n].pool.workers[acts[n].w], acts[n].answer, run[n].clock))
  {
    hide Enabled, Apply;
    assert AnsweredAt(run, acts, n, run[n].pool.workers[acts[n].w].req.id, acts[n].answer);
  }

  lemma JustLost(run: seq<State>, acts: seq<Action>, n: nat)
    requires IsRun(run, acts) && n < |acts| && acts[n].Write? && acts[n].w < |run[n].pool.workers|
    requires run[n].pool.workers[acts[n].w].Publishing? && acts[n].fault != NoFault
    ensures WorkerHeard(run, acts, n + 1, NextWorker(run[n].pool.workers[acts[n].w], acts[n].fault, acts[n].why))
  {
    hide Enabled, Apply;
    assert QuoteLostAt(run, acts, n, run[n].pool.workers[acts[n].w].req.id, acts[n].why);
  }

  /** A row leaves pending only by the write of a worker that holds it. */
  lemma RowMoves(s: State, a: Action, id: nat)
    requires TableInv(s) && Enabled(s, a) && id < |Apply(s, a).db.rows|
    requires Apply(s, a).db.rows[id].status != Pending
    ensures id < |s.db.rows|
    ensures Apply(s, a).db.rows[id] == s.db.rows[id] || (a.Write? && Settles(s, a.w, id, Apply(s, a).db.rows[id]))
  {
    hide CallStep, ParsePair, IsListing, TableOk, CallOk, Supported;
    Untouched(s, a);
    if a.Query? {
      StatementKeeps(s.db.rows, s.callers[a.c].call, a.fault, a.dbNow);
    }
  }

  ghost predicate Settles(s: State, w: nat, id: nat, row: Row) {
    && w < |s.pool.workers| && Writing(s.pool.workers[w]) && s.pool.workers[w].req.id == id
    && match s.pool.workers[w]
       case Completing(_, price, now) => row.status == Completed && row.price == Some(price) && row.updatedAt == now
       case Failing(_, reason) => row.status == Failed && Shows(row, reason)
       case _ => false
  }

  /** The row shows the reason cut to 500 bytes, and the cut text is well formed. */
  predicate Shows(row: Row, reason: Bytes) {
    row.error == Some(Cut(reason, 500)) && Storable(Cut(reason, 500))
  }

  /** A completed row shows a price the provider answered to a worker asking for that very row, and
      the instant at which the worker took it; a failed row shows what the provider complained of, or
      what the database said when the quote could not be written, cut to 500 bytes. No other price and
      no other reason ever reaches a row. */
  lemma {:induction false} OutcomeWasHeard(run: seq<State>, acts: seq<Action>, n: nat, id: nat)
    requires Starts(run, acts) && n < |run| && id < |run[n].db.rows| && run[n].db.rows[id].status != Pending
    requires id < |run[0].db.rows| ==> run[0].db.rows[id].status == Pending
    ensures var row := run[n].db.rows[id];
      && (row.status == Completed ==> row.price.Some? && PriceHeard(run, acts, n, id, row.price.value, row.updatedAt))
      && (row.status == Failed ==>
            exists reason :: FailureHeard(run, acts, n, id, reason) && Shows(row, reason))
  {
    hide Init, Enabled, Apply, PriceHeard, FailureHeard, HeldInv, Conserved, LifeInv, ExitInv, PublishedInv, TableInv;
    var s, a := run[n - 1], acts[n - 1];
    Reachable(run, acts, n - 1);
    RowMoves(s, a, id);
    if run[n].db.rows[id] == s.db.rows[id] {
      OutcomeWasHeard(run, acts, n - 1, id);
      OutcomeStays(run, acts, n - 1, id);
    } else {
      HeldStory(run, acts, n - 1, a.w);
      HeardStays(run, acts, n - 1, s.pool.workers[a.w]);
    }
  }

  /** A row of which providers only ever complained in texts that the cut makes malformed stays
      pending, however often resync queues it. */
  lemma RefusedStaysPending(run: seq<State>, acts: seq<Action>, n: nat, id: nat)
    requires Starts(run, acts) && n < |run| && id < |run[n].db.rows|
    requires id < |run[0].db.rows| ==> run[0].db.rows[id].status == Pending
    requires forall price, at :: !PriceHeard(run, acts, n, id, price, at)
    requires forall reason :: FailureHeard(run, acts, n, id, reason) ==> !Storable(Cut(reason, 500))
    ensures run[n].db.rows[id].status == Pending
  {
    hide Starts, PriceHeard, FailureHeard, Storable, Cut;
    if run[n].db.rows[id].status != Pending {
      OutcomeWasHeard(run, acts, n, id);
    }
  }

  /** Every quote ever written is a provider's answer for a row of that very pair, dated by the
      instant at which the worker took it. */
  lemma QuoteWasHeard(run: seq<State>, acts: seq<Action>, n: nat, q: QuoteWrite)
    requires Starts(run, acts) && n < |run| && q in run[n].db.writes
    ensures exists id: nat ::
      id < |run[n].db.rows| && run[n].db.rows[id].pair == q.pair && PriceHeard(run, acts, n, id, q.price, q.at)
  {
    hide Init, Enabled, Apply, AnsweredAt, TableInv, Conserved, LifeInv, ExitInv, PublishedInv;
    WriteHappened(run, acts, n, q);
    var t: nat :| t < n && WritesQuote(run, acts, t, q);
    var worker := run[t].pool.workers[acts[t].w];
    HeldStory(run, acts, t, acts[t].w);
    Reachable(run, acts, t);
    assert Fits(run[t].db.rows, worker.req);
    Between(run, acts, t, n);
    FitsForever(run[t].db.rows, run[n].db.rows, worker.req);
  }

  lemma OutcomeStays(run: seq<State>, acts: seq<Action>, n: nat, id: nat)
    requires IsRun(run, acts)
    ensures forall price, at :: PriceHeard(run, acts, n, id, price, at) ==> PriceHeard(run, acts, n + 1, id, price, at)
    ensures forall reason :: FailureHeard(run, acts, n, id, reason) ==> FailureHeard(run, acts, n + 1, id, reason)
  {
    hide AnsweredAt, QuoteLostAt, IsRun;
  }
}
