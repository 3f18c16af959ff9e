/** What the service guarantees over whole runs, for every interleaving of callers, workers,
    resync and shutdown, and wherever a statement may fail. */
module Guarantees {
  import opened Wrappers
  import opened Domain
  import opened Requests
  import opened Storage
  import opened System
  import opened Invariants

  // ---------- reachable states ----------

  ghost predicate Inv(s: State) {
    && TableInv(s) && HeldInv(s) && Conserved(s.cfg.capacity, s.pool)
    && LifeInv(s) && ExitInv(s.life, s.pool) && |s.pool.workers| >= 1
  }

  ghost predicate Starts(run: seq<State>, acts: seq<Action>) {
    IsRun(run, acts) && Init(run[0])
  }

  function CompletedIds(rows: seq<Row>): set<nat> {
    set id: nat | id < |rows| && rows[id].status == Completed
  }

  lemma InitInv(s: State)
    requires Init(s)
    ensures Inv(s) && PublishedInv(s, CompletedIds(s.db.rows))
  {
    hide TableInv, HeldInv, Conserved, LifeInv, ExitInv, PublishedInv;
    InitTable(s);
    InitPool(s);
    InitLife(s);
  }

  lemma InitTable(s: State)
    requires Init(s)
    ensures TableInv(s) && HeldInv(s)
  {
    hide TableOk, Fits, CallOk, Supported;
  }

  lemma InitPool(s: State)
    requires Init(s)
    ensures Conserved(s.cfg.capacity, s.pool) && PublishedInv(s, CompletedIds(s.db.rows))
  {
    hide TableOk, Held, Wrote;
    HeldNothing(s.pool.workers);
  }

  lemma InitLife(s: State)
    requires Init(s)
    ensures LifeInv(s) && ExitInv(s.life, s.pool)
  {
    hide TableOk;
  }

  lemma {:induction false} HeldNothing(workers: seq<Worker>)
    requires forall w :: 0 <= w < |workers| ==> workers[w].Idle? || workers[w].Exited?
    ensures Held(workers) == multiset{}
  {
    if workers != [] {
      HeldNothing(workers[1..]);
    }
  }

  lemma {:induction false} Reachable(run: seq<State>, acts: seq<Action>, n: nat)
    requires Starts(run, acts) && n < |run|
    ensures Inv(run[n]) && PublishedInv(run[n], CompletedIds(run[0].db.rows))
  {
    hide Init, Enabled, Apply, TableInv, HeldInv, Conserved, LifeInv, ExitInv, PublishedInv;
    if n == 0 {
      InitInv(run[0]);
    } else {
      Reachable(run, acts, n - 1);
      var s, a := run[n - 1], acts[n - 1];
      TableStep(s, a);
      HeldStep(s, a);
      ConservedStep(s, a);
      LifeStep(s, a);
      ExitStep(s, a);
      PublishedStep(s, a, CompletedIds(run[0].db.rows));
      Untouched(s, a);
    }
  }

  /** Between two instants of a run the tables only evolve. */
  lemma {:induction false} Between(run: seq<State>, acts: seq<Action>, i: nat, j: nat)
    requires Starts(run, acts) && i <= j < |run|
    ensures Evolves(run[i].db.rows, run[j].db.rows) && DbGrows(run[i].db, run[j].db)
    decreases j
  {
    hide Init, Enabled, Apply, TableInv, HeldInv, Conserved, LifeInv, ExitInv, PublishedInv, RowEvolves;
    if i == j {
      EvolvesReflexive(run[i].db.rows);
    } else {
      Between(run, acts, i, j - 1);
      Reachable(run, acts, j - 1);
      TableStep(run[j - 1], acts[j - 1]);
      PublishedStep(run[j - 1], acts[j - 1], CompletedIds(run[0].db.rows));
      EvolvesTransitive(run[i].db.rows, run[j - 1].db.rows, run[j].db.rows);
    }
  }

  // ---------- uniqueness and life cycle ----------

  /** At every instant at most one row is pending for a pair and at most one row has a key. */
  lemma OneRowPerPairAndKey(run: seq<State>, acts: seq<Action>, n: nat, i: nat, j: nat)
    requires Starts(run, acts) && n < |run| && i < |run[n].db.rows| && j < |run[n].db.rows| && i != j
    ensures var a, b := run[n].db.rows[i], run[n].db.rows[j];
      !(a.status == Pending && b.status == Pending && a.pair == b.pair) && !(a.key.Some? && a.key == b.key)
  {
    hide Init, Enabled, Apply, HeldInv, Conserved, LifeInv, ExitInv, PublishedInv;
    Reachable(run, acts, n);
    assert UniqueKeys(run[n].db.rows) && UniquePending(run[n].db.rows);
  }

  /** A terminal row has the columns of its status and never changes again; a row never changes
      its pair, key or creation time. */
  lemma TerminalForever(run: seq<State>, acts: seq<Action>, i: nat, j: nat, id: nat)
    requires Starts(run, acts) && i <= j < |run| && id < |run[i].db.rows|
    ensures id < |run[j].db.rows|
    ensures var a, b := run[i].db.rows[id], run[j].db.rows[id];
      && ShapeOk(a) && ShapeOk(b)
      && a.pair == b.pair && a.key == b.key && a.createdAt == b.createdAt
      && (a.status != Pending ==> b == a)
  {
    hide Init, Enabled, Apply, HeldInv, Conserved, LifeInv, ExitInv, PublishedInv;
    Reachable(run, acts, i);
    Reachable(run, acts, j);
    Between(run, acts, i, j);
    assert RowEvolves(run[i].db.rows[id], run[j].db.rows[id]);
  }

  /** Whatever waits in the queue, or is held by a worker, or is about to be sent by resync agrees
      with its row on id and pair. */
  lemma HeldAgreesWithTable(run: seq<State>, acts: seq<Action>, n: nat, req: Request)
    requires Starts(run, acts) && n < |run|
    requires var s := run[n];
      || req in s.pool.queue
      || (exists w :: 0 <= w < |s.pool.workers| && !s.pool.workers[w].Idle? && !s.pool.workers[w].Exited?
            && s.pool.workers[w].req == req)
      || (exists r :: 0 <= r < |s.resyncers| && s.resyncers[r].Sending? && req in s.resyncers[r].reqs)
    ensures var rows := run[n].db.rows;
      req.id < |rows| && ValidPair(req.pair) && ParsePair(rows[req.id].pair) == Success(req.pair)
  {
    hide Init, Enabled, Apply, TableInv, Conserved, LifeInv, ExitInv, PublishedInv, ParsePair;
    Reachable(run, acts, n);
    assert Fits(run[n].db.rows, req);
    RoundTrip(req.pair);
  }

  // ---------- completed implies published ----------

  /** A row completed during the run had its quote written earlier in the run, with the same
      pair, price and time; that pair has a quote ever after. */
  lemma CompletedWasPublished(run: seq<State>, acts: seq<Action>, n: nat, id: nat)
    requires Starts(run, acts) && n < |run| && id < |run[n].db.rows|
    requires run[n].db.rows[id].status == Completed
    requires id >= |run[0].db.rows| || run[0].db.rows[id].status != Completed
    ensures var row := run[n].db.rows[id];
      row.price.Some?
      && var q := QuoteWrite(row.pair, row.price.value, row.updatedAt);
         exists t: nat :: t < n && WritesQuote(run, acts, t, q)
    ensures forall m :: n <= m < |run| ==> run[n].db.rows[id].pair in run[m].db.quotes
  {
    hide Init, Enabled, Apply, TableInv, HeldInv, Conserved, LifeInv, ExitInv;
    Reachable(run, acts, n);
    var row := run[n].db.rows[id];
    assert Wrote(run[n].db.writes, row);
    forall m | n <= m < |run| ensures row.pair in run[m].db.quotes {
      Between(run, acts, n, m);
    }
    WriteHappened(run, acts, n, QuoteWrite(row.pair, row.price.value, row.updatedAt));
  }

  /** Step `t` of the run is a worker writing exactly this quote. */
  ghost predicate WritesQuote(run: seq<State>, acts: seq<Action>, t: nat, q: QuoteWrite)
    requires IsRun(run, acts)
  {
    && t < |acts| && acts[t].Write? && acts[t].fault != LostBefore && acts[t].w < |run[t].pool.workers|
    && IsPublishing(run[t].pool.workers[acts[t].w], q)
    && q.pair in run[t + 1].db.quotes && run[t + 1].db.quotes[q.pair] == Quote(q.price, q.at)
  }

  predicate IsPublishing(worker: Worker, q: QuoteWrite) {
    worker.Publishing? && q == QuoteWrite(worker.req.pair.ToString(), worker.price, worker.now)
  }

  lemma {:induction false} WriteHappened(run: seq<State>, acts: seq<Action>, n: nat, q: QuoteWrite)
    requires Starts(run, acts) && n < |run| && q in run[n].db.writes
    ensures exists t: nat :: t < n && WritesQuote(run, acts, t, q)
  {
    hide Enabled, Apply;
    if n > 0 {
      var s, a := run[n - 1], acts[n - 1];
      if q in s.db.writes {
        WriteHappened(run, acts, n - 1, q);
      } else {
        NewWrite(s, a, q);
        assert WritesQuote(run, acts, n - 1, q);
      }
    }
  }

  lemma NewWrite(s: State, a: Action, q: QuoteWrite)
    requires Enabled(s, a) && q in Apply(s, a).db.writes && q !in s.db.writes
    ensures a.Write? && a.fault != LostBefore && a.w < |s.pool.workers|
    ensures var quotes := Apply(s, a).db.quotes;
      IsPublishing(s.pool.workers[a.w], q) && q.pair in quotes && quotes[q.pair] == Quote(q.price, q.at)
  {
    hide CallStep, ParsePair, IsListing;
    Untouched(s, a);
  }

  /** The pair's quote is its last write, or what it was at start if it has none. */
  ghost predicate LastWritten(start: map<string, Quote>, db: Db, pair: string) {
    || (exists k :: 0 <= k < |db.writes| && db.writes[k].pair == pair
          && (forall j :: k < j < |db.writes| ==> db.writes[j].pair != pair)
          && pair in db.quotes && db.quotes[pair] == Quote(db.writes[k].price, db.writes[k].at))
    || ((forall k :: 0 <= k < |db.writes| ==> db.writes[k].pair != pair)
        && (pair in db.quotes <==> pair in start) && (pair in start ==> db.quotes[pair] == start[pair]))
  }

  lemma WriteIsLast(start: map<string, Quote>, db: Db, worker: Worker, fault: Fault, dbNow: int, pair: string)
    requires Writing(worker) && LastWritten(start, db, pair)
    ensures LastWritten(start, WriteDb(db, worker, fault, dbNow), pair)
  {
    hide CompleteRow, FailRow;
    var db' := WriteDb(db, worker, fault, dbNow);
    if worker.Publishing? && fault != LostBefore {
      var n := |db.writes|;
      var q := db'.writes[n];
      if q.pair != pair && exists k :: 0 <= k < n && db.writes[k].pair == pair {
        var k :| 0 <= k < n && db.writes[k].pair == pair && (forall j :: k < j < n ==> db.writes[j].pair != pair)
          && pair in db.quotes && db.quotes[pair] == Quote(db.writes[k].price, db.writes[k].at);
        assert db'.writes[k] == db.writes[k];
      }
    }
  }

  /** At every instant of every run the quotes are exactly what the writes so far have left: each pair
      shows its own last write, untouched by the writes of other pairs. */
  lemma {:induction false} QuotesAreLastWrites(run: seq<State>, acts: seq<Action>, n: nat, pair: string)
    requires Starts(run, acts) && n < |run|
    ensures LastWritten(run[0].db.quotes, run[n].db, pair)
  {
    hide Enabled, Apply, LastWritten;
    if n == 0 {
      NothingWritten(run[0], pair);
    } else {
      QuotesAreLastWrites(run, acts, n - 1, pair);
      QuotesStep(run[0].db.quotes, run[n - 1], acts[n - 1], pair);
    }
  }

  lemma NothingWritten(s: State, pair: string)
    requires Init(s)
    ensures LastWritten(s.db.quotes, s.db, pair)
  {
  }

  lemma QuotesStep(start: map<string, Quote>, s: State, a: Action, pair: string)
    requires Enabled(s, a) && LastWritten(start, s.db, pair)
    ensures LastWritten(start, Apply(s, a).db, pair)
  {
    hide CallStep, ParsePair, IsListing, WriteDb;
    Untouched(s, a);
    if a.Write? {
      WriteIsLast(start, s.db, s.pool.workers[a.w], a.fault, a.dbNow, pair);
    }
  }

  /** A resync pass ends when its listing fails or runs out; the start-up thread is then finished and
      the loop waits for its next tick. */
  lemma PassEnds(s: State, a: Action)
    requires Enabled(s, a) && (a.ResyncList? || a.ResyncSend?)
    ensures var over := if a.ResyncList? then a.listing == None else s.resyncers[a.r].reqs == [];
      && (over ==> Apply(s, a) == s.(resyncers := s.resyncers[a.r := if a.r == 0 then Stopped else Waiting]))
      && (!over ==> Apply(s, a).resyncers[a.r].Sending?)
  {
    hide IsListing;
  }

  // ---------- what is offered to the queue ----------

  /** The request a step offers to the queue: a created row handed over, or the next of a listing. */
  function Offered(s: State, a: Action): Option<Request>
    requires Enabled(s, a)
  {
    if a.HandOver? then Some(s.callers[a.c].call.pc.outcome.req)
    else if a.ResyncSend? && s.resyncers[a.r].reqs != [] then Some(s.resyncers[a.r].reqs[0])
    else None
  }

  /** Exactly what is offered to an open queue with room is accepted, at its end; all else is dropped. */
  lemma AcceptedExactly(run: seq<State>, acts: seq<Action>, n: nat)
    requires Starts(run, acts) && n < |acts|
    ensures Enabled(run[n], acts[n])
    ensures var s, offer := run[n], Offered(run[n], acts[n]);
      run[n + 1].pool.accepted == s.pool.accepted
        + if offer.Some? && !Closed(s.life) && |s.pool.queue| < s.cfg.capacity then [offer.value] else []
  {
    hide CallStep, ParsePair, IsListing, WriteDb, Init, AllIdle, AllStopped, AllExited;
    Untouched(run[n], acts[n]);
  }

  /** With a single worker, and no quote from the future at start, no quote ever goes back in time. */
  lemma {:induction false} OneWorkerNeverGoesBack(run: seq<State>, acts: seq<Action>, i: nat, j: nat)
    requires Starts(run, acts) && |run[0].pool.workers| == 1 && i <= j < |run|
    requires QuotesBy(run[0].db.quotes, run[0].clock)
    ensures TimeInv(run[j]) && QuotesAdvance(run[i].db.quotes, run[j].db.quotes)
    decreases j
  {
    hide Enabled, Apply;
    if j == 0 {
    } else if i == j {
      OneWorkerNeverGoesBack(run, acts, i - 1, j - 1);
      TimeStep(run[j - 1], acts[j - 1]);
    } else {
      OneWorkerNeverGoesBack(run, acts, i, j - 1);
      TimeStep(run[j - 1], acts[j - 1]);
    }
  }

  // ---------- shutdown ----------

  /** Nothing accepted is lost or done twice, and entries leave the queue in order of arrival. */
  lemma AcceptedIsConserved(run: seq<State>, acts: seq<Action>, n: nat)
    requires Starts(run, acts) && n < |run|
    ensures var p := run[n].pool;
      && multiset(p.accepted) == p.processed + multiset(p.queue) + Held(p.workers)
      && |p.queue| <= |p.accepted| && p.queue == p.accepted[|p.accepted| - |p.queue|..]
  {
    hide Init, Enabled, Apply, TableInv, HeldInv, LifeInv, ExitInv, PublishedInv;
    Reachable(run, acts, n);
  }

  /** When shutdown ends because all workers left, everything accepted has been processed. */
  lemma DrainedMeansProcessed(run: seq<State>, acts: seq<Action>, n: nat)
    requires Starts(run, acts) && n < |run| && run[n].life.phase == Finished(true)
    ensures run[n].pool.queue == [] && run[n].pool.processed == multiset(run[n].pool.accepted)
  {
    hide Init, Enabled, Apply, TableInv, HeldInv, LifeInv, PublishedInv;
    Reachable(run, acts, n);
    HeldNothing(run[n].pool.workers);
    assert run[n].pool.workers[0].Exited?;
  }

  lemma {:induction false} NeverReopens(run: seq<State>, acts: seq<Action>, i: nat, j: nat)
    requires IsRun(run, acts) && i <= j < |run|
    ensures !run[i].life.phase.Running? ==> !run[j].life.phase.Running?
    ensures Closed(run[i].life) ==> Closed(run[j].life)
    decreases j
  {
    hide Enabled, Apply;
    if i < j {
      NeverReopens(run, acts, i, j - 1);
      PhaseStep(run[j - 1], acts[j - 1]);
    }
  }

  /** A created row is handed over after the queue was closed. */
  ghost predicate SendsLate(run: seq<State>, acts: seq<Action>, t: nat)
    requires IsRun(run, acts)
  {
    t < |acts| && acts[t].HandOver? && Closed(run[t].life)
  }

  /** A send on the closed queue panics exactly if some created row is handed over after the close. */
  lemma {:induction false} PanicsExactly(run: seq<State>, acts: seq<Action>, n: nat)
    requires Starts(run, acts) && n < |run|
    ensures run[n].life.panicked <==> exists t: nat :: t < n && SendsLate(run, acts, t)
  {
    hide Enabled, Apply, TableInv, HeldInv, Conserved, ExitInv, PublishedInv, LifeInv;
    if n > 0 {
      PanicsExactly(run, acts, n - 1);
      Reachable(run, acts, n - 1);
      PanicStep(run[n - 1], acts[n - 1]);
      assert SendsLate(run, acts, n - 1) <==> acts[n - 1].HandOver? && Closed(run[n - 1].life);
    }
  }

  /** From step `t` to instant `n` no call begins; an orderly stop sees to that itself. */
  ghost predicate NoneBegins(acts: seq<Action>, t: nat, n: nat) {
    forall u: nat :: t < u < n && u < |acts| ==> !acts[u].Begin?
  }

  lemma {:induction false} StaysIdle(run: seq<State>, acts: seq<Action>, t: nat, n: nat)
    requires IsRun(run, acts) && t < n < |run| && acts[t].StopHttp? && AllIdle(run[t].callers)
    requires acts[t].timeout ==> NoneBegins(acts, t, n)
    ensures !run[n].life.phase.Running? && AllIdle(run[n].callers)
    ensures !acts[t].timeout ==> !run[n].life.serving
    decreases n
  {
    hide Enabled, Apply, AllIdle;
    if n == t + 1 {
      StopKeepsCalls(run[t], acts[t]);
    } else {
      StaysIdle(run, acts, t, n - 1);
      PhaseStep(run[n - 1], acts[n - 1]);
      IdleStep(run[n - 1], acts[n - 1]);
    }
  }

  lemma StopKeepsCalls(s: State, a: Action)
    requires Enabled(s, a) && a.StopHttp?
    ensures Apply(s, a).callers == s.callers && s.life.phase.Running?
    ensures !Apply(s, a).life.phase.Running? && Apply(s, a).life.serving == a.timeout
  {
  }

  /** If no create call was in flight when the HTTP server stopped, then no send ever follows the
      close, and once the queue is closed nobody is left who could send. After a stop that timed out
      this takes that no call begins later; after an orderly stop none can. */
  lemma CleanStopNeverPanics(run: seq<State>, acts: seq<Action>, t: nat, n: nat)
    requires Starts(run, acts) && t < n < |run| && acts[t].StopHttp? && AllIdle(run[t].callers)
    requires acts[t].timeout ==> NoneBegins(acts, t, n)
    ensures !run[n].life.panicked
    ensures Closed(run[n].life) ==> AllStopped(run[n].resyncers) && AllIdle(run[n].callers)
  {
    hide Init, Enabled, Apply, TableInv, HeldInv, Conserved, ExitInv, PublishedInv;
    Reachable(run, acts, n);
    PanicsExactly(run, acts, n);
    StaysIdle(run, acts, t, n);
    if run[n].life.panicked {
      var u: nat :| u < n && SendsLate(run, acts, u);
      if u <= t {
        NeverReopens(run, acts, u, t);
        StopKeepsCalls(run[t], acts[t]);
      } else {
        StaysIdle(run, acts, t, u);
        HandsOver(run[u], acts[u]);
      }
    }
  }

  /** An orderly stop: the server waited until no call was in flight, so the run never panics. */
  lemma OrderlyStopNeverPanics(run: seq<State>, acts: seq<Action>, t: nat, n: nat)
    requires Starts(run, acts) && t < n < |run| && acts[t] == StopHttp(false)
    ensures !run[n].life.panicked
  {
    hide Init, Apply;
    assert Enabled(run[t], acts[t]);
    CleanStopNeverPanics(run, acts, t, n);
  }

  lemma HandsOver(s: State, a: Action)
    requires Enabled(s, a) && a.HandOver?
    ensures !AllIdle(s.callers)
  {
    assert InFlight(s.callers[a.c]);
  }
}
