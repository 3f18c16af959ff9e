/** What every step of the service keeps. */
module Invariants {
  import opened Wrappers
  import opened Domain
  import opened Requests
  import opened Storage
  import opened System
  import opened Utf8

  // ---------- one statement of a create call ----------

  /** The request names an existing row and agrees with it on the pair. */
  ghost predicate Fits(rows: seq<Row>, req: Request) {
    req.id < |rows| && ValidPair(req.pair) && req.pair.ToString() == rows[req.id].pair
  }

  /** The row carries the caller's key, or is pending for the caller's pair. */
  ghost predicate Answers(c: Call, row: Row) {
    (c.key != [] && Matches(row, ByKey(c.key))) || Matches(row, PendingPair(c.pair.ToString()))
  }

  ghost predicate CallOk(rows: seq<Row>, c: Call) {
    && ValidPair(c.pair) && (c.pc.CheckKey? || c.pc.Done? || Storable(c.key))
    && match c.pc
       case CheckKey => c.key != []
       case RecoverKey(hit) => c.key != [] && hit < |rows|
       case RecoverPending(hit) => hit < |rows|
       case Done(Returned(req, _)) => Fits(rows, req)
       case _ => true
  }

  /** What one statement does to the table and to the call. */
  ghost predicate StatementEffect(rows: seq<Row>, c: Call, rows': seq<Row>, c': Call, now: int) {
    && TableOk(rows') && Evolves(rows, rows')
    && (rows' == rows || rows' == rows + [NewRow(c.pair.ToString(), c.key, now)])
    && c'.pair == c.pair && c'.key == c.key && CallOk(rows', c')
    && (c'.pc.Done? && c'.pc.outcome.Returned? ==>
          var req := c'.pc.outcome.req;
          if c'.pc.outcome.created
          then c.pc.Inserting? && req.id == |rows| && |rows'| == |rows| + 1 && SnapshotOf(req, req.id, rows'[req.id])
          else req.id < |rows| && SnapshotOf(req, req.id, rows[req.id]) && Answers(c, rows[req.id]))
  }

  lemma FitsForever(rows: seq<Row>, rows': seq<Row>, req: Request)
    requires Fits(rows, req) && Evolves(rows, rows')
    ensures Fits(rows', req)
  {
    assert RowEvolves(rows[req.id], rows'[req.id]);
  }

  lemma CallOkForever(rows: seq<Row>, rows': seq<Row>, c: Call)
    requires CallOk(rows, c) && Evolves(rows, rows')
    ensures CallOk(rows', c)
  {
    if c.pc.Done? && c.pc.outcome.Returned? {
      FitsForever(rows, rows', c.pc.outcome.req);
    }
  }

  lemma StatementKeeps(rows: seq<Row>, c: Call, fault: Fault, now: int)
    requires TableOk(rows) && CallOk(rows, c) && !c.pc.Done?
    ensures var r := CallStep(rows, c, fault, now); StatementEffect(rows, c, r.0, r.1, now)
  {
    hide SelectOne, Insert, TableOk, SnapshotOf;
    assert Evolves(rows, rows);
    match c.pc {
      case CheckKey => LookupAnswers(rows, c, ByKey(c.key), fault);
      case CheckPending => LookupAnswers(rows, c, PendingPair(c.pair.ToString()), fault);
      case Inserting =>
        InsertKeeps(rows, c.pair, c.key, now, fault);
        InsertReturns(rows, c.pair, c.key, now, fault);
      case RecoverPending(_) => LookupAnswers(rows, c, PendingPair(c.pair.ToString()), fault);
      case RecoverKey(_) => LookupAnswers(rows, c, ByKey(c.key), fault);
    }
  }

  lemma LookupAnswers(rows: seq<Row>, c: Call, w: Where, fault: Fault)
    requires TableOk(rows)
    ensures !SelectOne(rows, w, fault).Broken? ==> !Refused(w)
    ensures var a := SelectOne(rows, w, fault);
      a.Found? ==>
        Fits(rows, a.req) && SnapshotOf(a.req, a.req.id, rows[a.req.id]) && Matches(rows[a.req.id], w)
  {
    SelectOneExact(rows, w);
    assert fault == NoFault || SelectOne(rows, w, fault).Broken?;
  }

  lemma InsertReturns(rows: seq<Row>, pair: Pair, key: Bytes, now: int, fault: Fault)
    requires TableOk(rows) && ValidPair(pair)
    ensures var r := Insert(rows, pair.ToString(), key, now, fault);
      && (r.0 == rows || r.0 == rows + [NewRow(pair.ToString(), key, now)])
      && (r.1.Inserted? ==> r.1.req.id == |rows| && |r.0| == |rows| + 1)
      && (r.1.Inserted? ==> Fits(r.0, r.1.req) && SnapshotOf(r.1.req, |rows|, r.0[|rows|]))
      && (r.1.Violation? ==> r.1.hit < |rows| && r.0 == rows)
  {
    RoundTrip(pair);
  }

  // ---------- the table and the calls, under every action ----------

  ghost predicate CallersOk(cfg: Config, rows: seq<Row>, callers: seq<Caller>) {
    forall c :: 0 <= c < |callers| ==>
      CallOk(rows, callers[c].call) && Supported(cfg, callers[c].call.pair.ToString())
  }

  ghost predicate TableInv(s: State) {
    TableOk(s.db.rows) && CallersOk(s.cfg, s.db.rows, s.callers)
  }

  /** Which parts of the state an action leaves alone. */
  lemma Untouched(s: State, a: Action)
    requires Enabled(s, a)
    ensures var t := Apply(s, a);
      && t.cfg == s.cfg && |t.resyncers| == 2
      && (!a.Query? && !a.Write? ==> t.db == s.db)
      && (!a.Query? && !a.Begin? && !a.HandOver? ==> t.callers == s.callers)
      && (!a.HandOver? && !a.ResyncSend? && !a.Take? && !a.Provider? && !a.Write? ==> t.pool == s.pool)
      && (!a.ResyncTick? && !a.ResyncList? && !a.ResyncSend? && !a.ResyncStop? ==> t.resyncers == s.resyncers)
      && (a.Query? || a.Begin? || a.Take? || a.Provider? || a.Write? || a.Tick? ==> t.life == s.life)
      && (!a.Tick? ==> t.clock == s.clock)
  {
    hide CallStep, CompleteRow, FailRow, ParsePair, Upsert, IsListing, WriteDb, WritePool, AllIdle, AllStopped,
      AllExited;
  }

  lemma TableStep(s: State, a: Action)
    requires TableInv(s) && Enabled(s, a)
    ensures var t := Apply(s, a); TableInv(t) && Evolves(s.db.rows, t.db.rows)
  {
    hide CallStep, WriteDb, WritePool, TableOk, ParsePair, Supported, IsListing, CallOk, Enqueue;
    var t := Apply(s, a);
    Untouched(s, a);
    assert Evolves(s.db.rows, s.db.rows);
    match a {
      case Query(c, fault, dbNow) => QueryKeepsTable(s, c, fault, dbNow);
      case Write(w, fault, dbNow, why) =>
        WriteKeepsTable(s.db, s.pool.workers[w], fault, dbNow);
        CallersForever(s.cfg, s.db.rows, t.db.rows, s.callers);
      case Begin(text, key) => BeginKeepsCallers(s, text, key);
      case HandOver(c) =>
        HandOverCallers(s, c);
      case _ =>
    }
  }

  lemma HandOverCallers(s: State, c: nat)
    requires Enabled(s, HandOver(c))
    ensures Apply(s, HandOver(c)).callers == s.callers[c := s.callers[c].(handed := true)]
  {
  }

  lemma BeginKeepsCallers(s: State, text: string, key: Bytes)
    requires Enabled(s, Begin(text, key)) && CallersOk(s.cfg, s.db.rows, s.callers)
    ensures CallersOk(s.cfg, s.db.rows, Apply(s, Begin(text, key)).callers)
  {
    hide ParsePair;
    var p := Admit(s.cfg, text);
    if p.Some? {
      assert ParsePair(text) == Success(p.value);
    }
  }

  lemma CallersForever(cfg: Config, rows: seq<Row>, rows': seq<Row>, callers: seq<Caller>)
    requires CallersOk(cfg, rows, callers) && Evolves(rows, rows')
    ensures CallersOk(cfg, rows', callers)
  {
    hide CallOk, Supported;
    forall c | 0 <= c < |callers| ensures CallOk(rows', callers[c].call) {
      CallOkForever(rows, rows', callers[c].call);
    }
  }

  lemma QueryKeepsTable(s: State, c: nat, fault: Fault, dbNow: int)
    requires TableInv(s) && Enabled(s, Query(c, fault, dbNow))
    ensures var t := DoQuery(s, c, fault, dbNow); TableInv(t) && Evolves(s.db.rows, t.db.rows)
  {
    hide CallStep, TableOk, Supported, CallOk, Evolves;
    var t := DoQuery(s, c, fault, dbNow);
    var call := s.callers[c].call;
    StatementKeeps(s.db.rows, call, fault, dbNow);
    CallersForever(s.cfg, s.db.rows, t.db.rows, s.callers);
  }

  lemma WriteKeepsTable(db: Db, worker: Worker, fault: Fault, dbNow: int)
    requires TableOk(db.rows) && Writing(worker)
    ensures var rows := WriteDb(db, worker, fault, dbNow).rows;
      TableOk(rows) && Evolves(db.rows, rows) && |rows| == |db.rows|
  {
    hide TableOk, CompleteRow, FailRow;
    match worker {
      case Completing(req, price, now) => CompleteKeeps(db.rows, req.id, price, now, fault);
      case Failing(req, reason) => FailKeeps(db.rows, req.id, reason, dbNow, fault);
      case Publishing(_, _, _) =>
    }
  }

  // ---------- every queued or held request fits its row ----------

  ghost predicate AllFit(rows: seq<Row>, reqs: seq<Request>) {
    forall k :: 0 <= k < |reqs| ==> Fits(rows, reqs[k])
  }

  ghost predicate WorkersFit(rows: seq<Row>, workers: seq<Worker>) {
    forall w :: 0 <= w < |workers| ==> workers[w].Idle? || workers[w].Exited? || Fits(rows, workers[w].req)
  }

  ghost predicate ResyncersFit(rows: seq<Row>, resyncers: seq<Resyncer>) {
    forall r :: 0 <= r < |resyncers| && resyncers[r].Sending? ==> AllFit(rows, resyncers[r].reqs)
  }

  ghost predicate HeldFit(rows: seq<Row>, pool: Pool, resyncers: seq<Resyncer>) {
    AllFit(rows, pool.queue) && WorkersFit(rows, pool.workers) && ResyncersFit(rows, resyncers)
  }

  ghost predicate HeldInv(s: State) {
    HeldFit(s.db.rows, s.pool, s.resyncers)
  }

  lemma HeldForever(rows: seq<Row>, rows': seq<Row>, pool: Pool, resyncers: seq<Resyncer>)
    requires HeldFit(rows, pool, resyncers) && Evolves(rows, rows')
    ensures HeldFit(rows', pool, resyncers)
  {
    hide Fits, Evolves;
    forall req | Fits(rows, req) ensures Fits(rows', req) {
      FitsForever(rows, rows', req);
    }
  }

  lemma ListingFits(rows: seq<Row>, n: nat, out: seq<Request>)
    requires IsListing(rows, n, out)
    ensures AllFit(rows, out)
  {
    assert forall k :: 0 <= k < |out| ==> Snapshot(rows, out[k]);
  }

  lemma HeldStep(s: State, a: Action)
    requires TableInv(s) && HeldInv(s) && Enabled(s, a)
    ensures HeldInv(Apply(s, a))
  {
    hide CallStep, WriteDb, WritePool, DoQuery, TableOk, ParsePair, Supported, IsListing, CallOk,
      CallersOk, Fits, Evolves;
    var t := Apply(s, a);
    TableStep(s, a);
    Untouched(s, a);
    HeldForever(s.db.rows, t.db.rows, s.pool, s.resyncers);
    match a {
      case Write(w, fault, _, why) => WriteHolds(t.db.rows, s.pool, w, fault, why);
      case ResyncList(r, listing) =>
        if listing.Some? {
          ListingFits(s.db.rows, RESYNC_LIMIT, listing.value);
        }
      case HandOver(c) => HandOverFits(s, c);
      case _ =>
    }
  }

  lemma HandOverFits(s: State, c: nat)
    requires TableInv(s) && HeldInv(s) && Enabled(s, HandOver(c))
    ensures HeldInv(DoHandOver(s, c))
  {
    hide TableOk, Fits, Supported;
    assert CallOk(s.db.rows, s.callers[c].call);
  }

  lemma WriteHolds(rows: seq<Row>, pool: Pool, w: nat, fault: Fault, why: Bytes)
    requires w < |pool.workers| && Writing(pool.workers[w]) && WorkersFit(rows, pool.workers)
    ensures var pool' := WritePool(pool, w, fault, why);
      WorkersFit(rows, pool'.workers) && pool'.queue == pool.queue && pool'.accepted == pool.accepted
      && |pool'.workers| == |pool.workers|
  {
    hide Fits;
  }

  // ---------- nothing accepted is lost or duplicated ----------

  function Load(worker: Worker): multiset<Request> {
    if worker.Idle? || worker.Exited? then multiset{} else multiset{worker.req}
  }

  function Held(workers: seq<Worker>): multiset<Request> {
    if workers == [] then multiset{} else Load(workers[0]) + Held(workers[1..])
  }

  lemma {:induction false} HeldUpdate(workers: seq<Worker>, w: nat, worker: Worker)
    requires w < |workers|
    ensures Held(workers[w := worker]) + Load(workers[w]) == Held(workers) + Load(worker)
  {
    hide Load;
    var changed := workers[w := worker];
    var first, rest := Load(workers[0]), Held(workers[1..]);
    if w == 0 {
      assert changed[1..] == workers[1..];
      assert Held(changed) == Load(worker) + rest && Held(workers) == first + rest;
    } else {
      HeldUpdate(workers[1..], w - 1, worker);
      assert changed[1..] == workers[1..][w - 1 := worker];
      var rest' := Held(changed[1..]);
      assert Held(changed) == first + rest' && Held(workers) == first + rest;
      assert rest' + Load(workers[w]) == rest + Load(worker);
      Regroup(first, rest', Load(workers[w]));
      Regroup(first, rest, Load(worker));
    }
  }

  lemma Regroup(a: multiset<Request>, b: multiset<Request>, c: multiset<Request>)
    ensures (a + b) + c == a + (b + c)
  {
  }

  /** Accepted entries are exactly the processed, the queued and the held ones, and the queue is
      the tail of what was accepted: entries leave in the order they came. */
  ghost predicate Conserved(capacity: nat, pool: Pool) {
    && multiset(pool.accepted) == pool.processed + multiset(pool.queue) + Held(pool.workers)
    && |pool.queue| <= |pool.accepted| && |pool.queue| <= capacity
    && pool.queue == pool.accepted[|pool.accepted| - |pool.queue|..]
  }

  lemma OfferConserves(capacity: nat, pool: Pool, req: Request)
    requires Conserved(capacity, pool)
    ensures Conserved(capacity, Offer(capacity, pool, req))
  {
    var pool' := Offer(capacity, pool, req);
    if pool' != pool {
      var n := |pool.accepted| - |pool.queue|;
      assert pool'.accepted[n..] == pool.accepted[n..] + [req];
    }
  }

  /** Moving a load between the queue, the workers and the processed entries changes no total. */
  lemma Rebalance(total: multiset<Request>, done: multiset<Request>, queued: multiset<Request>, held: multiset<Request>,
                  done': multiset<Request>, queued': multiset<Request>, held': multiset<Request>,
                  out: multiset<Request>, into: multiset<Request>)
    requires total == done + queued + held
    requires held' + out == held + into
    requires done' + queued' + into == done + queued + out
    ensures total == done' + queued' + held'
  {
    forall x ensures total[x] == (done' + queued' + held')[x] {
      assert (held' + out)[x] == (held + into)[x];
      assert (done' + queued' + into)[x] == (done + queued + out)[x];
    }
  }

  lemma TakeConserves(capacity: nat, pool: Pool, w: nat)
    requires Conserved(capacity, pool) && w < |pool.workers| && pool.workers[w].Idle?
    ensures Conserved(capacity, TakeNext(pool, w))
  {
    hide Held;
    var pool' := TakeNext(pool, w);
    var next := pool'.workers[w];
    HeldUpdate(pool.workers, w, next);
    if pool.queue != [] {
      assert pool.queue == [pool.queue[0]] + pool.queue[1..];
      assert multiset(pool.queue) == Load(next) + multiset(pool'.queue);
    }
    Rebalance(multiset(pool.accepted), pool.processed, multiset(pool.queue), Held(pool.workers),
              pool'.processed, multiset(pool'.queue), Held(pool'.workers), Load(Idle), Load(next));
  }

  lemma WriteConserves(capacity: nat, pool: Pool, w: nat, fault: Fault, why: Bytes)
    requires Conserved(capacity, pool) && w < |pool.workers| && Writing(pool.workers[w])
    ensures Conserved(capacity, WritePool(pool, w, fault, why))
  {
    hide Held;
    var pool' := WritePool(pool, w, fault, why);
    HeldUpdate(pool.workers, w, pool'.workers[w]);
    Rebalance(multiset(pool.accepted), pool.processed, multiset(pool.queue), Held(pool.workers),
              pool'.processed, multiset(pool'.queue), Held(pool'.workers),
              Load(pool.workers[w]), Load(pool'.workers[w]));
  }

  lemma AnswerConserves(capacity: nat, pool: Pool, w: nat, answer: Result<real, Bytes>, clock: int)
    requires Conserved(capacity, pool) && w < |pool.workers| && pool.workers[w].Calling?
    ensures Conserved(capacity, pool.(workers := pool.workers[w := Answered(pool.workers[w], answer, clock)]))
  {
    hide Held;
    var next := Answered(pool.workers[w], answer, clock);
    HeldUpdate(pool.workers, w, next);
    assert Load(next) == Load(pool.workers[w]);
    Rebalance(multiset(pool.accepted), pool.processed, multiset(pool.queue), Held(pool.workers),
              pool.processed, multiset(pool.queue), Held(pool.workers[w := next]), Load(pool.workers[w]), Load(next));
  }

  lemma ConservedStep(s: State, a: Action)
    requires Conserved(s.cfg.capacity, s.pool) && Enabled(s, a)
    ensures Conserved(s.cfg.capacity, Apply(s, a).pool)
  {
    hide CallStep, WriteDb, WritePool, TakeNext, DoQuery, ParsePair, IsListing, Conserved, Offer;
    Untouched(s, a);
    match a {
      case HandOver(c) => OfferConserves(s.cfg.capacity, s.pool, s.callers[c].call.pc.outcome.req);
      case ResyncSend(r) =>
        if s.resyncers[r].reqs != [] {
          OfferConserves(s.cfg.capacity, s.pool, s.resyncers[r].reqs[0]);
        }
      case Take(w) => TakeConserves(s.cfg.capacity, s.pool, w);
      case Provider(w, answer) => AnswerConserves(s.cfg.capacity, s.pool, w, answer, s.clock);
      case Write(w, fault, _, why) => WriteConserves(s.cfg.capacity, s.pool, w, fault, why);
      case _ =>
    }
  }

  // ---------- completed implies published ----------

  ghost predicate Wrote(writes: seq<QuoteWrite>, row: Row) {
    row.price.Some? && QuoteWrite(row.pair, row.price.value, row.updatedAt) in writes
  }

  /** Rows completed since the start (`before` are those completed earlier) have their quote
      written with the same pair, price and time. */
  ghost predicate RowsPublished(db: Db, before: set<nat>) {
    forall id: nat :: id < |db.rows| && db.rows[id].status == Completed ==>
      id in before || Wrote(db.writes, db.rows[id])
  }

  /** A worker about to complete a row has written that quote; a written pair keeps a quote. */
  ghost predicate WorkersPublished(db: Db, workers: seq<Worker>) {
    && (forall w :: 0 <= w < |workers| && workers[w].Completing? ==>
          QuoteWrite(workers[w].req.pair.ToString(), workers[w].price, workers[w].now) in db.writes)
    && QuotesKept(db)
  }

  ghost predicate QuotesKept(db: Db) {
    forall k :: 0 <= k < |db.writes| ==> db.writes[k].pair in db.quotes
  }

  ghost predicate PublishedInv(s: State, before: set<nat>) {
    RowsPublished(s.db, before) && WorkersPublished(s.db, s.pool.workers)
  }

  ghost predicate DbGrows(a: Db, b: Db) {
    a.writes <= b.writes && a.quotes.Keys <= b.quotes.Keys
  }

  lemma PublishedStep(s: State, a: Action, before: set<nat>)
    requires TableInv(s) && HeldInv(s) && PublishedInv(s, before) && Enabled(s, a)
    ensures var t := Apply(s, a); PublishedInv(t, before) && DbGrows(s.db, t.db)
  {
    hide CallStep, WriteDb, WritePool, TakeNext, DoQuery, ParsePair, IsListing, TableInv, RowsPublished, AllFit, Fits,
      ResyncersFit, Offer;
    Untouched(s, a);
    match a {
      case Query(c, fault, dbNow) => QueryPublishes(s, c, fault, dbNow, before);
      case Write(w, fault, dbNow, why) => WritePublishes(s, w, fault, dbNow, why, before);
      case Take(w) => assert WorkersPublished(s.db, TakeNext(s.pool, w).workers) by { TakeCompletes(s.pool, w); }
      case HandOver(c) => SendWorkers(s, a);
      case ResyncSend(r) => SendWorkers(s, a);
      case _ =>
    }
  }

  lemma SendWorkers(s: State, a: Action)
    requires Enabled(s, a) && (a.HandOver? || a.ResyncSend?)
    ensures Apply(s, a).pool.workers == s.pool.workers
  {
  }

  lemma TakeCompletes(pool: Pool, w: nat)
    requires w < |pool.workers| && pool.workers[w].Idle?
    ensures var ws := TakeNext(pool, w).workers;
      |ws| == |pool.workers| && forall v :: 0 <= v < |ws| && ws[v].Completing? ==> ws[v] == pool.workers[v]
  {
  }

  lemma QueryPublishes(s: State, c: nat, fault: Fault, dbNow: int, before: set<nat>)
    requires TableInv(s) && PublishedInv(s, before) && Enabled(s, Query(c, fault, dbNow))
    ensures var t := DoQuery(s, c, fault, dbNow); PublishedInv(t, before) && DbGrows(s.db, t.db)
  {
    hide CallStep, TableOk, Supported, Evolves, CallOk;
    StatementKeeps(s.db.rows, s.callers[c].call, fault, dbNow);
  }

  /** A status write completes a row only with a price and a time already written as a quote. */
  lemma StatusPublishes(db: Db, worker: Worker, fault: Fault, dbNow: int, before: set<nat>)
    requires RowsPublished(db, before) && QuotesKept(db) && (worker.Completing? || worker.Failing?)
    requires worker.Completing? ==> Fits(db.rows, worker.req)
    requires worker.Completing? ==> QuoteWrite(worker.req.pair.ToString(), worker.price, worker.now) in db.writes
    ensures var db' := WriteDb(db, worker, fault, dbNow);
      RowsPublished(db', before) && QuotesKept(db') && DbGrows(db, db')
  {
    hide Storable, ErrorText;
  }

  lemma QuotePublishes(db: Db, worker: Worker, fault: Fault, dbNow: int, before: set<nat>)
    requires worker.Publishing? && RowsPublished(db, before) && QuotesKept(db)
    ensures var db' := WriteDb(db, worker, fault, dbNow);
      && RowsPublished(db', before) && QuotesKept(db') && DbGrows(db, db')
      && (fault != LostBefore ==>
            QuoteWrite(worker.req.pair.ToString(), worker.price, worker.now) in db'.writes)
  {
    var db' := WriteDb(db, worker, fault, dbNow);
    forall q | q in db.writes ensures q in db'.writes {
    }
    if fault != LostBefore {
      assert db'.writes[|db.writes|] == QuoteWrite(worker.req.pair.ToString(), worker.price, worker.now);
    }
  }

  lemma WritePublishes(s: State, w: nat, fault: Fault, dbNow: int, why: Bytes, before: set<nat>)
    requires HeldInv(s) && PublishedInv(s, before) && Enabled(s, Write(w, fault, dbNow, why))
    ensures var t := Apply(s, Write(w, fault, dbNow, why)); PublishedInv(t, before) && DbGrows(s.db, t.db)
  {
    hide AllFit, ResyncersFit, WriteDb, RowsPublished, Fits, QuotesKept, WritePool;
    var worker := s.pool.workers[w];
    if worker.Publishing? {
      QuotePublishes(s.db, worker, fault, dbNow, before);
    } else {
      StatusPublishes(s.db, worker, fault, dbNow, before);
    }
    PoolPublishes(s.db, WriteDb(s.db, worker, fault, dbNow), s.pool, w, fault, why);
  }

  /** A worker goes on to complete its row only after its quote write succeeded. */
  lemma PoolPublishes(db: Db, db': Db, pool: Pool, w: nat, fault: Fault, why: Bytes)
    requires w < |pool.workers| && Writing(pool.workers[w]) && WorkersPublished(db, pool.workers)
    requires QuotesKept(db') && db.writes <= db'.writes
    requires var v := pool.workers[w]; v.Publishing? && fault == NoFault ==>
      QuoteWrite(v.req.pair.ToString(), v.price, v.now) in db'.writes
    ensures WorkersPublished(db', WritePool(pool, w, fault, why).workers)
  {
    hide QuotesKept, QuoteLost;
    assert forall q :: q in db.writes ==> q in db'.writes;
  }

  // ---------- shutdown ----------

  /** The start-up resync makes one pass, which is over once the HTTP server stopped; the resync loop
      goes on until shutdown cancels it; once the queue is closed neither is left. */
  ghost predicate LifeInv(s: State) {
    && |s.resyncers| == 2
    && (!s.life.phase.Running? ==> s.resyncers[0].Stopped?)
    && !s.resyncers[0].Waiting?
    && (s.life.phase.Running? || s.life.phase.HttpStopped? ==> !s.resyncers[1].Stopped?)
    && (Closed(s.life) ==> AllStopped(s.resyncers))
  }

  /** Workers leave only when the queue is closed and empty. */
  ghost predicate ExitInv(life: Life, pool: Pool) {
    && (forall w :: 0 <= w < |pool.workers| && pool.workers[w].Exited? ==> Closed(life) && pool.queue == [])
    && (life.phase == Finished(true) ==> AllExited(pool.workers))
  }

  lemma LifeStep(s: State, a: Action)
    requires LifeInv(s) && Enabled(s, a)
    ensures LifeInv(Apply(s, a))
  {
    hide CallStep, WriteDb, WritePool, TakeNext, Offer, ParsePair, IsListing, AllExited;
    Untouched(s, a);
  }

  /** Shutdown is one-way: the server does not start again and the queue is not opened again. */
  lemma PhaseStep(s: State, a: Action)
    requires Enabled(s, a)
    ensures !s.life.phase.Running? ==> !Apply(s, a).life.phase.Running?
    ensures Closed(s.life) ==> Closed(Apply(s, a).life)
  {
    hide CallStep, WriteDb, WritePool, TakeNext, Offer, ParsePair, IsListing, AllExited, AllStopped, AllIdle;
  }

  /** The one way to panic: a created row handed over after the close. */
  lemma PanicStep(s: State, a: Action)
    requires LifeInv(s) && Enabled(s, a)
    ensures Apply(s, a).life.panicked <==> s.life.panicked || (a.HandOver? && Closed(s.life))
  {
    hide CallStep, WriteDb, WritePool, TakeNext, Offer, ParsePair, IsListing, AllExited, AllIdle;
  }

  /** With no call in flight none ever is again, unless one begins; and none begins once the server
      has stopped in order. */
  lemma IdleStep(s: State, a: Action)
    requires Enabled(s, a) && AllIdle(s.callers)
    ensures !a.Begin? ==> AllIdle(Apply(s, a).callers)
    ensures !s.life.serving ==> !a.Begin?
    ensures !s.life.phase.Running? && !s.life.serving ==> !Apply(s, a).life.serving
  {
    hide CallStep, WriteDb, WritePool, TakeNext, Offer, ParsePair, IsListing, AllExited, AllStopped;
    Untouched(s, a);
  }

  lemma ExitStep(s: State, a: Action)
    requires ExitInv(s.life, s.pool) && |s.pool.workers| >= 1 && Enabled(s, a)
    ensures var t := Apply(s, a); ExitInv(t.life, t.pool) && |t.pool.workers| == |s.pool.workers|
  {
    hide CallStep, WriteDb, ParsePair, IsListing, AllIdle, AllStopped, NextWorker, Answered, DoQuery;
    Untouched(s, a);
    if a.Write? {
      assert !NextWorker(s.pool.workers[a.w], a.fault, a.why).Exited? by {
        NeverExits(s.pool.workers[a.w], a.fault, a.why);
      }
    } else if a.Provider? {
      AnswerNeverExits(s.pool.workers[a.w], a.answer, s.clock);
    }
  }

  lemma NeverExits(worker: Worker, fault: Fault, why: Bytes)
    requires Writing(worker)
    ensures !NextWorker(worker, fault, why).Exited?
  {
  }

  lemma AnswerNeverExits(worker: Worker, answer: Result<real, Bytes>, clock: int)
    requires worker.Calling?
    ensures !Answered(worker, answer, clock).Exited?
  {
  }

  // ---------- quote times with one worker ----------

  ghost predicate QuotesBy(quotes: map<string, Quote>, time: int) {
    forall p :: p in quotes ==> quotes[p].updatedAt <= time
  }

  ghost predicate TimeInv(s: State) {
    && |s.pool.workers| == 1
    && QuotesBy(s.db.quotes, s.clock)
    && (s.pool.workers[0].Publishing? ==>
          s.pool.workers[0].now <= s.clock && QuotesBy(s.db.quotes, s.pool.workers[0].now))
  }

  /** A quote is kept for every pair and its time stamp does not go back. */
  ghost predicate QuotesAdvance(a: map<string, Quote>, b: map<string, Quote>) {
    forall p :: p in a ==> p in b && a[p].updatedAt <= b[p].updatedAt
  }

  lemma TimeStep(s: State, a: Action)
    requires TimeInv(s) && Enabled(s, a)
    ensures TimeInv(Apply(s, a)) && QuotesAdvance(s.db.quotes, Apply(s, a).db.quotes)
  {
    hide CallStep, ParsePair, IsListing, WriteDb, NextWorker, QuotesBy, QuotesAdvance;
    Untouched(s, a);
    QuotesStay(s.db.quotes);
    match a {
      case Write(w, fault, dbNow, why) => WriteInTime(s.db, s.pool.workers[w], fault, dbNow, s.clock, why);
      case Tick(now) => QuotesLater(s.db.quotes, s.clock, now);
      case _ =>
    }
  }

  lemma QuotesStay(quotes: map<string, Quote>)
    ensures QuotesAdvance(quotes, quotes)
  {
  }

  lemma QuotesLater(quotes: map<string, Quote>, earlier: int, now: int)
    requires QuotesBy(quotes, earlier) && earlier <= now
    ensures QuotesBy(quotes, now)
  {
  }

  lemma WriteInTime(db: Db, worker: Worker, fault: Fault, dbNow: int, clock: int, why: Bytes)
    requires Writing(worker) && QuotesBy(db.quotes, clock)
    requires worker.Publishing? ==> worker.now <= clock && QuotesBy(db.quotes, worker.now)
    ensures var db' := WriteDb(db, worker, fault, dbNow);
      && QuotesBy(db'.quotes, clock) && QuotesAdvance(db.quotes, db'.quotes)
      && !NextWorker(worker, fault, why).Publishing?
  {
    hide CompleteRow, FailRow, QuoteLost;
  }
}
