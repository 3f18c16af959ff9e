/** The running service as one machine: callers inside CreateUpdateRequest, workers, the two
    resync threads and shutdown interleave at single SQL statements and channel operations
    (internal/service/service.go, internal/storage/postgres/storage.go, cmd/server/main.go). */
module System {
  import opened Wrappers
  import opened Domain
  import opened Requests
  import opened Storage
  import opened Utf8

  /** Queue capacity and the supported currencies. */
  datatype Config = Config(capacity: nat, allowed: set<string>)

  /** A request to the service that got past validation. A created row is handed to the queue
      in a separate step, which `handed` records. */
  datatype Caller = Caller(call: Call, handed: bool)

  datatype Worker =
    | Idle
    | Calling(req: Request)                            // inside provider.Rate
    | Publishing(req: Request, price: real, now: int)  // about to upsert the quote
    | Completing(req: Request, price: real, now: int)
    | Failing(req: Request, reason: Bytes)
    | Exited

  datatype Resyncer = Waiting | Listing | Sending(reqs: seq<Request>) | Stopped

  datatype Phase = Running | HttpStopped | Cancelled | QueueClosed | Finished(drained: bool)

  datatype QuoteWrite = QuoteWrite(pair: string, price: real, at: int)

  /** The tables; `writes` is the history of quote writes, which the code does not read. */
  datatype Db = Db(rows: seq<Row>, quotes: map<string, Quote>, writes: seq<QuoteWrite>)

  /** The queue and its workers; `accepted` and `processed` are history. */
  datatype Pool = Pool(queue: seq<Request>, workers: seq<Worker>, accepted: seq<Request>, processed: multiset<Request>)

  /** How far shutdown has come; whether HTTP handlers may still begin calls, as they may for good
      after a stop that timed out; whether a send hit the closed queue. */
  datatype Life = Life(phase: Phase, serving: bool, panicked: bool)

  /** Resyncer 0 is the pass New makes at start, resyncer 1 is the loop. */
  datatype State = State(
    cfg: Config, db: Db, pool: Pool, callers: seq<Caller>, resyncers: seq<Resyncer>, life: Life, clock: int)

  /** Provider is the return of a worker's provider call, at which the worker reads the clock. */
  datatype Action =
    | Tick(now: int)
    | Begin(text: string, key: Bytes)
    | Query(c: nat, fault: Fault, dbNow: int)
    | HandOver(c: nat)
    | Take(w: nat)
    | Provider(w: nat, answer: Result<real, Bytes>)
    | Write(w: nat, fault: Fault, dbNow: int, why: Bytes)
    | ResyncTick(r: nat)
    | ResyncList(r: nat, listing: Option<seq<Request>>)
    | ResyncSend(r: nat)
    | ResyncStop(r: nat)
    | StopHttp(timeout: bool)
    | Cancel
    | CloseQueue
    | Finish(timeout: bool)

  predicate Closed(life: Life) {
    life.phase.QueueClosed? || life.phase.Finished?
  }

  predicate InFlight(c: Caller) {
    match c.call.pc
    case Done(Returned(_, created)) => created && !c.handed
    case Done(_) => false
    case _ => true
  }

  ghost predicate AllIdle(callers: seq<Caller>) {
    forall c :: 0 <= c < |callers| ==> !InFlight(callers[c])
  }

  ghost predicate AllStopped(resyncers: seq<Resyncer>) {
    forall r :: 0 <= r < |resyncers| ==> resyncers[r].Stopped?
  }

  ghost predicate AllExited(workers: seq<Worker>) {
    forall w :: 0 <= w < |workers| ==> workers[w].Exited?
  }

  /** Validation before the repository is touched. */
  function Admit(cfg: Config, text: string): Option<Pair> {
    match ParsePair(text)
    case Failure(_) => None
    case Success(p) => if p.base in cfg.allowed && p.quote in cfg.allowed then Some(p) else None
  }

  /** The text asks for this pair, and the service supports it. */
  ghost predicate Requested(cfg: Config, text: string, p: Pair) {
    ValidPair(p) && p.ToString() == Normalize(text) && p.base in cfg.allowed && p.quote in cfg.allowed
  }

  /** A request is admitted exactly for the valid, supported pair its text prints, sides in that order. */
  lemma AdmitExactly(cfg: Config, text: string, p: Pair)
    ensures Admit(cfg, text) == Some(p) <==> Requested(cfg, text, p)
  {
    hide ParsePair;
    ParseExact(text, p);
  }

  const RESYNC_LIMIT: nat := 100

  predicate Writing(worker: Worker) {
    worker.Publishing? || worker.Completing? || worker.Failing?
  }

  ghost predicate Enabled(s: State, a: Action) {
    |s.resyncers| == 2 &&
    match a
    case Tick(now) => s.clock <= now
    case Begin(_, _) => s.life.serving && s.resyncers[0].Stopped?
    case Query(c, _, _) => c < |s.callers| && !s.callers[c].call.pc.Done?
    case HandOver(c) => c < |s.callers| && s.callers[c].call.pc.Done? && InFlight(s.callers[c])
    case Take(w) => w < |s.pool.workers| && s.pool.workers[w].Idle? && (s.pool.queue != [] || Closed(s.life))
    case Provider(w, _) => w < |s.pool.workers| && s.pool.workers[w].Calling?
    case Write(w, _, _, _) => w < |s.pool.workers| && Writing(s.pool.workers[w])
    case ResyncTick(r) => r < 2 && s.resyncers[r].Waiting?
    case ResyncList(r, listing) =>
      r < 2 && s.resyncers[r].Listing? && (listing.Some? ==> IsListing(s.db.rows, RESYNC_LIMIT, listing.value))
    case ResyncSend(r) => r < 2 && s.resyncers[r].Sending?
    case ResyncStop(r) =>
      r == 1 && s.resyncers[1].Waiting? && !s.life.phase.Running? && !s.life.phase.HttpStopped?
    case StopHttp(timeout) => s.life.phase.Running? && s.resyncers[0].Stopped? && (timeout || AllIdle(s.callers))
    case Cancel => s.life.phase.HttpStopped?
    case CloseQueue => s.life.phase.Cancelled? && AllStopped(s.resyncers)
    case Finish(timeout) => s.life.phase.QueueClosed? && (timeout || AllExited(s.pool.workers))
  }

  /** A send that gives up when the queue is full; sending on a closed queue panics. */
  function Enqueue(s: State, req: Request): State {
    if Closed(s.life) then s.(life := s.life.(panicked := true))
    else s.(pool := Offer(s.cfg.capacity, s.pool, req))
  }

  function Offer(capacity: nat, pool: Pool, req: Request): Pool {
    if |pool.queue| < capacity
    then pool.(queue := pool.queue + [req], accepted := pool.accepted + [req])
    else pool
  }

  function DoQuery(s: State, c: nat, fault: Fault, dbNow: int): State
    requires c < |s.callers| && !s.callers[c].call.pc.Done?
  {
    var r := CallStep(s.db.rows, s.callers[c].call, fault, dbNow);
    s.(db := s.db.(rows := r.0), callers := s.callers[c := Caller(r.1, false)])
  }

  function DoHandOver(s: State, c: nat): State
    requires c < |s.callers| && s.callers[c].call.pc.Done? && InFlight(s.callers[c])
  {
    var caller := s.callers[c];
    Enqueue(s.(callers := s.callers[c := caller.(handed := true)]), caller.call.pc.outcome.req)
  }

  function TakeNext(pool: Pool, w: nat): Pool
    requires w < |pool.workers|
  {
    if pool.queue == [] then pool.(workers := pool.workers[w := Exited])
    else pool.(workers := pool.workers[w := Calling(pool.queue[0])], queue := pool.queue[1..])
  }

  function Answered(worker: Worker, answer: Result<real, Bytes>, clock: int): Worker
    requires worker.Calling?
  {
    match answer
    case Success(price) => Publishing(worker.req, price, clock)
    case Failure(reason) => Failing(worker.req, reason)
  }

  /** The repository write a worker makes. */
  function WriteDb(db: Db, worker: Worker, fault: Fault, dbNow: int): Db
    requires Writing(worker)
  {
    match worker
    case Publishing(req, price, now) =>
      var text := req.pair.ToString();
      db.(quotes := Upsert(db.quotes, text, price, now, fault),
          writes := if fault == LostBefore then db.writes else db.writes + [QuoteWrite(text, price, now)])
    case Completing(req, price, now) => db.(rows := CompleteRow(db.rows, req.id, price, now, fault))
    case Failing(req, reason) => db.(rows := FailRow(db.rows, req.id, reason, dbNow, fault))
  }

  /** What the storage says of a quote it could not write, given the driver's own words. */
  function QuoteLost(why: Bytes): Bytes {
    Encode("upsert quote: ") + why
  }

  /** Where the worker goes after that write; `why` are the driver's words if it failed. */
  function NextWorker(worker: Worker, fault: Fault, why: Bytes): Worker
    requires Writing(worker)
  {
    match worker
    case Publishing(req, price, now) =>
      if fault == NoFault then Completing(req, price, now) else Failing(req, QuoteLost(why))
    case _ => Idle
  }

  /** A request is processed when its last write has been tried, whatever became of it. */
  function WritePool(pool: Pool, w: nat, fault: Fault, why: Bytes): Pool
    requires w < |pool.workers| && Writing(pool.workers[w])
  {
    var worker := pool.workers[w];
    pool.(workers := pool.workers[w := NextWorker(worker, fault, why)],
          processed := if worker.Publishing? then pool.processed else pool.processed + multiset{worker.req})
  }

  function SetResyncer(s: State, r: nat, to: Resyncer): State
    requires r < |s.resyncers|
  {
    s.(resyncers := s.resyncers[r := to])
  }

  /** Where a resync thread goes after one pass. */
  function AfterResync(r: nat): Resyncer {
    if r == 0 then Stopped else Waiting
  }

  function DoResyncSend(s: State, r: nat): State
    requires r < |s.resyncers| && s.resyncers[r].Sending?
  {
    var reqs := s.resyncers[r].reqs;
    if reqs == [] then SetResyncer(s, r, AfterResync(r))
    else Enqueue(SetResyncer(s, r, Sending(reqs[1..])), reqs[0])
  }

  function Apply(s: State, a: Action): State
    requires Enabled(s, a)
  {
    match a
    case Tick(now) => s.(clock := now)
    case Begin(text, key) =>
      (match Admit(s.cfg, text)
       case None => s
       case Some(pair) => s.(callers := s.callers + [Caller(NewCall(pair, key), false)]))
    case Query(c, fault, dbNow) => DoQuery(s, c, fault, dbNow)
    case HandOver(c) => DoHandOver(s, c)
    case Take(w) => s.(pool := TakeNext(s.pool, w))
    case Provider(w, answer) =>
      s.(pool := s.pool.(workers := s.pool.workers[w := Answered(s.pool.workers[w], answer, s.clock)]))
    case Write(w, fault, dbNow, why) =>
      s.(db := WriteDb(s.db, s.pool.workers[w], fault, dbNow), pool := WritePool(s.pool, w, fault, why))
    case ResyncTick(r) => SetResyncer(s, r, Listing)
    case ResyncList(r, listing) =>
      SetResyncer(s, r, if listing.Some? then Sending(listing.value) else AfterResync(r))
    case ResyncSend(r) => DoResyncSend(s, r)
    case ResyncStop(r) => SetResyncer(s, r, Stopped)
    case StopHttp(timeout) => s.(life := s.life.(phase := HttpStopped, serving := timeout))
    case Cancel => s.(life := s.life.(phase := Cancelled))
    case CloseQueue => s.(life := s.life.(phase := QueueClosed))
    case Finish(timeout) => s.(life := s.life.(phase := Finished(!timeout)))
  }

  // ---------- start and runs ----------

  ghost predicate Supported(cfg: Config, text: string) {
    exists p: Pair :: ValidPair(p) && p.ToString() == text && p.base in cfg.allowed && p.quote in cfg.allowed
  }

  /** A service just started on whatever tables an earlier run left behind. */
  ghost predicate Init(s: State) {
    && s.cfg.capacity >= 1
    && TableOk(s.db.rows) && s.db.writes == []
    && s.pool.queue == [] && s.pool.accepted == [] && s.pool.processed == multiset{}
    && |s.pool.workers| >= 1 && (forall w :: 0 <= w < |s.pool.workers| ==> s.pool.workers[w].Idle?)
    && s.callers == [] && s.resyncers == [Listing, Waiting]
    && s.life == Life(Running, true, false)
  }

  /** A run: `acts[k]` leads from `run[k]` to `run[k + 1]`. */
  ghost predicate IsRun(run: seq<State>, acts: seq<Action>) {
    && |run| == |acts| + 1
    && (forall k :: 0 <= k < |acts| ==> Enabled(run[k], acts[k]) && run[k + 1] == Apply(run[k], acts[k]))
  }
}
