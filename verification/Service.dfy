/** The service object run by one thread at a time: validation, the bounded queue, processing,
    resync and draining (internal/service/service.go). System.dfy interleaves the same steps. */
module Service {
  import opened Wrappers
  import opened Domain
  import opened Requests
  import opened Utf8
  import opened Storage
  import opened System
  import opened Invariants

  /** What one processing meets: the provider's answer, the clock readings, and the faults of its
      two writes. */
  datatype Script = Script(
    answer: Result<real, Bytes>, now: int, first: Fault, second: Fault, dbNow: int, why: Bytes)

  /** The worker machine of System.dfy, run without interruption. */
  function RunWorker(db: Db, worker: Worker, faults: seq<Fault>, dbNow: int, why: Bytes): Db
    decreases |faults|
  {
    if !Writing(worker) || faults == [] then db
    else RunWorker(WriteDb(db, worker, faults[0], dbNow), NextWorker(worker, faults[0], why), faults[1..], dbNow, why)
  }

  function Processed(db: Db, req: Request, sc: Script): Db {
    RunWorker(db, Answered(Calling(req), sc.answer, sc.now), [sc.first, sc.second], sc.dbNow, sc.why)
  }

  predicate Priced(sc: Script) {
    sc.answer.Success? && sc.first == NoFault
  }

  /** Why a request fails, if it does. */
  function Reason(sc: Script): Bytes {
    if sc.answer.Failure? then sc.answer.error else Encode("upsert quote: ") + sc.why
  }

  /** The write of the final status takes effect: no fault precedes it and, for a failure, the
      database takes the cut text. */
  predicate StatusArrives(sc: Script) {
    && (if sc.answer.Success? then sc.second else sc.first) != LostBefore
    && (Priced(sc) || Storable(Cut(Reason(sc), 500)))
  }

  /** Processing settles its row, and no other, exactly when the status write takes effect: a
      failing answer whose text is cut inside a character leaves the row pending. A row it completes
      has its quote written with the same price and time; a row it fails says why. */
  lemma ProcessedSettles(db: Db, req: Request, sc: Script)
    requires TableOk(db.rows) && Fits(db.rows, req)
    ensures var db' := Processed(db, req, sc);
      && TableOk(db'.rows) && Evolves(db.rows, db'.rows)
      && (forall id: nat :: id < |db.rows| && id != req.id ==> db'.rows[id] == db.rows[id])
      && (db'.rows[req.id].status == Pending <==> db.rows[req.id].status == Pending && !StatusArrives(sc))
      && (db'.rows[req.id].status == Completed && db.rows[req.id].status == Pending ==>
            Priced(sc) && db'.rows[req.id].price == Some(sc.answer.value)
            && db.rows[req.id].pair in db'.quotes
            && db'.quotes[db.rows[req.id].pair] == Quote(sc.answer.value, db'.rows[req.id].updatedAt))
      && (db'.rows[req.id].status == Failed && db.rows[req.id].status == Pending ==>
            && !Priced(sc) && db'.rows[req.id].error == Some(Cut(Reason(sc), 500))
            && db'.rows[req.id].updatedAt == sc.dbNow)
  {
    hide TableOk, Evolves, CompleteRow, FailRow, Cut, Storable, Encode;
    match sc.answer {
      case Failure(reason) =>
        FailKeeps(db.rows, req.id, reason, sc.dbNow, sc.first);
        StatusWrites(db.rows, req.id, 0.0, sc.dbNow, reason, sc.first);
      case Success(price) =>
        CompleteKeeps(db.rows, req.id, price, sc.now, sc.second);
        StatusWrites(db.rows, req.id, price, sc.now, [], sc.second);
        FailKeeps(db.rows, req.id, Reason(sc), sc.dbNow, sc.second);
        StatusWrites(db.rows, req.id, price, sc.dbNow, Reason(sc), sc.second);
    }
    TwoWrites(db, req, sc);
  }

  /** Processing spelled out: at most two writes. */
  lemma TwoWrites(db: Db, req: Request, sc: Script)
    ensures var db' := Processed(db, req, sc);
      match sc.answer
      case Failure(reason) =>
        db'.rows == FailRow(db.rows, req.id, reason, sc.dbNow, sc.first) && db'.quotes == db.quotes
      case Success(price) =>
        && db'.quotes == Upsert(db.quotes, req.pair.ToString(), price, sc.now, sc.first)
        && db'.rows == if sc.first == NoFault then CompleteRow(db.rows, req.id, price, sc.now, sc.second)
                       else FailRow(db.rows, req.id, Encode("upsert quote: ") + sc.why, sc.dbNow, sc.second)
  {
    hide CompleteRow, FailRow, Upsert, Encode;
    var w := Answered(Calling(req), sc.answer, sc.now);
    var db1, w1 := WriteDb(db, w, sc.first, sc.dbNow), NextWorker(w, sc.first, sc.why);
    assert [sc.first, sc.second][1..] == [sc.second] && [sc.second][1..] == [];
    assert Processed(db, req, sc) == RunWorker(db1, w1, [sc.second], sc.dbNow, sc.why);
    if Writing(w1) {
      assert RunWorker(db1, w1, [sc.second], sc.dbNow, sc.why) == WriteDb(db1, w1, sc.second, sc.dbNow);
    }
  }

  lemma StatusWrites(rows: seq<Row>, id: nat, price: real, now: int, reason: Bytes, fault: Fault)
    requires id < |rows|
    ensures var c, f := CompleteRow(rows, id, price, now, fault), FailRow(rows, id, reason, now, fault);
      && (forall k: nat :: k < |rows| && k != id ==> c[k] == rows[k] && f[k] == rows[k])
      && (c[id].status == Pending <==> rows[id].status == Pending && fault == LostBefore)
      && (f[id].status == Pending <==>
            rows[id].status == Pending && (fault == LostBefore || !Storable(Cut(reason, 500))))
      && (rows[id].status == Pending ==> f[id].status != Completed && c[id].status != Failed)
      && (rows[id].status == Pending && c[id].status == Completed ==>
            c[id].price == Some(price) && c[id].updatedAt == now)
      && (rows[id].status == Pending && f[id].status == Failed ==>
            f[id].error == Some(Cut(reason, 500)) && f[id].updatedAt == now)
  {
    hide Storable, Cut;
  }

  class Service {
    const repo: Storage
    const cfg: Config
    var queue: seq<Request>
    var closed: bool

    constructor (repo: Storage, cfg: Config)
      ensures this.repo == repo && this.cfg == cfg && queue == [] && !closed
    {
      this.repo := repo;
      this.cfg := cfg;
      queue, closed := [], false;
    }

    /** A full queue drops the entry; its row stays pending for resync to find. A closed queue makes
        the send panic. */
    method Enqueue(req: Request) returns (panicked: bool)
      modifies this`queue
      ensures panicked == closed
      ensures queue == old(queue) + (if !closed && |old(queue)| < cfg.capacity then [req] else [])
    {
      if closed {
        return true;
      }
      if |queue| < cfg.capacity {
        queue := queue + [req];
      }
      return false;
    }

    /** A text that asks for a supported pair goes to the storage, for that very pair; any other text
        touches nothing. Exactly created rows are offered to the queue. */
    method CreateUpdateRequest(text: string, key: Bytes, beats: seq<Beat>)
        returns (r: Option<Outcome>, panicked: bool)
      requires |beats| == 5
      modifies this`queue, repo`rows
      ensures (forall p :: !Requested(cfg, text, p)) ==> r.None? && repo.rows == old(repo.rows)
      ensures forall p :: Requested(cfg, text, p) ==>
        var run := RunCall(old(repo.rows), NewCall(p, key), beats);
        r.Some? && run.0 == repo.rows && run.1.pc == Done(r.value)
      ensures var created := r.Some? && r.value.Returned? && r.value.created;
        && (created ==> r.value.req.pair.ToString() == Normalize(text))
        && panicked == (created && closed)
        && queue == old(queue) + if created && !closed && |old(queue)| < cfg.capacity then [r.value.req] else []
    {
      hide ParsePair, RunCall, Normalize;
      var pair := ParsePair(text);
      assert forall p :: Requested(cfg, text, p) ==> pair == Success(p) by {
        OnlyOneRequested(cfg, text);
      }
      if pair.Failure? {
        return None, false;
      }
      ParseExact(text, pair.value);
      if pair.value.base !in cfg.allowed || pair.value.quote !in cfg.allowed {
        return None, false;
      }
      assert Requested(cfg, text, pair.value);
      var outcome := repo.CreateUpdateRequest(pair.value, key, beats);
      CreatedIsOwn(old(repo.rows), NewCall(pair.value, key), beats);
      panicked := false;
      if outcome.Returned? && outcome.created {
        panicked := Enqueue(outcome.req);
      }
      r := Some(outcome);
    }

    /** Asks the provider, writes the quote, then the final status. */
    method Process(req: Request, sc: Script)
      modifies repo
      ensures var db := Processed(Db(old(repo.rows), old(repo.quotes), []), req, sc);
        repo.rows == db.rows && repo.quotes == db.quotes
    {
      hide CompleteRow, FailRow, Upsert, Encode, Processed, Storable;
      TwoWrites(Db(repo.rows, repo.quotes, []), req, sc);
      match sc.answer {
        case Failure(reason) =>
          var _ := repo.FailUpdateRequest(req.id, reason, sc.dbNow, sc.first);
        case Success(price) =>
          var saved := repo.UpsertQuote(req.pair, price, sc.now, sc.first);
          if !saved {
            var _ := repo.FailUpdateRequest(req.id, QuoteLost(sc.why), sc.dbNow, sc.second);
            return;
          }
          var _ := repo.CompleteUpdateRequest(req.id, price, sc.now, sc.second);
      }
    }

    /** One pass: list the oldest pending rows and offer each to the queue. */
    method Resync(fault: Fault) returns (listing: seq<Request>, panicked: bool)
      requires TableOk(repo.rows)
      modifies this`queue
      ensures fault == NoFault ==> IsListing(repo.rows, RESYNC_LIMIT, listing)
      ensures fault != NoFault ==> listing == []
      ensures panicked == (closed && listing != [])
      ensures var room := if |old(queue)| <= cfg.capacity && !closed then cfg.capacity - |old(queue)| else 0;
        queue == old(queue) + listing[..if |listing| <= room then |listing| else room]
    {
      var reqs := repo.ListPendingUpdateRequests(RESYNC_LIMIT, fault);
      if reqs.None? {
        return [], false;
      }
      listing, panicked := reqs.value, false;
      ghost var room := if |queue| <= cfg.capacity && !closed then cfg.capacity - |queue| else 0;
      var k := 0;
      while k < |listing| && !panicked
        invariant 0 <= k <= |listing| && panicked == (closed && k > 0)
        invariant queue == old(queue) + listing[..if k <= room then k else room]
      {
        panicked := Enqueue(listing[k]);
        k := k + 1;
      }
    }

    /** A worker taking up to `limit` entries from the queue, each processed once, in order; the row
        of every entry whose status write takes effect is settled. */
    method Work(scripts: seq<Script>, limit: nat)
      requires |queue| <= |scripts|
      requires TableOk(repo.rows) && AllFit(repo.rows, queue)
      modifies this`queue, repo
      ensures TableOk(repo.rows) && Evolves(old(repo.rows), repo.rows)
      ensures var n := if |old(queue)| <= limit then |old(queue)| else limit;
        && queue == old(queue)[n..]
        && forall k :: 0 <= k < n && StatusArrives(scripts[k]) ==> !IsPendingId(repo.rows, old(queue)[k].id)
    {
      hide TableOk, Evolves, Processed, Fits, StatusArrives;
      ghost var all := queue;
      ghost var rows0 := repo.rows;
      EvolvesReflexive(rows0);
      var k := 0;
      while queue != [] && k < limit
        invariant 0 <= k <= |all| && k <= limit && queue == all[k..]
        invariant TableOk(repo.rows) && Evolves(rows0, repo.rows) && AllFit(repo.rows, all)
        invariant forall i :: 0 <= i < k && StatusArrives(scripts[i]) ==> !IsPendingId(repo.rows, all[i].id)
        decreases |queue|
      {
        var req := queue[0];
        queue := queue[1..];
        ghost var before := repo.rows;
        ghost var db := Db(repo.rows, repo.quotes, []);
        assert req == all[k];
        Process(req, scripts[k]);
        ProcessedSettles(db, req, scripts[k]);
        EvolvesTransitive(rows0, before, repo.rows);
        SettledStay(before, repo.rows, all);
        k := k + 1;
      }
    }

    /** Closing and waiting for the workers, who get through `limit` entries before the wait times
        out. Drained means that nothing accepted is left; what is left stays in order. */
    method Shutdown(scripts: seq<Script>, limit: nat) returns (drained: bool)
      requires |queue| <= |scripts|
      requires TableOk(repo.rows) && AllFit(repo.rows, queue)
      modifies this, repo
      ensures closed && drained == (queue == [])
      ensures old(closed) ==> queue == old(queue) && repo.rows == old(repo.rows)
      ensures var n := if |old(queue)| <= limit then |old(queue)| else limit;
        !old(closed) ==>
          && queue == old(queue)[n..]
          && forall k :: 0 <= k < n && StatusArrives(scripts[k]) ==> !IsPendingId(repo.rows, old(queue)[k].id)
    {
      if !closed {
        closed := true;
        Work(scripts, limit);
      }
      drained := queue == [];
    }
  }

  lemma OnlyOneRequested(cfg: Config, text: string)
    ensures forall p :: Requested(cfg, text, p) ==> ParsePair(text) == Success(p)
  {
    hide ParsePair, Normalize;
    forall p | Requested(cfg, text, p) ensures ParsePair(text) == Success(p) {
      ParseExact(text, p);
    }
  }

  lemma SettledStay(before: seq<Row>, after: seq<Row>, reqs: seq<Request>)
    requires Evolves(before, after) && AllFit(before, reqs)
    ensures AllFit(after, reqs)
    ensures forall k :: 0 <= k < |reqs| && !IsPendingId(before, reqs[k].id) ==> !IsPendingId(after, reqs[k].id)
  {
    hide Fits;
    forall k | 0 <= k < |reqs| ensures Fits(after, reqs[k]) {
      FitsForever(before, after, reqs[k]);
    }
    forall k | 0 <= k < |reqs| && !IsPendingId(before, reqs[k].id) ensures !IsPendingId(after, reqs[k].id) {
      Present(before, reqs[k]);
      assert RowEvolves(before[reqs[k].id], after[reqs[k].id]);
    }
  }

  lemma Present(rows: seq<Row>, req: Request)
    requires Fits(rows, req)
    ensures req.id < |rows|
  {
  }
}
