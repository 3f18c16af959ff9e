/** Resync makes progress: one pass, then draining the queue, settles the oldest pending rows
    (internal/service/service.go:192-275). */
module Progress {
  import opened Wrappers
  import opened Domain
  import opened Requests
  import opened Storage
  import opened Utf8
  import opened System
  import opened Invariants
  import opened Guarantees
  import opened Bounds

  function Min(a: nat, b: nat): nat {
    if a <= b then a else b
  }

  /** The write takes effect if it is one of a final status; quote writes may fail. */
  predicate Lands(worker: Worker, fault: Fault) {
    match worker
    case Completing(_, _, _) => fault != LostBefore
    case Failing(_, reason) => fault != LostBefore && Storable(ErrorText(reason))
    case _ => true
  }

  /** Lookups and rejected inserts create nothing. */
  predicate CreatesNothing(s: State, a: Action) {
    a.Query? && a.c < |s.callers| && !s.callers[a.c].call.pc.Done? ==>
      CallStep(s.db.rows, s.callers[a.c].call, a.fault, a.dbNow).0 == s.db.rows
  }

  /** Nothing is created or handed over, no other resync pass sends, the queue stays open, and the
      status updates reach the table. Providers may answer as they like, calls may look things up,
      and quote writes may fail. */
  predicate Undisturbed(s: State, a: Action, r: nat) {
    match a
    case Query(_, _, _) => CreatesNothing(s, a)
    case HandOver(_) => false
    case CloseQueue => false
    case ResyncSend(r') => r' == r
    case ResyncList(r', _) => r' != r
    case ResyncTick(r') => r' != r
    case Write(w, fault, _, _) => w < |s.pool.workers| && Lands(s.pool.workers[w], fault)
    case _ => true
  }

  ghost predicate Quiet(pool: Pool) {
    pool.queue == [] && forall w :: 0 <= w < |pool.workers| ==> pool.workers[w].Idle? || pool.workers[w].Exited?
  }

  /** A round: resyncer `r` lists at step `i` with nothing queued or held; by step `j` it has sent
      its whole listing and again nothing is queued or held. */
  ghost predicate IsRound(run: seq<State>, acts: seq<Action>, r: nat, i: nat, j: nat, listing: seq<Request>) {
    && Starts(run, acts) && i < j < |run| && r < 2
    && acts[i] == ResyncList(r, Some(listing)) && !Closed(run[i].life)
    && Quiet(run[i].pool) && Quiet(run[j].pool)
    && |run[j].resyncers| == 2 && !run[j].resyncers[r].Sending?
    && forall k :: i < k < j ==> Undisturbed(run[k], acts[k], r)
  }

  // ---------- following a listing through a round ----------

  /** The request is queued, held by a worker, or its row is no longer pending. */
  ghost predicate Tracked(rows: seq<Row>, pool: Pool, req: Request) {
    || req in pool.queue
    || (exists w :: 0 <= w < |pool.workers| && Holds(pool.workers[w], req))
    || !IsPendingId(rows, req.id)
  }

  predicate Holds(worker: Worker, req: Request) {
    !worker.Idle? && !worker.Exited? && worker.req == req
  }

  /** `sent` entries of the listing have been offered; the first `capacity` of those are tracked. */
  ghost predicate Following(s: State, r: nat, listing: seq<Request>, sent: nat) {
    && sent <= |listing| && r < |s.resyncers| && !Closed(s.life)
    && |s.pool.queue| <= sent
    && (if s.resyncers[r].Sending? then s.resyncers[r].reqs == listing[sent..] else sent == |listing|)
    && (s.resyncers[r].Listing? ==> false)
    && forall m :: 0 <= m < sent && m < s.cfg.capacity ==> Tracked(s.db.rows, s.pool, listing[m])
  }

  function Sent(s: State, a: Action, r: nat, sent: nat): nat {
    if a == ResyncSend(r) && r < |s.resyncers| && s.resyncers[r].Sending? && s.resyncers[r].reqs != [] then sent + 1
    else sent
  }

  lemma OfferTracks(capacity: nat, rows: seq<Row>, pool: Pool, req: Request, other: Request)
    ensures var pool' := Offer(capacity, pool, req);
      && (Tracked(rows, pool, other) ==> Tracked(rows, pool', other))
      && (|pool.queue| < capacity ==> Tracked(rows, pool', req))
      && |pool'.queue| <= |pool.queue| + 1
  {
    var pool' := Offer(capacity, pool, req);
    if |pool.queue| < capacity {
      assert pool'.queue[|pool.queue|] == req;
    }
  }

  lemma TakeTracks(rows: seq<Row>, pool: Pool, w: nat, req: Request)
    requires w < |pool.workers| && pool.workers[w].Idle? && Tracked(rows, pool, req)
    ensures Tracked(rows, TakeNext(pool, w), req)
  {
    var pool' := TakeNext(pool, w);
    if req in pool.queue {
      if req == pool.queue[0] {
        assert Holds(pool'.workers[w], req);
      }
    } else if IsPendingId(rows, req.id) {
      var v :| 0 <= v < |pool.workers| && Holds(pool.workers[v], req);
      assert Holds(pool'.workers[v], req);
    }
  }

  /** A worker that goes on with the same request keeps everything tracked. */
  lemma KeepTracks(rows: seq<Row>, pool: Pool, pool': Pool, w: nat, req: Request)
    requires w < |pool.workers| && |pool'.workers| == |pool.workers| && pool'.queue == pool.queue
    requires forall v :: 0 <= v < |pool.workers| && v != w ==> pool'.workers[v] == pool.workers[v]
    requires Holds(pool.workers[w], req) ==> Holds(pool'.workers[w], req) || !IsPendingId(rows, req.id)
    requires Tracked(rows, pool, req)
    ensures Tracked(rows, pool', req)
  {
    if req !in pool.queue && IsPendingId(rows, req.id) {
      var v :| 0 <= v < |pool.workers| && Holds(pool.workers[v], req);
      assert Holds(pool'.workers[v], req);
    }
  }

  lemma WriteTracks(db: Db, pool: Pool, w: nat, fault: Fault, dbNow: int, why: Bytes, req: Request)
    requires w < |pool.workers| && Writing(pool.workers[w]) && Lands(pool.workers[w], fault)
    requires Tracked(db.rows, pool, req)
    ensures Tracked(WriteDb(db, pool.workers[w], fault, dbNow).rows, WritePool(pool, w, fault, why), req)
  {
    hide Storable, ErrorText, QuoteLost;
    var worker := pool.workers[w];
    var rows, pool' := WriteDb(db, worker, fault, dbNow).rows, WritePool(pool, w, fault, why);
    assert forall id: nat :: IsPendingId(rows, id) ==> IsPendingId(db.rows, id);
    assert !worker.Publishing? ==> !IsPendingId(rows, worker.req.id);
    assert Tracked(rows, pool, req);
    KeepTracks(rows, pool, pool', w, req);
  }

  lemma AnswerTracks(rows: seq<Row>, pool: Pool, w: nat, answer: Result<real, Bytes>, clock: int, req: Request)
    requires w < |pool.workers| && pool.workers[w].Calling? && Tracked(rows, pool, req)
    ensures Tracked(rows, pool.(workers := pool.workers[w := Answered(pool.workers[w], answer, clock)]), req)
  {
    KeepTracks(rows, pool, pool.(workers := pool.workers[w := Answered(pool.workers[w], answer, clock)]), w, req);
  }

  lemma SendFollows(s: State, r: nat, listing: seq<Request>, sent: nat)
    requires Following(s, r, listing, sent) && Enabled(s, ResyncSend(r))
    ensures Following(DoResyncSend(s, r), r, listing, Sent(s, ResyncSend(r), r, sent))
  {
    hide Tracked;
    var reqs := s.resyncers[r].reqs;
    if reqs != [] {
      assert reqs[0] == listing[sent] && reqs[1..] == listing[sent + 1..];
      OfferTracks(s.cfg.capacity, s.db.rows, s.pool, reqs[0], reqs[0]);
      forall m | 0 <= m < sent && m < s.cfg.capacity
        ensures Tracked(s.db.rows, Offer(s.cfg.capacity, s.pool, reqs[0]), listing[m])
      {
        OfferTracks(s.cfg.capacity, s.db.rows, s.pool, reqs[0], listing[m]);
      }
    }
  }

  lemma FollowStep(s: State, a: Action, r: nat, listing: seq<Request>, sent: nat)
    requires Following(s, r, listing, sent) && Enabled(s, a) && Undisturbed(s, a, r) && r < 2
    ensures Following(Apply(s, a), r, listing, Sent(s, a, r, sent))
  {
    hide CallStep, WriteDb, WritePool, TakeNext, Offer, ParsePair, IsListing, Tracked, AllExited, AllIdle;
    Untouched(s, a);
    var t := Apply(s, a);
    match a {
      case ResyncSend(_) => SendFollows(s, r, listing, sent);
      case Take(w) =>
        TakeShrinks(s.pool, w);
        forall m | 0 <= m < sent && m < s.cfg.capacity ensures Tracked(t.db.rows, t.pool, listing[m]) {
          TakeTracks(s.db.rows, s.pool, w, listing[m]);
        }
      case Provider(w, answer) =>
        forall m | 0 <= m < sent && m < s.cfg.capacity ensures Tracked(t.db.rows, t.pool, listing[m]) {
          AnswerTracks(s.db.rows, s.pool, w, answer, s.clock, listing[m]);
        }
      case Write(w, fault, dbNow, why) =>
        WriteKeepsQueue(s.pool, w, fault, why);
        forall m | 0 <= m < sent && m < s.cfg.capacity ensures Tracked(t.db.rows, t.pool, listing[m]) {
          WriteTracks(s.db, s.pool, w, fault, dbNow, why, listing[m]);
        }
      case _ =>
    }
  }

  lemma TakeShrinks(pool: Pool, w: nat)
    requires w < |pool.workers|
    ensures |TakeNext(pool, w).queue| <= |pool.queue|
  {
  }

  lemma WriteKeepsQueue(pool: Pool, w: nat, fault: Fault, why: Bytes)
    requires w < |pool.workers| && Writing(pool.workers[w])
    ensures WritePool(pool, w, fault, why).queue == pool.queue
  {
  }

  lemma {:induction false} FollowRound(run: seq<State>, acts: seq<Action>, r: nat, i: nat, j: nat,
                                       listing: seq<Request>, n: nat)
      returns (sent: nat)
    requires IsRound(run, acts, r, i, j, listing) && i < n <= j
    ensures Following(run[n], r, listing, sent)
    decreases n
  {
    hide Apply, Enabled, Init, Following, Quiet;
    if n == i + 1 {
      sent := 0;
      FollowStart(run[i], r, listing);
    } else {
      sent := FollowRound(run, acts, r, i, j, listing, n - 1);
      FollowStep(run[n - 1], acts[n - 1], r, listing, sent);
      sent := Sent(run[n - 1], acts[n - 1], r, sent);
    }
  }

  lemma FollowStart(s: State, r: nat, listing: seq<Request>)
    requires Enabled(s, ResyncList(r, Some(listing))) && Quiet(s.pool) && !Closed(s.life)
    ensures Following(Apply(s, ResyncList(r, Some(listing))), r, listing, 0)
  {
    hide CallStep, ParsePair, IsListing;
    assert listing == listing[0..];
  }

  // ---------- what a round achieves ----------

  /** After a round the first min(capacity, listed) rows of the listing are terminal, whatever the
      provider answered. They are the oldest pending rows. */
  lemma RoundSettles(run: seq<State>, acts: seq<Action>, r: nat, i: nat, j: nat, listing: seq<Request>)
    requires IsRound(run, acts, r, i, j, listing)
    ensures IsListing(run[i].db.rows, 100, listing)
    ensures forall m :: 0 <= m < |listing| && m < run[0].cfg.capacity ==>
      listing[m].id < |run[j].db.rows| && run[j].db.rows[listing[m].id].status != Pending
  {
    hide Apply, Init;
    assert Enabled(run[i], acts[i]);
    var sent := FollowRound(run, acts, r, i, j, listing, j);
    SameConfig(run, acts, j);
    RowsThere(run, acts, i, j, listing);
  }

  lemma RowsThere(run: seq<State>, acts: seq<Action>, i: nat, j: nat, listing: seq<Request>)
    requires Starts(run, acts) && i <= j < |run| && IsListing(run[i].db.rows, RESYNC_LIMIT, listing)
    ensures forall m :: 0 <= m < |listing| ==> listing[m].id < |run[j].db.rows|
  {
    hide Apply, Init, Enabled;
    Between(run, acts, i, j);
    assert forall m :: 0 <= m < |listing| ==> Snapshot(run[i].db.rows, listing[m]);
  }

  lemma {:induction false} SameConfig(run: seq<State>, acts: seq<Action>, n: nat)
    requires IsRun(run, acts) && n < |run|
    ensures run[n].cfg == run[0].cfg
  {
    hide Apply, Enabled;
    if n > 0 {
      SameConfig(run, acts, n - 1);
      Untouched(run[n - 1], acts[n - 1]);
    }
  }

  lemma {:induction false} PendingShrinks(run: seq<State>, acts: seq<Action>, i: nat, j: nat)
    requires Starts(run, acts) && i <= j < |run|
    requires forall k :: i <= k < j ==> CreatesNothing(run[k], acts[k])
    ensures PendingIds(run[j].db.rows) <= PendingIds(run[i].db.rows)
    decreases j
  {
    hide Apply, Init, Enabled;
    if i < j {
      PendingShrinks(run, acts, i, j - 1);
      NoNewRows(run[j - 1], acts[j - 1]);
    }
  }

  lemma NoNewRows(s: State, a: Action)
    requires Enabled(s, a) && CreatesNothing(s, a)
    ensures PendingIds(Apply(s, a).db.rows) <= PendingIds(s.db.rows)
  {
    hide CallStep, ParsePair, IsListing;
    Untouched(s, a);
  }

  /** Pending rows are a decreasing measure: of p of them a round settles at least
      min(100, capacity, p). */
  lemma RoundShrinks(run: seq<State>, acts: seq<Action>, r: nat, i: nat, j: nat, listing: seq<Request>)
    requires IsRound(run, acts, r, i, j, listing)
    ensures var p := |PendingIds(run[i].db.rows)|;
      |PendingIds(run[j].db.rows)| <= p - Min(Min(100, run[0].cfg.capacity), p)
  {
    hide Apply, Init, Enabled, PendingIds;
    RoundSettles(run, acts, r, i, j, listing);
    ListingSize(run[i].db.rows, RESYNC_LIMIT, listing);
    var head := listing[..Min(|listing|, run[0].cfg.capacity)];
    forall k | i <= k < j ensures CreatesNothing(run[k], acts[k]) {
      assert k == i || Undisturbed(run[k], acts[k], r);
    }
    PendingShrinks(run, acts, i, j);
    HeadGone(run[i].db.rows, run[j].db.rows, listing, head);
  }

  lemma HeadGone(before: seq<Row>, after: seq<Row>, listing: seq<Request>, head: seq<Request>)
    requires IsListing(before, RESYNC_LIMIT, listing) && head <= listing
    requires PendingIds(after) <= PendingIds(before)
    requires forall m :: 0 <= m < |head| ==> !IsPendingId(after, head[m].id)
    ensures |PendingIds(after)| <= |PendingIds(before)| - |head|
  {
    HeadDistinct(before, listing, head);
    var gone := Ids(head);
    hide IsListing, PendingIds, Ids;
    forall id | id in gone ensures id in PendingIds(before) && id !in PendingIds(after) {
      HeadSettled(before, after, listing, head, id);
    }
    Removed(PendingIds(before), PendingIds(after), gone);
  }

  lemma HeadDistinct(before: seq<Row>, listing: seq<Request>, head: seq<Request>)
    requires IsListing(before, RESYNC_LIMIT, listing) && head <= listing
    ensures |Ids(head)| == |head| && forall id :: id in Ids(head) <==> Listed(head, id)
  {
    hide Ids;
    IdsListed(head);
    assert forall k :: 0 <= k < |head| ==> head[k] == listing[k];
  }

  lemma HeadSettled(before: seq<Row>, after: seq<Row>, listing: seq<Request>, head: seq<Request>, id: nat)
    requires IsListing(before, RESYNC_LIMIT, listing) && head <= listing && Listed(head, id)
    requires forall m :: 0 <= m < |head| ==> !IsPendingId(after, head[m].id)
    ensures id in PendingIds(before) && id !in PendingIds(after)
  {
    var k :| 0 <= k < |head| && head[k].id == id;
    assert Snapshot(before, listing[k]);
  }

  lemma Removed<T>(a: set<T>, b: set<T>, gone: set<T>)
    requires b <= a && gone <= a && gone !! b
    ensures |b| <= |a| - |gone|
  {
    Subset(b + gone, a);
  }

  datatype Round = Round(r: nat, from: nat, to: nat, listing: seq<Request>)

  /** Rounds one after another in the same run. */
  ghost predicate IsSchedule(run: seq<State>, acts: seq<Action>, rounds: seq<Round>) {
    && (forall k :: 0 <= k < |rounds| ==>
          IsRound(run, acts, rounds[k].r, rounds[k].from, rounds[k].to, rounds[k].listing))
    && (forall k :: 0 < k < |rounds| ==> rounds[k - 1].to <= rounds[k].from)
  }

  /** With no new rows in between, ceil(p / min(100, capacity)) rounds leave nothing pending. */
  lemma {:induction false} RoundsFinish(run: seq<State>, acts: seq<Action>, rounds: seq<Round>)
    requires IsSchedule(run, acts, rounds) && rounds != []
    requires forall k :: rounds[0].from <= k < rounds[|rounds| - 1].to ==> CreatesNothing(run[k], acts[k])
    ensures var p, step := |PendingIds(run[rounds[0].from].db.rows)|, Min(100, run[0].cfg.capacity);
      var left := |PendingIds(run[rounds[|rounds| - 1].to].db.rows)|;
      (left == 0 || left + |rounds| * step <= p) && (|rounds| * step >= p ==> left == 0)
  {
    hide IsRound, PendingIds, Min, Starts, IsRun;
    var n := |rounds|;
    var last := rounds[n - 1];
    RoundSpan(run, acts, last);
    RoundShrinks(run, acts, last.r, last.from, last.to, last.listing);
    var step := Min(RESYNC_LIMIT, run[0].cfg.capacity);
    Settled(|PendingIds(run[last.from].db.rows)|, step);
    if n > 1 {
      var earlier, prior := rounds[..n - 1], rounds[n - 2];
      RoundSpan(run, acts, prior);
      ScheduleSpan(run, acts, earlier);
      assert prior == earlier[n - 2] && prior.to <= last.from;
      RoundsFinish(run, acts, earlier);
      BetweenRounds(run, acts, prior.to, last.from);
      Multiply(n, step);
    }
  }

  lemma BetweenRounds(run: seq<State>, acts: seq<Action>, i: nat, j: nat)
    requires Starts(run, acts) && i <= j < |run|
    requires forall k :: i <= k < j ==> CreatesNothing(run[k], acts[k])
    ensures |PendingIds(run[j].db.rows)| <= |PendingIds(run[i].db.rows)|
  {
    hide Init, Apply, Enabled, PendingIds;
    PendingShrinks(run, acts, i, j);
    Subset(PendingIds(run[j].db.rows), PendingIds(run[i].db.rows));
  }

  lemma Multiply(n: nat, step: nat)
    requires n > 0
    ensures n * step == (n - 1) * step + step
  {
  }

  lemma Settled(p: nat, step: nat)
    ensures p - Min(step, p) == 0 || p - Min(step, p) + step == p
  {
  }

  lemma RoundSpan(run: seq<State>, acts: seq<Action>, round: Round)
    requires IsRound(run, acts, round.r, round.from, round.to, round.listing)
    ensures Starts(run, acts) && round.from < round.to < |run|
  {
    hide Starts, Quiet;
  }

  lemma {:induction false} ScheduleSpan(run: seq<State>, acts: seq<Action>, rounds: seq<Round>)
    requires IsSchedule(run, acts, rounds) && rounds != []
    ensures rounds[0].from < rounds[|rounds| - 1].to
  {
    hide IsRound;
    var n := |rounds|;
    RoundSpan(run, acts, rounds[n - 1]);
    if n > 1 {
      ScheduleSpan(run, acts, rounds[..n - 1]);
    }
  }
}
