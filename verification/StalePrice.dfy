/** How old the price of a completed row can be: a run in which it is as old as a TTL and a delay allow,
    and with it the exact bound (internal/rates/cached/cached.go:70-87,
    internal/service/service.go:215-238). */
module StalePrice {
  import opened Wrappers
  import opened Domain
  import opened Requests
  import opened Storage
  import opened System
  import opened Guarantees
  import opened Overtaking
  import opened EndToEnd
  import opened Rates
  import Cached
  import CacheRuns

  const THE_RATE := Rate(EUR_USD, 1.0, 0, "source")

  function CacheAt(ttl: int, clock: int, first: CacheRuns.Thread, stored: bool, hits: seq<CacheRuns.Hit>)
      : CacheRuns.State {
    CacheRuns.State(
      ttl, if stored then map["EUR/USD" := Cached.Entry(THE_RATE, ttl)] else map[], clock, [first, CacheRuns.Free],
      if stored || first.Storing? then [CacheRuns.Heard(EUR_USD, THE_RATE)] else [],
      if stored then [Cached.Stored("EUR/USD", THE_RATE, 0)] else [], hits)
  }

  /** Both workers ask for the same row; the second one's progress varies. */
  function Asked(clock: int, second: Worker): State {
    At(Crew(Calling(THE_REQUEST), second, []), [], [Stopped, Sending([])], clock, map[], [],
       [THE_REQUEST, THE_REQUEST])
  }

  function Published(at: int, second: Worker): State {
    At(Crew(Calling(THE_REQUEST), second, []), [], [Stopped, Sending([])], at,
       map["EUR/USD" := Quote(1.0, at)], [QuoteWrite("EUR/USD", 1.0, at)], [THE_REQUEST, THE_REQUEST])
  }

  function Completed(at: int): State {
    var s := Published(at, Idle);
    s.(db := s.db.(rows := [THE_ROW.(status := Status.Completed, price := Some(1.0), updatedAt := at)]),
       pool := s.pool.(processed := multiset{THE_REQUEST}))
  }

  /** The end of the time a stored value lives, and the worker's late look at the clock. */
  function LateAt(ttl: int, delay: int): int {
    ttl - 1 + delay
  }

  function StateAt(ttl: int, delay: int, k: nat): Joint
    requires k < 18
  {
    var r := THE_REQUEST;
    var calm := Asked(0, Calling(r));
    var first, second := Some(Reply(Some(1.0), 0, ttl)), Some(Reply(Some(1.0), ttl - 1, ttl));
    var late, hit := LateAt(ttl, delay), [CacheRuns.Hit(EUR_USD, THE_RATE, ttl - 1)];
    if k <= 8 then Joint(Overtaking.TheRun([])[k], CacheAt(ttl, 0, CacheRuns.Free, false, []), [None, None])
    else if k == 9 then Joint(calm, CacheAt(ttl, 0, CacheRuns.Waiting(EUR_USD), false, []), [None, None])
    else if k == 10 then Joint(calm, CacheAt(ttl, 0, CacheRuns.Storing(EUR_USD, THE_RATE), false, []), [None, None])
    else if k == 11 then Joint(calm, CacheAt(ttl, 0, CacheRuns.Free, true, []), [first, None])
    else if k == 12 then
      Joint(Asked(ttl - 1, Calling(r)), CacheAt(ttl, ttl - 1, CacheRuns.Free, true, []), [first, None])
    else if k == 13 then
      Joint(Asked(ttl - 1, Calling(r)), CacheAt(ttl, ttl - 1, CacheRuns.Free, true, hit), [first, second])
    else
      var cache := CacheAt(ttl, late, CacheRuns.Free, true, hit);
      if k == 14 then Joint(Asked(late, Calling(r)), cache, [first, second])
      else if k == 15 then Joint(Asked(late, Publishing(r, 1.0, late)), cache, [first, None])
      else if k == 16 then Joint(Published(late, Completing(r, 1.0, late)), cache, [first, None])
      else Joint(Completed(late), cache, [first, None])
  }

  function ActionAt(ttl: int, delay: int, k: nat): JointAction
    requires k < 17
  {
    if k < 8 then Serve(Overtaking.TheActions()[k])
    else if k == 8 then Inside(CacheRuns.Lookup(0, EUR_USD))
    else if k == 9 then Inside(CacheRuns.Answer(0, Success(THE_RATE)))
    else if k == 10 then Inside(CacheRuns.Store(0))
    else if k == 11 then Pass(ttl - 1)
    else if k == 12 then Inside(CacheRuns.Lookup(1, EUR_USD))
    else if k == 13 then Pass(LateAt(ttl, delay))
    else if k == 14 then Serve(Provider(1, Success(1.0)))
    else Serve(Write(1, NoFault, 0, []))
  }

  ghost predicate MovesAt(ttl: int, delay: int, k: nat)
    requires k < 17
  {
    var j, x := StateAt(ttl, delay, k), ActionAt(ttl, delay, k);
    CanMove(j, x) && StateAt(ttl, delay, k + 1) == Move(j, x)
  }

  lemma FirstMoves(ttl: int, delay: int, k: nat)
    requires ttl > 0 && delay >= 0 && k < 8
    ensures MovesAt(ttl, delay, k)
  {
    hide Enabled, Apply;
    FirstResync([]);
    SecondResync([]);
    TakeSteps([]);
    assert StepAt([], k);
  }

  lemma MissMoves(ttl: int, delay: int)
    requires ttl > 0 && delay >= 0
    ensures MovesAt(ttl, delay, 8) && MovesAt(ttl, delay, 9)
  {
    hide Enabled, Apply;
    PairPrints();
  }

  lemma StoreMove(ttl: int, delay: int)
    requires ttl > 0 && delay >= 0
    ensures MovesAt(ttl, delay, 10)
  {
    hide Enabled, Apply;
    PairPrints();
  }

  lemma HitMoves(ttl: int, delay: int)
    requires ttl > 0 && delay >= 0
    ensures MovesAt(ttl, delay, 11) && MovesAt(ttl, delay, 12) && MovesAt(ttl, delay, 13)
  {
    hide Enabled, Apply;
    PairPrints();
  }

  lemma TakeMove(ttl: int, delay: int)
    requires ttl > 0 && delay >= 0
    ensures MovesAt(ttl, delay, 14)
  {
  }

  lemma PublishMove(ttl: int, delay: int)
    requires ttl > 0 && delay >= 0
    ensures MovesAt(ttl, delay, 15)
  {
    hide CallStep, ParsePair, IsListing;
    PairPrints();
  }

  lemma CompleteMove(ttl: int, delay: int)
    requires ttl > 0 && delay >= 0
    ensures MovesAt(ttl, delay, 16)
  {
    hide CallStep, ParsePair, IsListing;
    PairPrints();
  }

  lemma PairPrints()
    ensures EUR_USD.ToString() == "EUR/USD" && ValidPair(EUR_USD)
  {
  }

  function LateRun(ttl: int, delay: int): seq<Joint> {
    seq(18, k requires 0 <= k < 18 => StateAt(ttl, delay, k))
  }

  function LateMoves(ttl: int, delay: int): seq<JointAction> {
    seq(17, k requires 0 <= k < 17 => ActionAt(ttl, delay, k))
  }

  lemma LateRunStarts(ttl: int, delay: int)
    requires ttl > 0
    ensures JointInit(StateAt(ttl, delay, 0))
  {
    hide Init, IsRun;
    SeveralWorkersCanGoBack([]);
    assert |Overtaking.TheRun([])[0].pool.workers| == 2;
  }

  lemma AllMoves(ttl: int, delay: int, k: nat)
    requires ttl > 0 && delay >= 0 && k < 17
    ensures MovesAt(ttl, delay, k)
  {
    hide MovesAt;
    if k < 8 {
      FirstMoves(ttl, delay, k);
    }
    MissMoves(ttl, delay);
    StoreMove(ttl, delay);
    HitMoves(ttl, delay);
    TakeMove(ttl, delay);
    PublishMove(ttl, delay);
    CompleteMove(ttl, delay);
  }

  lemma LateRunRuns(ttl: int, delay: int)
    requires ttl > 0 && delay >= 0
    ensures JointRun(LateRun(ttl, delay), LateMoves(ttl, delay))
  {
    hide CanMove, Move, JointInit, StateAt, ActionAt;
    LateRunStarts(ttl, delay);
    var run, acts := LateRun(ttl, delay), LateMoves(ttl, delay);
    forall k: nat | k < |acts| ensures CanMove(run[k], acts[k]) && run[k + 1] == Move(run[k], acts[k]) {
      AllMoves(ttl, delay, k);
      assert run[k + 1] == StateAt(ttl, delay, k + 1);
    }
  }

  lemma LateRunIsPrompt(ttl: int, delay: int)
    requires ttl > 0 && delay >= 0 && JointRun(LateRun(ttl, delay), LateMoves(ttl, delay))
    ensures Prompt(LateRun(ttl, delay), LateMoves(ttl, delay), delay)
  {
    hide JointRun;
    forall t: nat, at: int, reply: Reply | TakenAt(LateRun(ttl, delay), LateMoves(ttl, delay), t, at, reply)
      ensures at - reply.at <= delay
    {
      NothingTakenEarly(t);
    }
  }

  lemma NothingTakenEarly(t: nat)
    ensures t < 8 ==> !Overtaking.TheActions()[t].Provider?
  {
  }

  /** The run ends with a row whose price was stored at 0 and is dated TTL - 1 + delay. */
  lemma LateRunEndsLate(ttl: int, delay: int, age: int)
    requires ttl > 0 && delay >= 0
    ensures var run := LateRun(ttl, delay);
      && CompletedSince(run, 17, 0) && run[0].cache.ttl == ttl
      && var row := run[17].sys.db.rows[0];
         row.updatedAt == ttl - 1 + delay
         && (Younger(run[17].cache, row.pair, row.price, row.updatedAt, age) ==> age >= ttl + delay)
  {
  }

  /** The exact bound on the age of prices in completed rows. If workers take the cache's replies within
      a delay, every completed row shows a price stored less than TTL + delay before the time it shows,
      and no smaller bound holds. In particular "less than a TTL" holds exactly without any delay. */
  lemma AgeExactly(ttl: int, delay: int, age: int)
    requires ttl > 0 && delay >= 0
    ensures AlwaysYounger(ttl, delay, age) <==> age >= ttl + delay
  {
    hide JointRun, Prompt, CompletedSince, Younger, TakenAt, StateAt, ActionAt;
    LateRunRuns(ttl, delay);
    LateRunIsPrompt(ttl, delay);
    LateRunEndsLate(ttl, delay, age);
    if age >= ttl + delay {
      forall run: seq<Joint>, acts: seq<JointAction>, n: nat, id: nat
        | JointRun(run, acts) && RunTtl(run) == ttl && Prompt(run, acts, delay)
          && n < |run| && CompletedSince(run, n, id)
        ensures ShowsYounger(run, n, id, age)
      {
        AgeBounded(run, acts, n, id, delay, age);
      }
    }
  }

  ghost function RunTtl(run: seq<Joint>): int {
    if run == [] then 0 else run[0].cache.ttl
  }

  ghost predicate ShowsYounger(run: seq<Joint>, n: nat, id: nat, age: int)
    requires n < |run| && CompletedSince(run, n, id)
  {
    var row := run[n].sys.db.rows[id];
    Younger(run[n].cache, row.pair, row.price, row.updatedAt, age)
  }

  lemma AgeBounded(run: seq<Joint>, acts: seq<JointAction>, n: nat, id: nat, delay: int, age: int)
    requires JointRun(run, acts) && Prompt(run, acts, delay) && n < |run| && CompletedSince(run, n, id)
    requires age >= run[0].cache.ttl + delay
    ensures ShowsYounger(run, n, id, age)
  {
    hide CanMove, Move;
    var t, reply, k := CompletedPricesWereFresh(run, acts, n, id);
    CacheGrows(run, acts, 0, n);
  }
}
