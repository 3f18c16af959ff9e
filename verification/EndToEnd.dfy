/** The service with the cache in front of its provider: the workers of System.dfy are the callers of
    CacheRuns.dfy (cmd/server/main.go:99-113, internal/service/service.go:210-238,
    internal/rates/cached/cached.go:66-91). What is behind the cache stays arbitrary, and any time may
    pass between the cache's reply and the worker's own look at the clock. */
module EndToEnd {
  import opened Wrappers
  import opened Domain
  import opened Requests
  import opened Utf8
  import opened System
  import opened Invariants
  import opened Guarantees
  import opened Provenance
  import opened Storage
  import Cached
  import CacheRuns

  /** What the cache answered a worker and when: a price good until `until`, or an error. */
  datatype Reply = Reply(price: Option<real>, at: int, until: int)

  /** Worker `w` is goroutine `w` of the cache; `replied` holds answers the workers have not seen. */
  datatype Joint = Joint(sys: State, cache: CacheRuns.State, replied: seq<Option<Reply>>)

  /** A step of the service, a step of a worker inside the cache, or time passing. */
  datatype JointAction = Serve(a: Action) | Inside(b: CacheRuns.Action) | Pass(now: int)

  predicate Carries(reply: Reply, answer: Result<real, Bytes>) {
    match reply.price
    case Some(price) => answer == Success(price)
    case None => answer.Failure?
  }

  /** A worker's call returns only with what the cache replied; inside the cache a worker looks for the
      pair it holds, once. */
  ghost predicate CanMove(j: Joint, x: JointAction) {
    match x
    case Serve(a) =>
      && Enabled(j.sys, a) && !a.Tick?
      && (a.Provider? ==> a.w < |j.replied| && j.replied[a.w].Some? && Carries(j.replied[a.w].value, a.answer))
    case Inside(b) =>
      && CacheRuns.Enabled(j.cache, b) && !b.Tick?
      && b.w < |j.replied| && j.replied[b.w].None?
      && b.w < |j.sys.pool.workers| && j.sys.pool.workers[b.w].Calling?
      && (b.Lookup? ==> b.pair == j.sys.pool.workers[b.w].req.pair)
    case Pass(now) => j.sys.clock <= now && j.cache.clock <= now
  }

  /** What the worker's step inside the cache makes the cache reply, if it does. */
  function ReplyOf(c: CacheRuns.State, b: CacheRuns.Action): Option<Reply>
    requires CacheRuns.Enabled(c, b) && !b.Tick?
  {
    match b
    case Lookup(w, pair) =>
      var hit := Cached.Fresh(c.entries, pair.ToString(), c.clock);
      if hit.None? then None else Some(Reply(Some(hit.value.price), c.clock, c.entries[pair.ToString()].expiresAt))
    case Answer(w, answer) => if answer.Success? then None else Some(Reply(None, c.clock, c.clock))
    case Store(w) => Some(Reply(Some(c.threads[w].rate.price), c.clock, c.clock + c.ttl))
  }

  ghost function Move(j: Joint, x: JointAction): Joint
    requires CanMove(j, x)
  {
    match x
    case Serve(a) =>
      j.(sys := Apply(j.sys, a), replied := if a.Provider? then j.replied[a.w := None] else j.replied)
    case Inside(b) =>
      j.(cache := CacheRuns.Apply(j.cache, b), replied := j.replied[b.w := ReplyOf(j.cache, b)])
    case Pass(now) => j.(sys := j.sys.(clock := now), cache := j.cache.(clock := now))
  }

  ghost predicate JointInit(j: Joint) {
    && Init(j.sys) && CacheRuns.Init(j.cache) && j.sys.clock == j.cache.clock
    && |j.replied| == |j.cache.threads| == |j.sys.pool.workers|
    && forall w :: 0 <= w < |j.replied| ==> j.replied[w].None?
  }

  ghost predicate JointRun(run: seq<Joint>, acts: seq<JointAction>) {
    && |run| == |acts| + 1 && JointInit(run[0])
    && forall k :: 0 <= k < |acts| ==> CanMove(run[k], acts[k]) && run[k + 1] == Move(run[k], acts[k])
  }

  // ---------- both halves of a joint run are runs ----------

  function SysAction(j: Joint, x: JointAction): Action {
    match x
    case Serve(a) => a
    case Inside(_) => Tick(j.sys.clock)
    case Pass(now) => Tick(now)
  }

  function CacheAction(j: Joint, x: JointAction): CacheRuns.Action {
    match x
    case Serve(_) => CacheRuns.Tick(j.cache.clock)
    case Inside(b) => b
    case Pass(now) => CacheRuns.Tick(now)
  }

  ghost predicate Wide(j: Joint) {
    |j.sys.resyncers| == 2
  }

  lemma Halves(j: Joint, x: JointAction)
    requires CanMove(j, x) && Wide(j)
    ensures Enabled(j.sys, SysAction(j, x)) && Apply(j.sys, SysAction(j, x)) == Move(j, x).sys
    ensures CacheRuns.Enabled(j.cache, CacheAction(j, x))
    ensures CacheRuns.Apply(j.cache, CacheAction(j, x)) == Move(j, x).cache
    ensures Wide(Move(j, x))
  {
    hide CallStep, ParsePair, WriteDb, DoQuery, IsListing, AllIdle, AllStopped, AllExited;
    if x.Serve? {
      Untouched(j.sys, x.a);
    }
  }

  function SysRun(run: seq<Joint>): seq<State> {
    seq(|run|, k requires 0 <= k < |run| => run[k].sys)
  }

  function SysActions(run: seq<Joint>, acts: seq<JointAction>): seq<Action>
    requires |run| == |acts| + 1
  {
    seq(|acts|, k requires 0 <= k < |acts| => SysAction(run[k], acts[k]))
  }

  function CacheRun(run: seq<Joint>): seq<CacheRuns.State> {
    seq(|run|, k requires 0 <= k < |run| => run[k].cache)
  }

  function CacheActions(run: seq<Joint>, acts: seq<JointAction>): seq<CacheRuns.Action>
    requires |run| == |acts| + 1
  {
    seq(|acts|, k requires 0 <= k < |acts| => CacheAction(run[k], acts[k]))
  }

  lemma {:induction false} StaysWide(run: seq<Joint>, acts: seq<JointAction>, n: nat)
    requires JointRun(run, acts) && n < |run|
    ensures Wide(run[n])
  {
    hide CanMove, Move;
    if n > 0 {
      StaysWide(run, acts, n - 1);
      Halves(run[n - 1], acts[n - 1]);
    }
  }

  lemma BothRun(run: seq<Joint>, acts: seq<JointAction>)
    requires JointRun(run, acts)
    ensures Starts(SysRun(run), SysActions(run, acts))
    ensures CacheRuns.IsRun(CacheRun(run), CacheActions(run, acts)) && CacheRuns.Init(CacheRun(run)[0])
  {
    hide CanMove, Move, Enabled, Apply, CacheRuns.Enabled, CacheRuns.Apply, Init, CacheRuns.Init;
    forall k | 0 <= k < |acts|
      ensures Enabled(SysRun(run)[k], SysActions(run, acts)[k])
      ensures SysRun(run)[k + 1] == Apply(SysRun(run)[k], SysActions(run, acts)[k])
      ensures CacheRuns.Enabled(CacheRun(run)[k], CacheActions(run, acts)[k])
      ensures CacheRun(run)[k + 1] == CacheRuns.Apply(CacheRun(run)[k], CacheActions(run, acts)[k])
    {
      StaysWide(run, acts, k);
      Halves(run[k], acts[k]);
    }
  }

  // ---------- what a reply is worth ----------

  /** A value stored for the key less than a TTL before the reply, which the provider behind the cache
      answered for a pair printed as this key. */
  ghost predicate Backs(c: CacheRuns.State, k: nat, key: string, reply: Reply)
    requires k < |c.stores|
  {
    && reply.price == Some(c.stores[k].rate.price) && c.stores[k].key == key
    && c.stores[k].at <= reply.at < reply.until && reply.until == c.stores[k].at + c.ttl
    && CacheRuns.Produced(c.answers, key, c.stores[k].rate)
  }

  ghost predicate Backed(c: CacheRuns.State, key: string, reply: Reply) {
    exists k: nat :: k < |c.stores| && Backs(c, k, key, reply)
  }

  ghost predicate SlotOk(j: Joint, w: nat)
    requires w < |j.replied| && w < |j.cache.threads| && w < |j.sys.pool.workers|
  {
    && (!j.cache.threads[w].Free? ==> j.replied[w].None? && Looking(j, w, j.cache.threads[w].pair))
    && (j.replied[w].Some? ==>
          var reply := j.replied[w].value;
          && j.sys.pool.workers[w].Calling? && reply.at <= j.sys.clock
          && (reply.price.Some? ==> Backed(j.cache, j.sys.pool.workers[w].req.pair.ToString(), reply)))
  }

  ghost predicate Looking(j: Joint, w: nat, pair: Pair)
    requires w < |j.sys.pool.workers|
  {
    j.sys.pool.workers[w].Calling? && j.sys.pool.workers[w].req.pair == pair
  }

  ghost predicate JointInv(j: Joint) {
    && j.sys.clock == j.cache.clock && |j.replied| == |j.cache.threads| == |j.sys.pool.workers|
    && CacheRuns.Inv(j.cache)
    && forall w :: 0 <= w < |j.replied| ==> SlotOk(j, w)
  }

  lemma BackedStays(c: CacheRuns.State, d: CacheRuns.State, key: string, reply: Reply)
    requires Backed(c, key, reply) && c.stores <= d.stores && c.answers <= d.answers && d.ttl == c.ttl
    ensures Backed(d, key, reply)
  {
    var k: nat :| k < |c.stores| && Backs(c, k, key, reply);
    CacheRuns.ProducedStays(c.answers, d.answers, key, c.stores[k].rate);
    assert d.stores[k] == c.stores[k];
    assert Backs(d, k, key, reply);
  }

  lemma ReplyIsBacked(c: CacheRuns.State, b: CacheRuns.Action, pair: Pair)
    requires CacheRuns.Inv(c) && CacheRuns.Enabled(c, b) && !b.Tick?
    requires if b.Lookup? then b.pair == pair else c.threads[b.w].pair == pair
    ensures var reply := ReplyOf(c, b);
      reply.Some? ==>
        && CacheRuns.Apply(c, b).threads[b.w].Free? && reply.value.at == c.clock
        && (reply.value.price.Some? ==> Backed(CacheRuns.Apply(c, b), pair.ToString(), reply.value))
    ensures ReplyOf(c, b).None? ==>
      var thread := CacheRuns.Apply(c, b).threads[b.w];
      !thread.Free? && thread.pair == pair
  {
    hide CacheRuns.Produced, ValidPair;
    var d, key := CacheRuns.Apply(c, b), pair.ToString();
    if b.Store? {
      assert CacheRuns.ThreadOk(c, c.threads[b.w]);
      assert Backs(d, |c.stores|, key, ReplyOf(c, b).value);
    } else if b.Lookup? && ReplyOf(c, b).Some? {
      var e := c.entries[key];
      assert CacheRuns.Backed(c, key, e);
      var k: nat :| k < |c.stores| && c.stores[k] == Cached.Stored(key, e.rate, e.expiresAt - c.ttl);
      assert Backs(d, k, key, ReplyOf(c, b).value);
    }
  }

  /** The service moves no worker that is inside the cache, but the one whose call returns. */
  lemma CallersStay(s: State, a: Action, w: nat)
    requires Enabled(s, a) && !a.Tick? && w < |s.pool.workers|
    ensures |Apply(s, a).pool.workers| == |s.pool.workers| && Apply(s, a).clock == s.clock
    ensures s.pool.workers[w].Calling? && !(a.Provider? && a.w == w) ==>
      Apply(s, a).pool.workers[w] == s.pool.workers[w]
  {
    hide CallStep, ParsePair, WriteDb, DoQuery, IsListing, AllIdle, AllStopped, AllExited;
    Untouched(s, a);
  }

  lemma ServeKeeps(j: Joint, a: Action)
    requires JointInv(j) && CanMove(j, Serve(a))
    ensures JointInv(Move(j, Serve(a)))
  {
    hide Enabled, Apply, Backed, CacheRuns.Inv;
    var t := Move(j, Serve(a));
    if |j.replied| > 0 {
      CallersStay(j.sys, a, 0);
    } else {
      NoWorkers(j.sys, a);
    }
    forall w: nat | w < |t.replied| ensures SlotOk(t, w) {
      assert SlotOk(j, w);
      CallersStay(j.sys, a, w);
    }
  }

  lemma NoWorkers(s: State, a: Action)
    requires Enabled(s, a) && !a.Tick? && |s.pool.workers| == 0
    ensures |Apply(s, a).pool.workers| == 0 && Apply(s, a).clock == s.clock
  {
    hide CallStep, ParsePair, WriteDb, DoQuery, IsListing, AllIdle, AllStopped, AllExited;
    Untouched(s, a);
  }

  lemma InsideKeeps(j: Joint, b: CacheRuns.Action)
    requires JointInv(j) && CanMove(j, Inside(b))
    ensures JointInv(Move(j, Inside(b)))
  {
    hide CacheRuns.Inv, Backed, ValidPair, ReplyOf;
    var t := Move(j, Inside(b));
    var pair := j.sys.pool.workers[b.w].req.pair;
    assert SlotOk(j, b.w);
    CacheRuns.Grows(j.cache, b);
    CacheRuns.InvStep(j.cache, b);
    ReplyIsBacked(j.cache, b, pair);
    forall w | 0 <= w < |t.replied| ensures SlotOk(t, w) {
      assert SlotOk(j, w);
      OtherThreads(j.cache, b, w);
      if w != b.w && j.replied[w].Some? && j.replied[w].value.price.Some? {
        BackedStays(j.cache, t.cache, j.sys.pool.workers[w].req.pair.ToString(), j.replied[w].value);
      }
    }
  }

  lemma OtherThreads(c: CacheRuns.State, b: CacheRuns.Action, w: nat)
    requires CacheRuns.Enabled(c, b) && !b.Tick? && w < |c.threads|
    ensures CacheRuns.Apply(c, b).clock == c.clock
    ensures w != b.w ==> CacheRuns.Apply(c, b).threads[w] == c.threads[w]
  {
  }

  lemma PassKeeps(j: Joint, now: int)
    requires JointInv(j) && CanMove(j, Pass(now))
    ensures JointInv(Move(j, Pass(now)))
  {
    hide Backed;
    var t := Move(j, Pass(now));
    CacheRuns.InvStep(j.cache, CacheRuns.Tick(now));
    forall w | 0 <= w < |t.replied| ensures SlotOk(t, w) {
      assert SlotOk(j, w);
      if j.replied[w].Some? && j.replied[w].value.price.Some? {
        BackedStays(j.cache, t.cache, j.sys.pool.workers[w].req.pair.ToString(), j.replied[w].value);
      }
    }
  }

  lemma {:induction false} JointlyReachable(run: seq<Joint>, acts: seq<JointAction>, n: nat)
    requires JointRun(run, acts) && n < |run|
    ensures JointInv(run[n])
  {
    hide CanMove, Move, JointInv;
    if n == 0 {
      StartsJoined(run[0]);
    } else {
      JointlyReachable(run, acts, n - 1);
      match acts[n - 1] {
        case Serve(a) => ServeKeeps(run[n - 1], a);
        case Inside(b) => InsideKeeps(run[n - 1], b);
        case Pass(now) => PassKeeps(run[n - 1], now);
      }
    }
  }

  lemma StartsJoined(j: Joint)
    requires JointInit(j)
    ensures JointInv(j)
  {
  }

  // ---------- how old a completed price is ----------

  /** At step `t` worker `w` takes this reply, and the row that shows it is dated by that instant. */
  ghost predicate TakenAt(run: seq<Joint>, acts: seq<JointAction>, t: nat, at: int, reply: Reply)
    requires JointRun(run, acts)
  {
    && t < |acts| && acts[t].Serve? && acts[t].a.Provider? && acts[t].a.w < |run[t].replied|
    && run[t].replied[acts[t].a.w] == Some(reply) && run[t].sys.clock == at
  }

  ghost predicate CompletedSince(run: seq<Joint>, n: nat, id: nat)
    requires n < |run|
  {
    && id < |run[n].sys.db.rows| && run[n].sys.db.rows[id].status == Completed
    && (id < |run[0].sys.db.rows| ==> run[0].sys.db.rows[id].status == Pending)
  }

  lemma {:induction false} CacheGrows(run: seq<Joint>, acts: seq<JointAction>, i: nat, j: nat)
    requires JointRun(run, acts) && i <= j < |run|
    ensures run[i].cache.stores <= run[j].cache.stores && run[i].cache.answers <= run[j].cache.answers
    ensures run[j].cache.ttl == run[i].cache.ttl
    decreases j
  {
    hide CanMove, Move, CacheRuns.Enabled, CacheRuns.Apply;
    if i < j {
      CacheGrows(run, acts, i, j - 1);
      StaysWide(run, acts, j - 1);
      Halves(run[j - 1], acts[j - 1]);
      CacheRuns.Grows(run[j - 1].cache, CacheAction(run[j - 1], acts[j - 1]));
    }
  }

  /** End to end, in every interleaving: the price a completed row shows was a reply of the cache, given
      no later than the time the row shows; the provider behind the cache had answered it for the pair
      of that row, and it had been stored less than a TTL before the reply. At the time the row shows
      the price is still younger than a TTL exactly when the worker took the reply before the time left
      to it ran out. */
  lemma CompletedPricesWereFresh(run: seq<Joint>, acts: seq<JointAction>, n: nat, id: nat)
      returns (t: nat, reply: Reply, k: nat)
    requires JointRun(run, acts) && n < |run| && CompletedSince(run, n, id)
    ensures var row := run[n].sys.db.rows[id];
      && t < n && TakenAt(run, acts, t, row.updatedAt, reply) && reply.at <= row.updatedAt
      && row.price.Some? && row.price == reply.price
      && k < |run[n].cache.stores| && Backs(run[n].cache, k, row.pair, reply)
      && (row.updatedAt < run[n].cache.stores[k].at + run[n].cache.ttl <==> row.updatedAt - reply.at < TimeLeft(reply))
  {
    hide CanMove, Move, Init, Enabled, Apply, CacheRuns.Inv, TableInv, Conserved, LifeInv, ExitInv, PublishedInv,
      Backed;
    var sys, steps := SysRun(run), SysActions(run, acts);
    BothRun(run, acts);
    OutcomeWasHeard(sys, steps, n, id);
    var row := run[n].sys.db.rows[id];
    t :| t < n && AnsweredAt(sys, steps, t, id, Success(row.price.value)) && sys[t].clock == row.updatedAt;
    var w := steps[t].w;
    var req := run[t].sys.pool.workers[w].req;
    assert CanMove(run[t], acts[t]);
    ProviderServed(run[t], acts[t]);
    reply := run[t].replied[w].value;
    JointlyReachable(run, acts, t);
    assert SlotOk(run[t], w);
    Reachable(sys, steps, t);
    assert Fits(sys[t].db.rows, req);
    Between(sys, steps, t, n);
    assert RowEvolves(sys[t].db.rows[id], row);
    CacheGrows(run, acts, t, n);
    BackedStays(run[t].cache, run[n].cache, row.pair, reply);
    k := BackedBy(run[n].cache, row.pair, reply);
  }

  /** How long a reply stays good. */
  function TimeLeft(reply: Reply): int {
    reply.until - reply.at
  }

  lemma BackedBy(c: CacheRuns.State, key: string, reply: Reply) returns (k: nat)
    requires Backed(c, key, reply)
    ensures k < |c.stores| && Backs(c, k, key, reply)
  {
    k :| k < |c.stores| && Backs(c, k, key, reply);
  }

  lemma ProviderServed(j: Joint, x: JointAction)
    requires CanMove(j, x) && SysAction(j, x).Provider?
    ensures x.Serve? && x.a.w < |j.replied| && j.replied[x.a.w].Some? && Carries(j.replied[x.a.w].value, x.a.answer)
  {
  }

  /** Workers take their replies within `delay`. */
  ghost predicate Prompt(run: seq<Joint>, acts: seq<JointAction>, delay: int)
    requires JointRun(run, acts)
  {
    forall t: nat, at: int, reply: Reply :: TakenAt(run, acts, t, at, reply) ==> at - reply.at <= delay
  }

  /** The price had been stored less than `age` before the given time. */
  ghost predicate Younger(c: CacheRuns.State, key: string, price: Option<real>, at: int, age: int) {
    exists k: nat :: k < |c.stores| && c.stores[k].key == key && price == Some(c.stores[k].rate.price)
      && c.stores[k].at <= at < c.stores[k].at + age && CacheRuns.Produced(c.answers, key, c.stores[k].rate)
  }

  /** In every run with this TTL and this delay, completed rows show prices younger than `age`. */
  ghost predicate AlwaysYounger(ttl: int, delay: int, age: int) {
    forall run: seq<Joint>, acts: seq<JointAction>, n: nat, id: nat ::
      JointRun(run, acts) && run[0].cache.ttl == ttl && Prompt(run, acts, delay)
      && n < |run| && CompletedSince(run, n, id)
      ==> var row := run[n].sys.db.rows[id]; Younger(run[n].cache, row.pair, row.price, row.updatedAt, age)
  }
}
