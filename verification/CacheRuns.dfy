/** Many callers inside Cache.Rate at once (internal/rates/cached/cached.go:66-91): the lock is
    held for the lookup and for the store, not for the provider call in between. */
module CacheRuns {
  import opened Wrappers
  import opened Domain
  import opened Rates
  import opened Cached

  /** A goroutine: outside a call, waiting for the provider, or about to store. */
  datatype Thread = Free | Waiting(pair: Pair) | Storing(pair: Pair, rate: Rate)

  datatype Hit = Hit(pair: Pair, rate: Rate, at: int)

  datatype Heard = Heard(pair: Pair, rate: Rate)

  /** `answers`, `stores` and `hits` are history. */
  datatype State = State(
    ttl: int, entries: map<string, Entry>, clock: int, threads: seq<Thread>,
    answers: seq<Heard>, stores: seq<Stored>, hits: seq<Hit>)

  datatype Action =
    | Tick(now: int)
    | Lookup(w: nat, pair: Pair)
    | Answer(w: nat, answer: Result<Rate, Err>)
    | Store(w: nat)

  predicate Enabled(s: State, a: Action) {
    match a
    case Tick(now) => s.clock <= now
    case Lookup(w, pair) => w < |s.threads| && s.threads[w].Free? && ValidPair(pair)
    case Answer(w, _) => w < |s.threads| && s.threads[w].Waiting?
    case Store(w) => w < |s.threads| && s.threads[w].Storing?
  }

  function Apply(s: State, a: Action): State
    requires Enabled(s, a)
  {
    match a
    case Tick(now) => s.(clock := now)
    case Lookup(w, pair) =>
      (match Fresh(s.entries, pair.ToString(), s.clock)
       case Some(rate) => s.(hits := s.hits + [Hit(pair, rate, s.clock)])
       case None => s.(threads := s.threads[w := Waiting(pair)]))
    case Answer(w, answer) =>
      var pair := s.threads[w].pair;
      (match answer
       case Failure(_) => s.(threads := s.threads[w := Free])
       case Success(rate) =>
         s.(threads := s.threads[w := Storing(pair, rate)], answers := s.answers + [Heard(pair, rate)]))
    case Store(w) =>
      var stored := Stored(s.threads[w].pair.ToString(), s.threads[w].rate, s.clock);
      s.(threads := s.threads[w := Free], entries := StoreEntry(s.entries, s.ttl, stored),
         stores := s.stores + [stored])
  }

  ghost predicate Init(s: State) {
    && s.ttl > 0 && s.entries == map[] && s.answers == [] && s.stores == [] && s.hits == []
    && forall w :: 0 <= w < |s.threads| ==> s.threads[w].Free?
  }

  ghost predicate IsRun(run: seq<State>, acts: seq<Action>) {
    && |run| == |acts| + 1
    && (forall k :: 0 <= k < |acts| ==> Enabled(run[k], acts[k]) && run[k + 1] == Apply(run[k], acts[k]))
  }

  // ---------- where values come from ----------

  /** The provider answered this rate for a valid pair printed as this key. */
  ghost predicate Produced(answers: seq<Heard>, key: string, rate: Rate) {
    exists k :: 0 <= k < |answers| && IsAnswer(answers[k], key, rate)
  }

  ghost predicate IsAnswer(a: Heard, key: string, rate: Rate) {
    ValidPair(a.pair) && a.pair.ToString() == key && a.rate == rate
  }

  /** The entry is the store of its value, one TTL before its expiry. */
  ghost predicate Backed(s: State, key: string, e: Entry) {
    Stored(key, e.rate, e.expiresAt - s.ttl) in s.stores
  }

  ghost predicate StoresOk(s: State) {
    forall k :: 0 <= k < |s.stores| ==>
      Produced(s.answers, s.stores[k].key, s.stores[k].rate) && s.stores[k].at <= s.clock
  }

  ghost predicate HitOk(s: State, h: Hit) {
    exists k :: 0 <= k < |s.stores| && s.stores[k].key == h.pair.ToString() && s.stores[k].rate == h.rate
      && s.stores[k].at <= h.at < s.stores[k].at + s.ttl
  }

  ghost predicate ThreadOk(s: State, t: Thread) {
    match t
    case Free => true
    case Waiting(pair) => ValidPair(pair)
    case Storing(pair, rate) => ValidPair(pair) && Produced(s.answers, pair.ToString(), rate)
  }

  ghost predicate Inv(s: State) {
    && s.ttl > 0 && StoresOk(s)
    && (forall key :: key in s.entries ==> Backed(s, key, s.entries[key]))
    && (forall k :: 0 <= k < |s.hits| ==> ValidPair(s.hits[k].pair) && HitOk(s, s.hits[k]))
    && (forall w :: 0 <= w < |s.threads| ==> ThreadOk(s, s.threads[w]))
  }

  lemma ProducedStays(answers: seq<Heard>, more: seq<Heard>, key: string, rate: Rate)
    requires Produced(answers, key, rate) && answers <= more
    ensures Produced(more, key, rate)
  {
    var k :| 0 <= k < |answers| && IsAnswer(answers[k], key, rate);
    assert more[k] == answers[k];
  }

  lemma HitStays(s: State, t: State, h: Hit)
    requires HitOk(s, h) && s.stores <= t.stores && s.ttl == t.ttl
    ensures HitOk(t, h)
  {
    var k :| 0 <= k < |s.stores| && s.stores[k].key == h.pair.ToString() && s.stores[k].rate == h.rate
      && s.stores[k].at <= h.at < s.stores[k].at + s.ttl;
    assert t.stores[k] == s.stores[k];
  }

  lemma Grows(s: State, a: Action)
    requires Enabled(s, a)
    ensures var t := Apply(s, a);
      && s.answers <= t.answers && s.stores <= t.stores && s.hits <= t.hits
      && t.ttl == s.ttl && s.clock <= t.clock && |t.threads| == |s.threads|
  {
    hide ValidPair;
  }

  lemma InvStep(s: State, a: Action)
    requires Inv(s) && Enabled(s, a)
    ensures Inv(Apply(s, a))
  {
    hide Produced, HitOk, ValidPair;
    var t := Apply(s, a);
    Grows(s, a);
    forall key, rate | Produced(s.answers, key, rate) ensures Produced(t.answers, key, rate) {
      ProducedStays(s.answers, t.answers, key, rate);
    }
    forall h | HitOk(s, h) ensures HitOk(t, h) {
      HitStays(s, t, h);
    }
    match a {
      case Lookup(w, pair) =>
        if t.hits != s.hits {
          LookupHits(s, pair, t);
        }
      case Answer(w, answer) =>
        if answer.Success? {
          AnswerProduces(s.answers, s.threads[w].pair, answer.value);
        }
      case Store(w) =>
        assert t.stores[|s.stores|] in t.stores;
        assert forall x :: x in s.stores ==> x in t.stores;
      case Tick(_) =>
    }
  }

  lemma AnswerProduces(answers: seq<Heard>, pair: Pair, rate: Rate)
    requires ValidPair(pair)
    ensures Produced(answers + [Heard(pair, rate)], pair.ToString(), rate)
  {
    var more := answers + [Heard(pair, rate)];
    assert more[|answers|] == Heard(pair, rate);
  }

  lemma LookupHits(s: State, pair: Pair, t: State)
    requires Inv(s) && Fresh(s.entries, pair.ToString(), s.clock).Some?
    requires t.ttl == s.ttl && t.stores == s.stores
    ensures HitOk(t, Hit(pair, Fresh(s.entries, pair.ToString(), s.clock).value, s.clock))
  {
    hide Produced, ValidPair;
    var e := s.entries[pair.ToString()];
    assert Backed(s, pair.ToString(), e);
    var k :| 0 <= k < |s.stores| && s.stores[k] == Stored(pair.ToString(), e.rate, e.expiresAt - s.ttl);
    assert s.stores[k].at <= s.clock;
  }

  lemma {:induction false} Reachable(run: seq<State>, acts: seq<Action>, n: nat)
    requires IsRun(run, acts) && Init(run[0]) && n < |run|
    ensures Inv(run[n]) && run[n].ttl == run[0].ttl && |run[n].threads| == |run[0].threads|
  {
    hide Apply, Enabled;
    if n > 0 {
      Reachable(run, acts, n - 1);
      InvStep(run[n - 1], acts[n - 1]);
      Grows(run[n - 1], acts[n - 1]);
    }
  }

  /** Every hit returns, unchanged, a rate the provider answered for that very pair, and which was
      stored less than one TTL before. */
  lemma HitsAreFresh(run: seq<State>, acts: seq<Action>, n: nat, i: nat)
    requires IsRun(run, acts) && Init(run[0]) && n < |run| && i < |run[n].hits|
    ensures var s, h := run[n], run[n].hits[i];
      && (exists k :: 0 <= k < |s.answers| && s.answers[k] == Heard(h.pair, h.rate))
      && (exists k :: 0 <= k < |s.stores| && s.stores[k].key == h.pair.ToString() && s.stores[k].rate == h.rate
            && s.stores[k].at <= h.at < s.stores[k].at + s.ttl)
  {
    hide Apply, Enabled, Init;
    Reachable(run, acts, n);
    var s, h := run[n], run[n].hits[i];
    assert HitOk(s, h);
    var k :| 0 <= k < |s.stores| && s.stores[k].key == h.pair.ToString() && s.stores[k].rate == h.rate
      && s.stores[k].at <= h.at < s.stores[k].at + s.ttl;
    assert Produced(s.answers, s.stores[k].key, s.stores[k].rate);
    var j :| 0 <= j < |s.answers| && IsAnswer(s.answers[j], h.pair.ToString(), h.rate);
    ToStringInjective(s.answers[j].pair, h.pair);
  }

  // ---------- how long a value lasts ----------

  /** A key's expiry is at least this instant. */
  predicate LastsUntil(s: State, key: string, until: int) {
    key in s.entries && s.entries[key].expiresAt >= until
  }

  lemma LastsStep(s: State, a: Action, key: string, until: int)
    requires Enabled(s, a) && LastsUntil(s, key, until) && until <= s.clock + s.ttl
    ensures LastsUntil(Apply(s, a), key, until)
  {
    hide ValidPair;
  }

  /** Once a value is stored for a pair at time t, the entry outlives every instant before t + TTL:
      overwrites only extend it. */
  lemma {:induction false} LastsForTtl(run: seq<State>, acts: seq<Action>, i: nat, j: nat, key: string)
    requires IsRun(run, acts) && i < j < |run|
    requires acts[i].Store? && key == run[i].threads[acts[i].w].pair.ToString()
    ensures LastsUntil(run[j], key, run[i].clock + run[i].ttl)
    ensures run[i].clock <= run[j].clock && run[j].ttl == run[i].ttl
    decreases j
  {
    hide Apply, ValidPair;
    if j == i + 1 {
      StoreLasts(run[i], acts[i]);
      Grows(run[i], acts[i]);
    } else {
      LastsForTtl(run, acts, i, j - 1, key);
      LastsStep(run[j - 1], acts[j - 1], key, run[i].clock + run[i].ttl);
      Grows(run[j - 1], acts[j - 1]);
    }
  }

  lemma StoreLasts(s: State, a: Action)
    requires Enabled(s, a) && a.Store?
    ensures LastsUntil(Apply(s, a), s.threads[a.w].pair.ToString(), s.clock + s.ttl)
  {
  }

  /** Hence every lookup of the pair in [t, t + TTL) is a hit. */
  lemma LookupsHit(run: seq<State>, acts: seq<Action>, i: nat, j: nat)
    requires IsRun(run, acts) && i < j < |acts|
    requires acts[i].Store? && acts[j].Lookup? && acts[j].pair == run[i].threads[acts[i].w].pair
    requires run[j].clock < run[i].clock + run[i].ttl
    ensures |run[j + 1].hits| == |run[j].hits| + 1 && run[j + 1].threads == run[j].threads
  {
    LastsForTtl(run, acts, i, j, acts[j].pair.ToString());
  }

  // ---------- how many stores a TTL sees ----------

  /** A call for the key that is past its lookup. */
  predicate Past(t: Thread, key: string) {
    !t.Free? && t.pair.ToString() == key
  }

  function CountPast(threads: seq<Thread>, key: string): nat {
    if threads == [] then 0 else (if Past(threads[0], key) then 1 else 0) + CountPast(threads[1..], key)
  }

  lemma {:induction false} CountUpdate(threads: seq<Thread>, w: nat, t: Thread, key: string)
    requires w < |threads|
    ensures CountPast(threads[w := t], key) + (if Past(threads[w], key) then 1 else 0)
      == CountPast(threads, key) + (if Past(t, key) then 1 else 0)
  {
    hide Past;
    var changed := threads[w := t];
    if w == 0 {
      assert changed[1..] == threads[1..];
    } else {
      CountUpdate(threads[1..], w - 1, t, key);
      assert changed[1..] == threads[1..][w - 1 := t] && changed[0] == threads[0];
    }
  }

  lemma {:induction false} CountBound(threads: seq<Thread>, key: string)
    ensures CountPast(threads, key) <= |threads|
    ensures (exists w :: 0 <= w < |threads| && threads[w].Free?) ==> CountPast(threads, key) < |threads|
  {
    if threads != [] {
      CountBound(threads[1..], key);
      if exists w :: 0 <= w < |threads| && threads[w].Free? {
        var w :| 0 <= w < |threads| && threads[w].Free?;
        assert w > 0 ==> threads[1..][w - 1].Free?;
      }
    }
  }

  /** Stores for the key among the steps from i up to j. */
  function StoresFor(run: seq<State>, acts: seq<Action>, i: nat, j: nat, key: string): nat
    requires IsRun(run, acts) && i <= j < |run|
    decreases j
  {
    if i == j then 0
    else
      var a := acts[j - 1];
      assert Enabled(run[j - 1], a);
      StoresFor(run, acts, i, j - 1, key)
      + if a.Store? && run[j - 1].threads[a.w].pair.ToString() == key then 1 else 0
  }

  /** While the key stays fresh, each store uses up a call that was already past its lookup. */
  lemma PastStep(s: State, a: Action, key: string)
    requires Enabled(s, a) && LastsUntil(s, key, s.clock + 1)
    ensures CountPast(Apply(s, a).threads, key) + (if a.Store? && s.threads[a.w].pair.ToString() == key then 1 else 0)
      <= CountPast(s.threads, key)
  {
    hide CountPast, ValidPair;
    var t := Apply(s, a);
    match a {
      case Tick(_) =>
      case Lookup(w, pair) => CountUpdate(s.threads, w, t.threads[w], key);
      case Answer(w, _) => CountUpdate(s.threads, w, t.threads[w], key);
      case Store(w) => CountUpdate(s.threads, w, t.threads[w], key);
    }
    if a.Lookup? && t.threads == s.threads {
      assert s.threads[a.w := s.threads[a.w]] == s.threads;
    }
  }

  lemma {:induction false} StoresUsePast(run: seq<State>, acts: seq<Action>, i: nat, j: nat, key: string)
    requires IsRun(run, acts) && i < j < |run|
    requires acts[i].Store? && key == run[i].threads[acts[i].w].pair.ToString()
    requires forall k :: i < k < j ==> run[k].clock < run[i].clock + run[i].ttl
    ensures StoresFor(run, acts, i + 1, j, key) + CountPast(run[j].threads, key) <= CountPast(run[i + 1].threads, key)
    decreases j
  {
    hide Apply, CountPast, ValidPair;
    if j > i + 1 {
      StoresUsePast(run, acts, i, j - 1, key);
      LastsForTtl(run, acts, i, j - 1, key);
      PastStep(run[j - 1], acts[j - 1], key);
    }
  }

  /** With W callers at most W - 1 more stores for the pair happen before the TTL is over, all by
      calls that were past their lookup when the value was stored. */
  lemma StoresPerTtl(run: seq<State>, acts: seq<Action>, i: nat, j: nat, key: string)
    requires IsRun(run, acts) && i < j < |run|
    requires acts[i].Store? && key == run[i].threads[acts[i].w].pair.ToString()
    requires forall k :: i < k < j ==> run[k].clock < run[i].clock + run[i].ttl
    ensures StoresFor(run, acts, i + 1, j, key) <= CountPast(run[i + 1].threads, key) <= |run[i].threads| - 1
  {
    hide CountPast, ValidPair, StoresFor;
    StoresUsePast(run, acts, i, j, key);
    assert run[i + 1].threads[acts[i].w].Free?;
    CountBound(run[i + 1].threads, key);
  }
}
