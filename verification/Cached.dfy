/** The TTL cache in front of the providers (internal/rates/cached/cached.go): the object, and the
    whole stack of cmd/server/main.go:82-106 behind it. CacheRuns.dfy interleaves many callers. */
module Cached {
  import opened Wrappers
  import opened Domain
  import opened Rates
  import opened Resilient
  import opened RateSpec
  import opened Fallback

  datatype Entry = Entry(rate: Rate, expiresAt: int)

  /** A value stored by some goroutine at some instant. */
  datatype Stored = Stored(key: string, rate: Rate, at: int)

  function Fresh(entries: map<string, Entry>, key: string, now: int): Option<Rate> {
    if key in entries && now < entries[key].expiresAt then Some(entries[key].rate) else None
  }

  function StoreEntry(entries: map<string, Entry>, ttl: int, s: Stored): map<string, Entry> {
    entries[s.key := Entry(s.rate, s.at + ttl)]
  }

  function StoreAll(entries: map<string, Entry>, ttl: int, stores: seq<Stored>): map<string, Entry> {
    if stores == [] then entries
    else StoreEntry(StoreAll(entries, ttl, stores[..|stores| - 1]), ttl, stores[|stores| - 1])
  }

  /** What surrounds one call: the clock at the lookup and at the store, the inner call's script,
      and the stores of other goroutines while the lock is free. */
  datatype Scene = Scene(
    lookupAt: int, storeAt: int, env: seq<Env>, spareEnv: seq<Env>, done: bool, cancelled: bool, others: seq<Stored>)

  /** The answer, and the inner call's trace unless the cache answered. */
  datatype Served = Served(result: Result<Rate, Err>, inner: Option<Trace>)

  /** The provider stack behind the cache: options and reservation logs of its retry layers. */
  datatype Stack = Stack(o: Options, spare: Option<Options>, log: seq<nat>, spareLog: seq<nat>)

  ghost predicate Runnable(st: Stack, sc: Scene) {
    && Usable(st.o) && |sc.env| >= st.o.maxAttempts
    && (st.spare.Some? ==> Usable(st.spare.value) && |sc.spareEnv| >= st.spare.value.maxAttempts)
  }

  function RunInner(st: Stack, sc: Scene): Trace
    requires Runnable(st, sc)
  {
    RunFallback(st.o, st.spare, sc.env, sc.spareEnv, st.log, st.spareLog, sc.done, sc.cancelled)
  }

  /** One call of the whole stack: the answer and the entries afterwards. */
  function RunStack(entries: map<string, Entry>, ttl: int, st: Stack, pair: Pair, sc: Scene)
      : (Served, map<string, Entry>)
    requires Runnable(st, sc)
  {
    var key := pair.ToString();
    var hit := if ttl > 0 then Fresh(entries, key, sc.lookupAt) else None;
    if hit.Some? then (Served(Success(hit.value), None), entries)
    else
      var t := RunInner(st, sc);
      var before := if ttl > 0 then StoreAll(entries, ttl, sc.others) else entries;
      (Served(t.result, Some(t)),
        if ttl > 0 && t.result.Success? then StoreEntry(before, ttl, Stored(key, t.result.value, sc.storeAt))
        else before)
  }

  /** The budget of one request, whatever the providers, the clock, the other goroutines and the
      context do. A hit calls no provider, reserves no slot and touches no entry. Otherwise each
      provider is called at most MaxAttempts times; at most one call in all starts after the
      context is done; the spare is asked only after the main stack failed with the context alive;
      if both fail the main error is returned and this request stores nothing. */
  lemma StackBudget(entries: map<string, Entry>, ttl: int, st: Stack, pair: Pair, sc: Scene)
    requires Runnable(st, sc)
    ensures var (s, after) := RunStack(entries, ttl, st, pair, sc);
      && (s.inner.None? <==> ttl > 0 && pair.ToString() in entries && sc.lookupAt < entries[pair.ToString()].expiresAt)
      && (s.inner.None? ==> after == entries && s.result == Success(entries[pair.ToString()].rate))
      && (s.inner.Some? ==> |Calls(s.inner.value.primary.trace)| <= st.o.maxAttempts && LateIn(s.inner.value) <= 1)
      && (s.inner.Some? && s.inner.value.secondary.Some? ==>
            st.spare.Some? && |Calls(s.inner.value.secondary.value.trace)| <= st.spare.value.maxAttempts
            && s.inner.value.primary.result.Failure? && !s.inner.value.primary.done)
      && (s.result.Failure? ==> s.inner.Some? && s.result == s.inner.value.primary.result)
      && (s.result.Failure? ==> after == if ttl > 0 then StoreAll(entries, ttl, sc.others) else entries)
      && (s.inner.Some? && s.result.Success? ==>
            after == if ttl > 0
                     then StoreAll(entries, ttl, sc.others)[pair.ToString() := Entry(s.result.value, sc.storeAt + ttl)]
                     else entries)
  {
    hide RunFallback;
    FallbackBudget(st.o, st.spare, sc.env, sc.spareEnv, st.log, st.spareLog, sc.done, sc.cancelled);
  }

  /** Store `k` is the last for the key, and its value is what the key has. */
  ghost predicate LastStore(ttl: int, stores: seq<Stored>, key: string, after: map<string, Entry>, k: nat) {
    && k < |stores| && stores[k].key == key && (forall j :: k < j < |stores| ==> stores[j].key != key)
    && key in after && after[key] == Entry(stores[k].rate, stores[k].at + ttl)
  }

  ghost predicate NotStored(stores: seq<Stored>, key: string, before: map<string, Entry>, after: map<string, Entry>) {
    && (forall k :: 0 <= k < |stores| ==> stores[k].key != key)
    && (key in after <==> key in before) && (key in before ==> after[key] == before[key])
  }

  /** What stores of others leave behind: each key has its last store, with its own expiry, or what it
      had before if there is none. */
  lemma {:induction false} StoresExactly(entries: map<string, Entry>, ttl: int, stores: seq<Stored>, key: string)
    ensures var after := StoreAll(entries, ttl, stores);
      NotStored(stores, key, entries, after) || exists k :: LastStore(ttl, stores, key, after, k)
    decreases |stores|
  {
    if stores != [] {
      var last := |stores| - 1;
      var before, after := StoreAll(entries, ttl, stores[..last]), StoreAll(entries, ttl, stores);
      if stores[last].key == key {
        assert LastStore(ttl, stores, key, after, last);
      } else {
        StoresExactly(entries, ttl, stores[..last], key);
        if k :| LastStore(ttl, stores[..last], key, before, k) {
          assert LastStore(ttl, stores, key, after, k);
        }
      }
    }
  }

  /** A call that does not hit runs the providers behind the cache as specified, the main one on the
      caller's own context. */
  lemma MissExactly(entries: map<string, Entry>, ttl: int, st: Stack, pair: Pair, sc: Scene)
      returns (last: nat, spareLast: nat)
    requires Runnable(st, sc)
    ensures var s := RunStack(entries, ttl, st, pair, sc).0;
      s.inner.Some? ==>
        var t := s.inner.value;
        && s.result == t.result && IsRunOf(st.o, sc.env, st.log, sc.done, last, t.primary)
        && (t.secondary.Some? <==> st.spare.Some? && t.primary.result.Failure? && !t.primary.done && !sc.cancelled)
        && (t.secondary.Some? ==>
              IsRunOf(st.spare.value, sc.spareEnv, st.spareLog, false, spareLast, t.secondary.value))
        && t.result == if t.primary.result.Failure? && t.secondary.Some? && t.secondary.value.result.Success?
                       then t.secondary.value.result else t.primary.result
  {
    hide RunFallback, IsRunOf;
    last, spareLast :=
      FallbackExactly(st.o, st.spare, sc.env, sc.spareEnv, st.log, st.spareLog, sc.done, sc.cancelled);
  }

  /** A request that finds nothing fresh, on a live context: the answer of the first stopping attempt of
      the main provider, or of the spare if that one fails. */
  lemma LiveMiss(entries: map<string, Entry>, ttl: int, st: Stack, pair: Pair, sc: Scene, k: nat, k2: nat)
    requires Runnable(st, sc) && !sc.done && !sc.cancelled
    requires LiveUpTo(st.o, sc.env, k) && (st.spare.Some? ==> LiveUpTo(st.spare.value, sc.spareEnv, k2))
    requires ttl <= 0 || Fresh(entries, pair.ToString(), sc.lookupAt).None?
    ensures var s := RunStack(entries, ttl, st, pair, sc).0;
      && s.inner.Some? && IsLiveTrace(st.o, sc.env, k, s.inner.value.primary.trace)
      && (s.inner.value.secondary.Some? <==> sc.env[k - 1].outcome.Failure? && st.spare.Some?)
      && (s.inner.value.secondary.Some? ==>
            IsLiveTrace(st.spare.value, sc.spareEnv, k2, s.inner.value.secondary.value.trace))
      && s.result == if s.inner.value.secondary.Some? && sc.spareEnv[k2 - 1].outcome.Success?
                     then sc.spareEnv[k2 - 1].outcome else sc.env[k - 1].outcome
  {
    hide RunFallback, IsLiveTrace, LiveUpTo;
    LiveFallback(st.o, st.spare, sc.env, sc.spareEnv, st.log, st.spareLog, k, k2);
    Stop(st.o, sc.env, k);
    if st.spare.Some? {
      Stop(st.spare.value, sc.spareEnv, k2);
    }
  }

  lemma Stop(o: Options, env: seq<Env>, k: nat)
    requires LiveUpTo(o, env, k)
    ensures 1 <= k <= |env|
  {
  }

  class Cache {
    const inner: Fallback
    const ttl: int
    var entries: map<string, Entry>

    constructor (inner: Fallback, ttl: int)
      ensures this.inner == inner && this.ttl == ttl && entries == map[]
    {
      this.inner, this.ttl, entries := inner, ttl, map[];
    }

    /** Stores by other goroutines. */
    method Interfere(stores: seq<Stored>)
      modifies this`entries
      ensures entries == StoreAll(old(entries), ttl, stores)
    {
      var k := 0;
      while k < |stores|
        invariant 0 <= k <= |stores| && entries == StoreAll(old(entries), ttl, stores[..k])
      {
        entries := entries[stores[k].key := Entry(stores[k].rate, stores[k].at + ttl)];
        assert stores[..k + 1][..k] == stores[..k];
        k := k + 1;
      }
      assert stores[..|stores|] == stores;
    }

    ghost predicate Valid()
      reads this, inner, inner.primary, inner.secondary
    {
      inner.Valid()
    }

    /** The options and reservation logs of the layers behind the cache. */
    ghost function Behind(): Stack
      reads this, inner, inner.primary, inner.secondary
    {
      Stack(inner.primary.opts, inner.SpareOptions(), inner.primary.log, inner.SpareLog())
    }

    /** A fresh entry answers and nothing else happens. Otherwise the inner stack is run once; a
        success is stored under the pair, an error is passed on and stores nothing. */
    method Rate(pair: Pair, sc: Scene) returns (s: Served)
      requires Valid() && Runnable(Behind(), sc)
      modifies this`entries, inner.primary, inner.secondary
      ensures Valid()
      ensures (WithLogs(s, Behind()), entries) == RunStack(old(entries), ttl, old(Behind()), pair, sc)
      ensures s.inner.None? ==> Behind() == old(Behind())
    {
      hide RunFallback;
      if ttl <= 0 {
        var t := inner.Rate(sc.env, sc.spareEnv, sc.done, sc.cancelled);
        return Served(t.result, Some(t));
      }
      var key := pair.ToString();
      if key in entries && sc.lookupAt < entries[key].expiresAt {
        return Served(Success(entries[key].rate), None);
      }
      var t := inner.Rate(sc.env, sc.spareEnv, sc.done, sc.cancelled);
      Interfere(sc.others);
      if t.result.Failure? {
        return Served(t.result, Some(t));
      }
      entries := entries[key := Entry(t.result.value, sc.storeAt + ttl)];
      return Served(t.result, Some(t));
    }
  }

  /** The answer with the reservation logs, which only exist in proofs, filled in. */
  ghost function WithLogs(s: Served, st: Stack): Served {
    Served(s.result, if s.inner.Some? then Some(Logged(s.inner.value, st.log, st.spareLog)) else None)
  }
}
