/** The spare provider behind the main one (internal/rates/fallback/fallback.go), each with its own
    retry layer as wired in cmd/server/main.go:82-97. */
module Fallback {
  import opened Wrappers
  import opened Rates
  import opened Resilient
  import opened RateSpec

  /** What one call through the fallback did: the main stack's report, and the spare's if it was
      asked. */
  datatype Trace = Trace(result: Result<Rate, Err>, primary: Report, secondary: Option<Report>)

  /** `cancelled`: whether the context ended between the two calls. */
  function RunFallback(o: Options, spare: Option<Options>, env: seq<Env>, spareEnv: seq<Env>,
                       log: seq<nat>, spareLog: seq<nat>, done: bool, cancelled: bool): Trace
    requires Usable(o) && |env| >= o.maxAttempts
    requires spare.Some? ==> Usable(spare.value) && |spareEnv| >= spare.value.maxAttempts
  {
    var r := RunRate(o, env, 1, Start(log, done));
    if r.result.Success? || spare.None? || r.done || cancelled then Trace(r.result, r, None)
    else
      var r2 := RunRate(spare.value, spareEnv, 1, Start(spareLog, r.done));
      Trace(if r2.result.Success? then r2.result else r.result, r, Some(r2))
  }

  function LateIn(t: Trace): nat {
    LateCalls(t.primary.trace) + if t.secondary.Some? then LateCalls(t.secondary.value.trace) else 0
  }

  /** The spare is asked only after the main stack failed with the context alive, and exactly then
      when there is one; each provider gets at most MaxAttempts calls, at most one call in all
      starts after the context is done; if both fail the main error is the one returned. */
  lemma FallbackBudget(o: Options, spare: Option<Options>, env: seq<Env>, spareEnv: seq<Env>,
                       log: seq<nat>, spareLog: seq<nat>, done: bool, cancelled: bool)
    requires Usable(o) && |env| >= o.maxAttempts
    requires spare.Some? ==> Usable(spare.value) && |spareEnv| >= spare.value.maxAttempts
    ensures var t := RunFallback(o, spare, env, spareEnv, log, spareLog, done, cancelled);
      && |Calls(t.primary.trace)| <= o.maxAttempts
      && (t.secondary.Some? ==> |Calls(t.secondary.value.trace)| <= spare.value.maxAttempts)
      && (t.secondary.Some? <==> spare.Some? && t.primary.result.Failure? && !t.primary.done && !cancelled)
      && LateIn(t) <= 1
      && (t.result.Success? <==> t.primary.result.Success? || (t.secondary.Some? && t.secondary.value.result.Success?))
      && (t.result.Failure? ==> t.result == t.primary.result)
      && (t.result.Success? ==>
            EndsWith((if t.primary.result.Success? then t.primary else t.secondary.value).trace, t.result))
  {
    hide RunRate;
    RateBudget(o, env, log, done);
    if spare.Some? {
      RateBudget(spare.value, spareEnv, spareLog, false);
    }
  }

  /** Both layers run as specified, the main one on the caller's context and the spare on a live one, and
      the main answer counts unless only the spare succeeded. */
  lemma FallbackExactly(o: Options, spare: Option<Options>, env: seq<Env>, spareEnv: seq<Env>,
                        log: seq<nat>, spareLog: seq<nat>, done: bool, cancelled: bool)
      returns (last: nat, spareLast: nat)
    requires Usable(o) && |env| >= o.maxAttempts
    requires spare.Some? ==> Usable(spare.value) && |spareEnv| >= spare.value.maxAttempts
    ensures var t := RunFallback(o, spare, env, spareEnv, log, spareLog, done, cancelled);
      && IsRunOf(o, env, log, done, last, t.primary)
      && (t.secondary.Some? <==> spare.Some? && t.primary.result.Failure? && !t.primary.done && !cancelled)
      && (t.secondary.Some? ==> IsRunOf(spare.value, spareEnv, spareLog, false, spareLast, t.secondary.value))
      && t.result == if t.primary.result.Failure? && t.secondary.Some? && t.secondary.value.result.Success?
                     then t.secondary.value.result else t.primary.result
  {
    hide RunRate, IsRunOf;
    last := RunExactly(o, env, log, done);
    spareLast := 0;
    if spare.Some? {
      spareLast := RunExactly(spare.value, spareEnv, spareLog, false);
    }
  }

  /** The context of this layer stays alive up to its first stopping attempt. */
  ghost predicate LiveUpTo(o: Options, env: seq<Env>, k: nat) {
    IsFirstStop(env, o.maxAttempts, k) && forall i :: 0 <= i < k ==> Live(env[i])
  }

  /** On a live context: the main provider is called up to its first stopping attempt; a success there
      is the answer and the spare is left alone; after a failure the spare, if there is one, is called
      up to its own first stopping attempt, whose success is the answer. */
  lemma LiveFallback(o: Options, spare: Option<Options>, env: seq<Env>, spareEnv: seq<Env>,
                     log: seq<nat>, spareLog: seq<nat>, k: nat, k2: nat)
    requires Usable(o) && |env| >= o.maxAttempts && LiveUpTo(o, env, k)
    requires spare.Some? ==> Usable(spare.value) && |spareEnv| >= spare.value.maxAttempts
    requires spare.Some? ==> LiveUpTo(spare.value, spareEnv, k2)
    ensures var t := RunFallback(o, spare, env, spareEnv, log, spareLog, false, false);
      && IsLiveTrace(o, env, k, t.primary.trace)
      && (t.secondary.Some? <==> env[k - 1].outcome.Failure? && spare.Some?)
      && (t.secondary.Some? ==> IsLiveTrace(spare.value, spareEnv, k2, t.secondary.value.trace))
      && t.result == if t.secondary.Some? && spareEnv[k2 - 1].outcome.Success? then spareEnv[k2 - 1].outcome
                     else env[k - 1].outcome
  {
    hide RunRate, IsLiveTrace;
    LiveRun(o, env, log, k);
    if spare.Some? {
      LiveRun(spare.value, spareEnv, spareLog, k2);
    }
  }

  class Fallback {
    const primary: Resilient
    const secondary: Resilient?

    /** Two separate retry layers, hence two separate rate limits. */
    ghost predicate Valid()
      reads this, primary, secondary
    {
      && primary.Valid()
      && (secondary != null ==> secondary != primary && secondary.Valid())
    }

    constructor (primary: Resilient, secondary: Resilient?)
      requires primary.Valid() && (secondary != null ==> secondary != primary && secondary.Valid())
      ensures Valid() && this.primary == primary && this.secondary == secondary
    {
      this.primary, this.secondary := primary, secondary;
    }

    ghost function SpareOptions(): Option<Options> {
      if secondary == null then None else Some(secondary.opts)
    }

    ghost function SpareLog(): seq<nat>
      reads secondary
    {
      if secondary == null then [] else secondary.log
    }

    method Rate(env: seq<Env>, spareEnv: seq<Env>, done: bool, cancelled: bool) returns (t: Trace)
      requires Valid() && |env| >= primary.opts.maxAttempts
      requires secondary != null ==> |spareEnv| >= secondary.opts.maxAttempts
      modifies primary, secondary
      ensures Valid()
      ensures Logged(t, primary.log, SpareLog())
        == RunFallback(primary.opts, SpareOptions(), env, spareEnv, old(primary.log), old(SpareLog()), done, cancelled)
      ensures t.secondary.None? ==> SpareLog() == old(SpareLog())
    {
      hide RunRate;
      var r := primary.Rate(env, done);
      if r.result.Success? || secondary == null || r.done || cancelled {
        return Trace(r.result, r, None);
      }
      var r2 := secondary.Rate(spareEnv, r.done);
      if r2.result.Success? {
        return Trace(r2.result, r, Some(r2));
      }
      return Trace(r.result, r, Some(r2));
    }
  }

  /** The trace with the reservation logs, which only exist in proofs, filled in. */
  ghost function Logged(t: Trace, log: seq<nat>, spareLog: seq<nat>): Trace {
    Trace(t.result, t.primary.(log := log),
          if t.secondary.Some? then Some(t.secondary.value.(log := spareLog)) else None)
  }
}
