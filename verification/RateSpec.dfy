/** What the retry loop does on any context, event by event and without the loop
    (internal/rates/resilient/resilient.go:58-157). */
module RateSpec {
  import opened Wrappers
  import opened Backoff
  import opened Rates
  import opened Resilient

  // ---------- when the context is done ----------

  predicate AnyCancel(e: Env) {
    e.cancelInGate || e.cancelBeforeCall || e.cancelInCall || e.cancelInSleep
  }

  /** The context is done before attempt `i` (counted from 0) reaches its gate, and so on through it. */
  ghost predicate DeadBefore(env: seq<Env>, done: bool, i: nat)
    requires i <= |env|
  {
    done || exists j :: 0 <= j < i && AnyCancel(env[j])
  }

  ghost predicate DeadInGate(env: seq<Env>, done: bool, i: nat)
    requires i < |env|
  {
    DeadBefore(env, done, i) || env[i].cancelInGate
  }

  ghost predicate DeadAtCall(env: seq<Env>, done: bool, i: nat)
    requires i < |env|
  {
    DeadInGate(env, done, i) || env[i].cancelBeforeCall
  }

  ghost predicate DeadAfterCall(env: seq<Env>, done: bool, i: nat)
    requires i < |env|
  {
    DeadAtCall(env, done, i) || env[i].cancelInCall
  }

  ghost predicate DeadInSleep(env: seq<Env>, done: bool, i: nat)
    requires i < |env|
  {
    DeadAfterCall(env, done, i) || env[i].cancelInSleep
  }

  // ---------- the events ----------

  /** The reservations when attempt `i` reaches its gate: those before the run, and those of the others
      and of this call at every gate so far. */
  function Readings(o: Options, log: seq<nat>, env: seq<Env>, i: nat): seq<nat>
    requires i <= |env|
  {
    if i == 0 || o.minInterval == 0 then log
    else Readings(o, log, env, i - 1) + env[i - 1].others + [env[i - 1].now]
  }

  /** The slot of attempt `i`: that of the closed form, or the present without rate limit. */
  ghost predicate SlotIs(o: Options, log: seq<nat>, env: seq<Env>, i: nat, slot: nat)
    requires i < |env|
  {
    if o.minInterval == 0 then slot == env[i].now
    else
      var all := Readings(o, log, env, i + 1);
      all != [] && IsSlot(all, o.minInterval, |all| - 1, slot)
  }

  /** The gate opens to a live context, or to a timer that wins the race if there is one to wait for. */
  ghost predicate GateOk(o: Options, log: seq<nat>, env: seq<Env>, done: bool, i: nat, event: Event)
    requires i < |env|
  {
    && event.Gated? && SlotIs(o, log, env, i, event.slot)
    && (event.open <==> !DeadInGate(env, done, i) || (event.slot > env[i].now && env[i].gateTimer))
  }

  /** Behind an open gate comes one call, not before the slot, and late if the context is done. */
  ghost predicate CallOk(env: seq<Env>, done: bool, i: nat, gate: Event, event: Event)
    requires i < |env| && gate.Gated?
  {
    gate.open && event == Called(gate.slot + env[i].lag, DeadAtCall(env, done, i), env[i].outcome)
  }

  /** After a retryable failure, with the context alive and attempts left, comes the prescribed sleep. */
  ghost predicate SleepOk(o: Options, env: seq<Env>, done: bool, i: nat, event: Event)
    requires i < |env|
  {
    && i + 1 < o.maxAttempts && !DeadAfterCall(env, done, i) && !Stops(env[i].outcome)
    && IsSleep(o, env[i], i + 1, event)
  }

  /** After the sleep the next attempt follows if the context is alive or the timer wins. */
  ghost predicate GoesOn(env: seq<Env>, done: bool, i: nat, sleep: Event)
    requires i < |env| && sleep.Slept?
  {
    !DeadInSleep(env, done, i) || (sleep.delay > 0 && env[i].sleepTimer)
  }

  /** Attempt `i` in full: gate, call, sleep, and on. */
  ghost predicate WholeAttempt(o: Options, log: seq<nat>, env: seq<Env>, done: bool, i: nat, trace: seq<Event>)
    requires i < |env|
  {
    && 3 * i + 3 <= |trace|
    && GateOk(o, log, env, done, i, trace[3 * i])
    && CallOk(env, done, i, trace[3 * i], trace[3 * i + 1])
    && SleepOk(o, env, done, i, trace[3 * i + 2])
    && GoesOn(env, done, i, trace[3 * i + 2])
  }

  /** Attempt `i` is the last, and the run ends in it: at a gate that stays shut, with the context's
      error; at a call whose outcome is final, with that outcome; or in a sleep, with the context's
      error. */
  ghost predicate LastAttempt(o: Options, log: seq<nat>, env: seq<Env>, done: bool, i: nat, r: Report)
    requires i < |env|
  {
    var n := |r.trace|;
    && 3 * i + 1 <= n <= 3 * i + 3 && GateOk(o, log, env, done, i, r.trace[3 * i])
    && (n == 3 * i + 1 ==>
          !r.trace[3 * i].open && r.result == Failure(CtxErr) && r.done == DeadInGate(env, done, i))
    && (n >= 3 * i + 2 ==> CallOk(env, done, i, r.trace[3 * i], r.trace[3 * i + 1]))
    && (n == 3 * i + 2 ==>
          && (Stops(env[i].outcome) || DeadAfterCall(env, done, i) || i + 1 == o.maxAttempts)
          && r.result == env[i].outcome && r.done == DeadAfterCall(env, done, i))
    && (n == 3 * i + 3 ==>
          && SleepOk(o, env, done, i, r.trace[3 * i + 2]) && !GoesOn(env, done, i, r.trace[3 * i + 2])
          && r.result == Failure(CtxErr) && r.done == DeadInSleep(env, done, i))
  }

  /** The run makes attempts 0 to `last`, all but the last in full. */
  ghost predicate IsRunOf(o: Options, env: seq<Env>, log: seq<nat>, done: bool, last: nat, r: Report) {
    && last < o.maxAttempts <= |env|
    && (forall i: nat :: i < last ==> WholeAttempt(o, log, env, done, i, r.trace))
    && LastAttempt(o, log, env, done, last, r)
    && r.log == Readings(o, log, env, last + 1) && !r.fell
  }

  // ---------- the loop does exactly this ----------

  /** The loop stands before attempt `i`. */
  ghost predicate Reached(o: Options, env: seq<Env>, log: seq<nat>, done: bool, i: nat, acc: Report)
    requires i < o.maxAttempts <= |env|
  {
    && |acc.trace| == 3 * i && (acc.done <==> DeadBefore(env, done, i))
    && acc.log == Readings(o, log, env, i) && !acc.fell
    && forall j: nat :: j < i ==> WholeAttempt(o, log, env, done, j, acc.trace)
  }

  lemma AttemptStays(o: Options, log: seq<nat>, env: seq<Env>, done: bool, i: nat, trace: seq<Event>, more: seq<Event>)
    requires i < |env| && WholeAttempt(o, log, env, done, i, trace) && trace <= more
    ensures WholeAttempt(o, log, env, done, i, more)
  {
    hide GateOk, CallOk, SleepOk, GoesOn;
    assert more[3 * i] == trace[3 * i] && more[3 * i + 1] == trace[3 * i + 1] && more[3 * i + 2] == trace[3 * i + 2];
  }

  lemma DeadNext(env: seq<Env>, done: bool, i: nat)
    requires i < |env|
    ensures DeadBefore(env, done, i + 1) <==> DeadInSleep(env, done, i)
  {
  }

  lemma GateIsOk(o: Options, env: seq<Env>, log: seq<nat>, done: bool, i: nat, acc: Report)
    requires i < o.maxAttempts <= |env| && Reached(o, env, log, done, i, acc)
    ensures var gated := AfterGate(o, env[i], acc);
      && GateOk(o, log, env, done, i, gated.trace[3 * i])
      && gated.log == Readings(o, log, env, i + 1) && gated.done == DeadInGate(env, done, i)
  {
    hide NextAfter, DeadBefore, WholeAttempt;
    var e := env[i];
    if o.minInterval > 0 {
      var all := acc.log + e.others + [e.now];
      var last := |all| - 1;
      assert all == Readings(o, log, env, i + 1);
      assert all[..last] == acc.log + e.others && all[last] == e.now;
      SlotClosedForm(all, o.minInterval, last);
    }
  }

  /** What every ending shares: the attempts before `i` are whole and the log is up to date. */
  ghost predicate Ending(o: Options, env: seq<Env>, log: seq<nat>, done: bool, i: nat, r: Report)
    requires i < o.maxAttempts <= |env|
  {
    && |r.trace| >= 3 * i + 1 && GateOk(o, log, env, done, i, r.trace[3 * i])
    && (forall j: nat :: j < i ==> WholeAttempt(o, log, env, done, j, r.trace))
    && r.log == Readings(o, log, env, i + 1) && !r.fell
  }

  lemma EndsAtGate(o: Options, env: seq<Env>, log: seq<nat>, done: bool, i: nat, r: Report)
    requires i < o.maxAttempts <= |env| && Ending(o, env, log, done, i, r) && |r.trace| == 3 * i + 1
    requires !r.trace[3 * i].open && r.result == Failure(CtxErr) && r.done == DeadInGate(env, done, i)
    ensures IsRunOf(o, env, log, done, i, r)
  {
    hide GateOk, WholeAttempt, Readings, DeadInGate, CallOk, SleepOk;
  }

  lemma EndsAtCall(o: Options, env: seq<Env>, log: seq<nat>, done: bool, i: nat, r: Report)
    requires i < o.maxAttempts <= |env| && Ending(o, env, log, done, i, r) && |r.trace| == 3 * i + 2
    requires r.trace[3 * i].Gated? && CallOk(env, done, i, r.trace[3 * i], r.trace[3 * i + 1])
    requires Stops(env[i].outcome) || DeadAfterCall(env, done, i) || i + 1 == o.maxAttempts
    requires r.result == env[i].outcome && r.done == DeadAfterCall(env, done, i)
    ensures IsRunOf(o, env, log, done, i, r)
  {
    hide GateOk, WholeAttempt, Readings, DeadAfterCall, CallOk, SleepOk;
  }

  lemma EndsInSleep(o: Options, env: seq<Env>, log: seq<nat>, done: bool, i: nat, r: Report)
    requires i < o.maxAttempts <= |env| && Ending(o, env, log, done, i, r) && |r.trace| == 3 * i + 3
    requires r.trace[3 * i].Gated? && CallOk(env, done, i, r.trace[3 * i], r.trace[3 * i + 1])
    requires r.trace[3 * i + 2].Slept? && SleepOk(o, env, done, i, r.trace[3 * i + 2])
    requires !GoesOn(env, done, i, r.trace[3 * i + 2])
    requires r.result == Failure(CtxErr) && r.done == DeadInSleep(env, done, i)
    ensures IsRunOf(o, env, log, done, i, r)
  {
    hide GateOk, WholeAttempt, Readings, DeadInSleep, CallOk, SleepOk, GoesOn;
  }

  lemma {:induction false} RunsFrom(o: Options, env: seq<Env>, log: seq<nat>, done: bool, i: nat, acc: Report)
      returns (last: nat)
    requires Usable(o) && i < o.maxAttempts <= |env| && Reached(o, env, log, done, i, acc)
    ensures IsRunOf(o, env, log, done, last, RunRate(o, env, i + 1, acc))
    decreases o.maxAttempts - i
  {
    hide GateOk, DeadBefore, WholeAttempt, IsSleep, RetryDelay, IsRetryable, GateWait, GateLog, Readings, IsRunOf;
    last := i;
    var e := env[i];
    var gated := AfterGate(o, e, acc);
    GateIsOk(o, env, log, done, i, acc);
    GateOpening(o, env, log, done, i, acc);
    Kept(o, env, log, done, i, acc.trace, gated.trace);
    if !GateOpens(o, e, acc) {
      EndsAtGate(o, env, log, done, i, gated.(result := Failure(CtxErr)));
      return;
    }
    var called := AfterCall(e.now + GateWait(o, acc.log, e), e, gated);
    Kept(o, env, log, done, i, gated.trace, called.trace);
    if e.outcome.Success? || called.done || !IsRetryable(e.outcome.error) || i + 1 == o.maxAttempts {
      EndsAtCall(o, env, log, done, i, called);
      return;
    }
    var delay := RetryDelay(o, e, i + 1);
    DelayIsPrescribed(o, e, i + 1);
    SleepIs(o, e, i + 1, delay);
    var slept := AfterSleep(delay, e, called);
    Kept(o, env, log, done, i, called.trace, slept.trace);
    if !Passes(delay, slept.done, e.sleepTimer) {
      EndsInSleep(o, env, log, done, i, slept.(result := Failure(CtxErr)));
      return;
    }
    DeadNext(env, done, i);
    AttemptWhole(o, env, log, done, i, slept.trace);
    last := RunsFrom(o, env, log, done, i + 1, slept);
  }

  lemma GateOpening(o: Options, env: seq<Env>, log: seq<nat>, done: bool, i: nat, acc: Report)
    requires i < o.maxAttempts <= |env| && Reached(o, env, log, done, i, acc)
    ensures var gated := AfterGate(o, env[i], acc);
      gated.trace == acc.trace + [Gated(env[i].now + GateWait(o, acc.log, env[i]), GateOpens(o, env[i], acc))]
  {
  }

  lemma SleepIs(o: Options, e: Env, attempt: nat, delay: int)
    requires attempt >= 1 && e.outcome.Failure? && PrescribedDelay(o, e.outcome.error, attempt, delay)
    ensures IsSleep(o, e, attempt, Slept(delay))
  {
  }

  lemma AttemptWhole(o: Options, env: seq<Env>, log: seq<nat>, done: bool, i: nat, trace: seq<Event>)
    requires i < |env| && 3 * i + 3 <= |trace| && GateOk(o, log, env, done, i, trace[3 * i]) && trace[3 * i].Gated?
    requires CallOk(env, done, i, trace[3 * i], trace[3 * i + 1])
    requires SleepOk(o, env, done, i, trace[3 * i + 2]) && trace[3 * i + 2].Slept?
    requires GoesOn(env, done, i, trace[3 * i + 2])
    ensures WholeAttempt(o, log, env, done, i, trace)
  {
  }

  lemma Kept(o: Options, env: seq<Env>, log: seq<nat>, done: bool, i: nat, trace: seq<Event>, more: seq<Event>)
    requires i <= |env| && trace <= more
    requires forall j: nat :: j < i ==> WholeAttempt(o, log, env, done, j, trace)
    ensures forall j: nat :: j < i ==> WholeAttempt(o, log, env, done, j, more)
  {
    hide WholeAttempt;
    forall j: nat | j < i ensures WholeAttempt(o, log, env, done, j, more) {
      AttemptStays(o, log, env, done, j, trace, more);
    }
  }

  /** Every run of the loop, on every context: which events happen, in which order and why; whether each
      gate opens; which calls are late; how long each sleep is; where the run ends; and whether it
      answers with an outcome or with the context's error. */
  lemma RunExactly(o: Options, env: seq<Env>, log: seq<nat>, done: bool) returns (last: nat)
    requires Usable(o) && |env| >= o.maxAttempts
    ensures IsRunOf(o, env, log, done, last, RunRate(o, env, 1, Start(log, done)))
  {
    last := RunsFrom(o, env, log, done, 0, Start(log, done));
  }
}
