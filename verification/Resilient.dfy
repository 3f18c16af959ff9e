/** Rate limiting and retries around one provider (internal/rates/resilient/resilient.go).
    Instants are nanoseconds since the zero time, so a fresh gate is open at every reading. */
module Resilient {
  import opened Wrappers
  import opened Backoff
  import opened Rates

  // ---------- the gate ----------

  /** The critical section of gate: the wait before the reserved slot, and the next free slot. */
  function Reserve(next: nat, now: nat, interval: nat): (nat, nat) {
    if next > now then (next - now, next + interval) else (0, now + interval)
  }

  /** The next free slot after reservations at these clock readings, in mutex order. */
  function NextAfter(log: seq<nat>, interval: nat): nat {
    if log == [] then 0
    else Reserve(NextAfter(log[..|log| - 1], interval), log[|log| - 1], interval).1
  }

  /** The slot the i-th reservation got: its reading plus its wait. */
  function Slot(log: seq<nat>, interval: nat, i: nat): nat
    requires i < |log|
  {
    log[i] + Reserve(NextAfter(log[..i], interval), log[i], interval).0
  }

  /** The maximum over j <= i of log[j] + (i - j) * interval. */
  ghost predicate IsSlot(log: seq<nat>, interval: nat, i: nat, slot: int)
    requires i < |log|
  {
    && (forall j: nat :: j <= i ==> Bound(log, interval, i, j) <= slot)
    && (exists j: nat :: j <= i && Bound(log, interval, i, j) == slot)
  }

  function Bound(log: seq<nat>, interval: nat, i: nat, j: nat): int
    requires j < |log|
  {
    log[j] + (i - j) * interval
  }

  lemma NextIsSlotPlus(log: seq<nat>, interval: nat, i: nat)
    requires i < |log|
    ensures NextAfter(log[..i + 1], interval) == Slot(log, interval, i) + interval
  {
    assert log[..i + 1][..i] == log[..i];
  }

  /** The closed form of the reservation clock, for any readings. */
  lemma {:induction false} SlotClosedForm(log: seq<nat>, interval: nat, i: nat)
    requires i < |log|
    ensures IsSlot(log, interval, i, Slot(log, interval, i))
  {
    hide NextAfter;
    var slot := Slot(log, interval, i);
    if i == 0 {
      assert NextAfter([], interval) == 0 by { NextOfNone(interval); }
      assert log[..0] == [];
      assert Bound(log, interval, 0, 0) == slot;
    } else {
      SlotClosedForm(log, interval, i - 1);
      NextIsSlotPlus(log, interval, i - 1);
      var prev := Slot(log, interval, i - 1);
      assert slot == if prev + interval > log[i] then prev + interval else log[i];
      forall j: nat | j < i ensures Bound(log, interval, i, j) == Bound(log, interval, i - 1, j) + interval {
        Shift(i, j, interval);
      }
      assert Bound(log, interval, i, i) == log[i];
      var j: nat :| j <= i - 1 && Bound(log, interval, i - 1, j) == prev;
      assert Bound(log, interval, i, j) == prev + interval;
    }
  }

  lemma NextOfNone(interval: nat)
    ensures NextAfter([], interval) == 0
  {
  }

  lemma Shift(i: int, j: int, interval: int)
    ensures (i - j) * interval == (i - 1 - j) * interval + interval
  {
  }

  /** Slots are at least the interval apart, however many reservations lie between. */
  lemma {:induction false} SlotsApart(log: seq<nat>, interval: nat, i: nat, k: nat)
    requires i <= k < |log|
    ensures Slot(log, interval, k) >= Slot(log, interval, i) + (k - i) * interval
    decreases k
  {
    hide NextAfter;
    if i < k {
      SlotsApart(log, interval, i, k - 1);
      NextIsSlotPlus(log, interval, k - 1);
      Shift(k, i, interval);
    }
  }

  /** Indices of provider calls that have started by time t; a waiter that was cancelled never
      starts but has used its slot. */
  ghost function StartedBy(starts: seq<Option<nat>>, t: nat): set<nat> {
    set i: nat | i < |starts| && starts[i].Some? && starts[i].value <= t
  }

  /** No call starts before its slot, so by time t at most 1 + (t - first slot) / interval calls
      have started. */
  lemma StartsBounded(log: seq<nat>, interval: nat, starts: seq<Option<nat>>, t: nat)
    requires interval > 0 && |starts| == |log| && log != []
    requires forall i: nat :: i < |log| && starts[i].Some? ==> starts[i].value >= Slot(log, interval, i)
    ensures t < Slot(log, interval, 0) ==> StartedBy(starts, t) == {}
    ensures t >= Slot(log, interval, 0) ==> |StartedBy(starts, t)| <= 1 + (t - Slot(log, interval, 0)) / interval
  {
    hide Slot;
    var first := Slot(log, interval, 0);
    forall i | i in StartedBy(starts, t) ensures first <= first + i * interval <= t {
      SlotsApart(log, interval, 0, i);
      NonNegative(i, interval);
    }
    if t >= first {
      var last := (t - first) / interval;
      forall i | i in StartedBy(starts, t) ensures i <= last {
        Quotient(i, interval, t - first);
      }
      AtMost(StartedBy(starts, t), last + 1);
    }
  }

  /** The call of reservation `i`, `late` after its slot, is followed by an interval without calls:
      any later call waits for its own slot, and may start right on it. */
  ghost predicate KeepsDistance(log: seq<nat>, interval: nat, i: nat, late: nat)
    requires i < |log|
  {
    forall k: nat :: i < k < |log| ==> Slot(log, interval, k) - (Slot(log, interval, i) + late) >= interval
  }

  /** The spacing of real calls, as opposed to slots, is kept after a given call exactly when it is
      the last reserved, starts on its slot, or the next caller comes a whole interval after it. */
  lemma DistanceExactly(log: seq<nat>, interval: nat, i: nat, late: nat)
    requires i < |log|
    ensures KeepsDistance(log, interval, i, late)
      <==> i + 1 == |log| || late == 0 || log[i + 1] >= Slot(log, interval, i) + late + interval
  {
    hide NextAfter;
    if i + 1 < |log| {
      NextIsSlotPlus(log, interval, i);
      var next := Slot(log, interval, i + 1);
      forall k: nat | i < k < |log| ensures Slot(log, interval, k) >= next {
        SlotsApart(log, interval, i + 1, k);
        NonNegative(k - i - 1, interval);
      }
    }
  }

  lemma NonNegative(a: nat, b: nat)
    ensures a * b >= 0
  {
  }

  lemma Quotient(i: nat, interval: nat, span: int)
    requires interval > 0 && i * interval <= span
    ensures i <= span / interval
  {
    var q := span / interval;
    Grows(q + 1, i, interval);
    assert (q + 1) * interval == q * interval + interval;
  }

  lemma Grows(a: int, b: int, c: nat)
    ensures a <= b ==> a * c <= b * c
  {
    if a <= b {
      assert b * c == a * c + (b - a) * c;
    }
  }

  lemma {:induction false} AtMost(s: set<nat>, n: nat)
    requires forall x :: x in s ==> x < n
    ensures |s| <= n
  {
    if n == 0 {
      assert s == {};
    } else {
      AtMost(s - {n - 1}, n - 1);
      if n - 1 in s {
        assert |s| == |s - {n - 1}| + 1;
      } else {
        assert s == s - {n - 1};
      }
    }
  }

  // ---------- the retry loop ----------

  datatype Options = Options(maxAttempts: nat, baseDelay: int, maxDelay: int, minInterval: nat)

  /** The options after New has replaced unusable ones. */
  predicate Usable(o: Options) {
    o.maxAttempts >= 1 && o.baseDelay > 0 && o.maxDelay > 0
  }

  /** What surrounds one attempt. `others` are clock readings of reservations other goroutines make
      first; each `cancel` says the context ends at that point; the two `timer` flags say which
      ready branch of a select wins; `lag` is how long after its slot the call starts, as a timer
      never fires early. */
  datatype Env = Env(
    others: seq<nat>, now: nat, cancelInGate: bool, gateTimer: bool, cancelBeforeCall: bool, lag: nat,
    outcome: Result<Rate, Err>, cancelInCall: bool, draw: nat, cancelInSleep: bool, sleepTimer: bool)

  /** What the loop does, in the order it does it: a gate reserves a slot and opens or not; a call of
      the inner provider starts at an instant, possibly late, that is with the context done already;
      a sleep is begun. */
  datatype Event =
    | Gated(slot: nat, open: bool)
    | Called(at: nat, late: bool, outcome: Result<Rate, Err>)
    | Slept(delay: int)

  /** The answer; `trace`, `log` and `fell` are history: the events, the reservations, and whether
      the loop ran through to the return behind it. */
  datatype Report = Report(result: Result<Rate, Err>, trace: seq<Event>, done: bool, log: seq<nat>, fell: bool)

  function Start(log: seq<nat>, done: bool): Report {
    Report(Failure(NoErr), [], done, log, false)
  }

  /** gate or sleep with a positive wait: a done context may still lose the select to the timer. */
  predicate Passes(wait: int, done: bool, timer: bool) {
    !done || (wait > 0 && timer)
  }

  function GateLog(o: Options, log: seq<nat>, e: Env): seq<nat> {
    if o.minInterval == 0 then log else log + e.others + [e.now]
  }

  function GateWait(o: Options, log: seq<nat>, e: Env): nat {
    if o.minInterval == 0 then 0 else Reserve(NextAfter(log + e.others, o.minInterval), e.now, o.minInterval).0
  }

  predicate GateOpens(o: Options, e: Env, acc: Report) {
    Passes(GateWait(o, acc.log, e), acc.done || e.cancelInGate, e.gateTimer)
  }

  function AfterGate(o: Options, e: Env, acc: Report): Report {
    acc.(trace := acc.trace + [Gated(e.now + GateWait(o, acc.log, e), GateOpens(o, e, acc))],
         done := acc.done || e.cancelInGate, log := GateLog(o, acc.log, e))
  }

  /** One call of the provider, behind an open gate. */
  function AfterCall(slot: nat, e: Env, acc: Report): Report {
    var late := acc.done || e.cancelBeforeCall;
    acc.(result := e.outcome, trace := acc.trace + [Called(slot + e.lag, late, e.outcome)],
         done := late || e.cancelInCall)
  }

  function AfterSleep(delay: int, e: Env, acc: Report): Report {
    acc.(trace := acc.trace + [Slept(delay)], done := acc.done || e.cancelInSleep)
  }

  function RetryDelay(o: Options, e: Env, attempt: nat): int
    requires Usable(o) && attempt >= 1 && e.outcome.Failure?
  {
    DelayFor(o.baseDelay, o.maxDelay, attempt, RetryAfterFrom(e.outcome.error), e.draw)
  }

  /** The loop from attempt `attempt` on. */
  function RunRate(o: Options, env: seq<Env>, attempt: nat, acc: Report): Report
    requires Usable(o) && |env| >= o.maxAttempts && attempt >= 1
    decreases o.maxAttempts + 1 - attempt
  {
    if attempt > o.maxAttempts then acc.(fell := true)
    else
      var e := env[attempt - 1];
      var gated := AfterGate(o, e, acc);
      if !GateOpens(o, e, acc) then gated.(result := Failure(CtxErr))
      else
        var called := AfterCall(e.now + GateWait(o, acc.log, e), e, gated);
        if e.outcome.Success? || called.done || !IsRetryable(e.outcome.error) || attempt == o.maxAttempts then called
        else
          var delay := RetryDelay(o, e, attempt);
          var slept := AfterSleep(delay, e, called);
          if !Passes(delay, slept.done, e.sleepTimer) then slept.(result := Failure(CtxErr))
          else RunRate(o, env, attempt + 1, slept)
  }

  // ---------- how long the loop sleeps ----------

  /** The wait the attempt's error asks for, capped, if it carries a positive one; otherwise the
      exponential backoff min(BaseDelay * 2^(attempt - 1), MaxDelay) give or take a fifth, never above
      the cap, for options that 64 bits can carry. */
  ghost predicate PrescribedDelay(o: Options, error: Err, attempt: nat, d: int)
    requires attempt >= 1
  {
    && (Carried(o, attempt) ==> 0 < d <= o.maxDelay)
    && (forall v :: v > 0 && FirstDelay(Visited(error), Some(v)) ==> d == if v <= o.maxDelay then v else o.maxDelay)
    && ((forall v :: v > 0 ==> !FirstDelay(Visited(error), Some(v))) && Carried(o, attempt) ==>
          InJitterRange(Ideal(o.baseDelay, o.maxDelay, attempt), o.maxDelay, d))
  }

  /** The shift of this attempt and the jitter behave in 64 bits. */
  predicate Carried(o: Options, attempt: nat)
    requires attempt >= 1
  {
    && 0 < o.baseDelay < TWO_TO_63 && 0 < o.maxDelay && o.maxDelay + o.maxDelay / 5 < TWO_TO_63
    && Harmless(o.baseDelay, o.maxDelay, attempt - 1)
  }

  lemma DelayIsPrescribed(o: Options, e: Env, attempt: nat)
    requires Usable(o) && attempt >= 1 && e.outcome.Failure?
    ensures PrescribedDelay(o, e.outcome.error, attempt, RetryDelay(o, e, attempt))
  {
    hide Visited, FirstDelay, RetryAfterFrom, Harmless, Ideal, InJitterRange, Clamped;
    RetryAfterExactly(e.outcome.error);
    var d := RetryAfterFrom(e.outcome.error);
    assert d > 0 <==> exists v :: v > 0 && FirstDelay(Visited(e.outcome.error), Some(v)) by {
      assert d > 0 ==> FirstDelay(Visited(e.outcome.error), Some(d));
    }
    if Carried(o, attempt) {
      DelayExact(o.baseDelay, o.maxDelay, attempt, RetryAfterFrom(e.outcome.error), e.draw);
    }
  }

  // ---------- the retry loop on a live context ----------

  predicate Stops(outcome: Result<Rate, Err>) {
    outcome.Success? || !IsRetryable(outcome.error)
  }

  /** The first attempt that succeeds or fails for good, or the last one allowed. */
  ghost predicate IsFirstStop(env: seq<Env>, max: nat, k: nat) {
    && 1 <= k <= max <= |env|
    && (k == max || Stops(env[k - 1].outcome))
    && forall i :: 0 <= i < k - 1 ==> !Stops(env[i].outcome)
  }

  predicate Live(e: Env) {
    !e.cancelInGate && !e.cancelBeforeCall && !e.cancelInCall && !e.cancelInSleep
  }

  /** Events `from` on are: the gate opens, then the call of attempt `i` behind it, on time. */
  ghost predicate IsAttempt(trace: seq<Event>, from: nat, e: Env) {
    && from + 2 <= |trace| && trace[from].Gated? && trace[from].open
    && trace[from + 1] == Called(trace[from].slot + e.lag, false, e.outcome)
  }

  /** Gate, call, and then sleep, gate, call for each retry, `k` calls in all; every sleep has the
      prescribed delay. */
  ghost predicate IsLiveTrace(o: Options, env: seq<Env>, k: nat, trace: seq<Event>)
    requires Usable(o) && k <= |env|
  {
    && |trace| == (if k == 0 then 0 else 3 * k - 1)
    && (forall i: nat :: i < k ==> IsAttempt(trace, 3 * i, env[i]))
    && (forall i: nat :: i < k - 1 ==>
          env[i].outcome.Failure? && IsSleep(o, env[i], i + 1, trace[3 * i + 2]))
  }

  ghost predicate IsSleep(o: Options, e: Env, attempt: nat, event: Event)
    requires attempt >= 1 && e.outcome.Failure?
  {
    event.Slept? && PrescribedDelay(o, e.outcome.error, attempt, event.delay)
  }

  /** With a live context exactly k calls are made, where k is the first stopping attempt; the k-th
      outcome is returned; before each retry comes one sleep of the prescribed delay and then one
      gate pass; the loop never falls through its end. */
  lemma LiveRun(o: Options, env: seq<Env>, log: seq<nat>, k: nat)
    requires Usable(o) && |env| >= o.maxAttempts && IsFirstStop(env, o.maxAttempts, k)
    requires forall i :: 0 <= i < k ==> Live(env[i])
    ensures var r := RunRate(o, env, 1, Start(log, false));
      r.result == env[k - 1].outcome && !r.done && !r.fell && IsLiveTrace(o, env, k, r.trace)
  {
    LiveFrom(o, env, k, 1, Start(log, false));
  }

  /** The trace of `attempt - 1` attempts that all failed, up to the next gate. */
  ghost predicate Retrying(o: Options, env: seq<Env>, attempt: nat, trace: seq<Event>)
    requires Usable(o) && 1 <= attempt <= |env|
  {
    && |trace| == 3 * (attempt - 1)
    && (forall i: nat :: i < attempt - 1 ==> IsAttempt(trace, 3 * i, env[i]))
    && (forall i: nat :: i < attempt - 1 ==>
          env[i].outcome.Failure? && IsSleep(o, env[i], i + 1, trace[3 * i + 2]))
  }

  lemma {:induction false} LiveFrom(o: Options, env: seq<Env>, k: nat, attempt: nat, acc: Report)
    requires Usable(o) && |env| >= o.maxAttempts && IsFirstStop(env, o.maxAttempts, k)
    requires forall i :: 0 <= i < k ==> Live(env[i])
    requires 1 <= attempt <= k && !acc.done && !acc.fell && Retrying(o, env, attempt, acc.trace)
    ensures var r := RunRate(o, env, attempt, acc);
      r.result == env[k - 1].outcome && !r.done && !r.fell && IsLiveTrace(o, env, k, r.trace)
    decreases k - attempt
  {
    hide RetryDelay, NextAfter, IsRetryable, GateLog, GateWait, PrescribedDelay;
    var e := env[attempt - 1];
    assert Live(e);
    var gated := AfterGate(o, e, acc);
    var called := AfterCall(e.now + GateWait(o, acc.log, e), e, gated);
    assert IsAttempt(called.trace, 3 * (attempt - 1), e);
    forall i: nat | i < attempt - 1 ensures IsAttempt(called.trace, 3 * i, env[i]) {
      assert IsAttempt(acc.trace, 3 * i, env[i]);
    }
    if attempt < k {
      assert !Stops(e.outcome);
      DelayIsPrescribed(o, e, attempt);
      var slept := AfterSleep(RetryDelay(o, e, attempt), e, called);
      forall i: nat | i < attempt ensures IsAttempt(slept.trace, 3 * i, env[i]) {
        assert IsAttempt(called.trace, 3 * i, env[i]);
      }
      LiveFrom(o, env, k, attempt + 1, slept);
    }
  }

  // ---------- the retry loop on any context ----------

  function Calls(trace: seq<Event>): seq<Event> {
    if trace == [] then []
    else
      var last := trace[|trace| - 1];
      Calls(trace[..|trace| - 1]) + if last.Called? then [last] else []
  }

  function LateCalls(trace: seq<Event>): nat {
    if trace == [] then 0
    else
      var last := trace[|trace| - 1];
      LateCalls(trace[..|trace| - 1]) + if last.Called? && last.late then 1 else 0
  }

  /** The last event is a call with this outcome. */
  predicate EndsWith(trace: seq<Event>, outcome: Result<Rate, Err>) {
    trace != [] && trace[|trace| - 1].Called? && trace[|trace| - 1].outcome == outcome
  }

  /** At most one call was late, and then the context is done by now. */
  ghost predicate LateOk(r: Report) {
    LateCalls(r.trace) <= 1 && (LateCalls(r.trace) == 1 ==> r.done)
  }

  lemma OneMore(trace: seq<Event>, e: Event)
    ensures Calls(trace + [e]) == Calls(trace) + if e.Called? then [e] else []
    ensures LateCalls(trace + [e]) == LateCalls(trace) + if e.Called? && e.late then 1 else 0
  {
    assert (trace + [e])[..|trace|] == trace;
  }

  /** The order of things, for every context: a call comes right after a gate that opened and not
      before its slot; a sleep right after a call that failed in a way worth a retry; a gate at the
      start or right after a sleep. */
  ghost predicate Paced(trace: seq<Event>) {
    forall i: nat :: i < |trace| ==> InPlace(trace, i)
  }

  ghost predicate InPlace(trace: seq<Event>, i: nat)
    requires i < |trace|
  {
    match trace[i]
    case Gated(_, _) => i == 0 || trace[i - 1].Slept?
    case Called(at, _, _) => i > 0 && trace[i - 1].Gated? && trace[i - 1].open && trace[i - 1].slot <= at
    case Slept(_) => i > 0 && trace[i - 1].Called? && !Stops(trace[i - 1].outcome)
  }

  lemma PacedOn(trace: seq<Event>, e: Event)
    requires Paced(trace) && InPlace(trace + [e], |trace|)
    ensures Paced(trace + [e])
  {
    var trace' := trace + [e];
    forall i: nat | i < |trace'| ensures InPlace(trace', i) {
      assert i < |trace| ==> InPlace(trace, i);
    }
  }

  /** Each gate's slot is a reservation made during the run. */
  ghost predicate Reserved(o: Options, from: nat, r: Report) {
    forall i: nat :: i < |r.trace| && r.trace[i].Gated? && o.minInterval > 0 ==> SlotTaken(o, from, r, r.trace[i].slot)
  }

  ghost predicate SlotTaken(o: Options, from: nat, r: Report, slot: nat) {
    exists k: nat :: from <= k < |r.log| && Slot(r.log, o.minInterval, k) == slot
  }

  lemma SlotStays(log: seq<nat>, more: seq<nat>, interval: nat, k: nat)
    requires k < |log| && log <= more
    ensures Slot(more, interval, k) == Slot(log, interval, k)
  {
    assert more[..k] == log[..k];
  }

  lemma GateReserves(o: Options, from: nat, e: Env, acc: Report)
    requires from <= |acc.log| && Reserved(o, from, acc)
    ensures Reserved(o, from, AfterGate(o, e, acc)) && acc.log <= AfterGate(o, e, acc).log
  {
    hide NextAfter;
    var r := AfterGate(o, e, acc);
    if o.minInterval > 0 {
      var last := |r.log| - 1;
      assert r.log[..last] == acc.log + e.others;
      assert Slot(r.log, o.minInterval, last) == e.now + GateWait(o, acc.log, e);
      forall i: nat | i < |r.trace| && r.trace[i].Gated? ensures SlotTaken(o, from, r, r.trace[i].slot) {
        if i < |acc.trace| {
          assert SlotTaken(o, from, acc, acc.trace[i].slot);
          var k: nat :| from <= k < |acc.log| && Slot(acc.log, o.minInterval, k) == acc.trace[i].slot;
          SlotStays(acc.log, r.log, o.minInterval, k);
        }
      }
    }
  }

  /** For every context: at most MaxAttempts calls, each right behind an open gate and not before its
      reserved slot; at most one of them starts after the context is done, and none does unless the
      report says done; a success is the last event's answer; the result is an attempt's outcome or
      the context's error; the loop never runs through to its end. */
  lemma RateBudget(o: Options, env: seq<Env>, log: seq<nat>, done: bool)
    requires Usable(o) && |env| >= o.maxAttempts
    ensures var r := RunRate(o, env, 1, Start(log, done));
      && |Calls(r.trace)| <= o.maxAttempts && LateOk(r) && (done ==> r.done) && !r.fell
      && log <= r.log && Paced(r.trace) && Reserved(o, |log|, r)
      && (r.result.Success? ==> EndsWith(r.trace, r.result))
      && (r.result == Failure(CtxErr) || exists i :: 0 <= i < o.maxAttempts && r.result == env[i].outcome)
  {
    BudgetFrom(o, env, |log|, 1, Start(log, done));
  }

  /** The loop stands before a gate. */
  ghost predicate AtGate(o: Options, from: nat, attempt: nat, acc: Report) {
    && from <= |acc.log| && |Calls(acc.trace)| < attempt && LateCalls(acc.trace) == 0
    && Paced(acc.trace) && Reserved(o, from, acc) && !acc.fell
    && (acc.trace == [] || acc.trace[|acc.trace| - 1].Slept?)
  }

  lemma {:induction false} BudgetFrom(o: Options, env: seq<Env>, from: nat, attempt: nat, acc: Report)
    requires Usable(o) && |env| >= o.maxAttempts && 1 <= attempt <= o.maxAttempts
    requires AtGate(o, from, attempt, acc) && acc.result.Failure?
    ensures var r := RunRate(o, env, attempt, acc);
      && |Calls(r.trace)| <= o.maxAttempts && LateOk(r) && (acc.done ==> r.done) && !r.fell
      && acc.log <= r.log && Paced(r.trace) && Reserved(o, from, r)
      && (r.result.Success? ==> EndsWith(r.trace, r.result))
      && (r.result == Failure(CtxErr) || exists i :: 0 <= i < o.maxAttempts && r.result == env[i].outcome)
    decreases o.maxAttempts - attempt
  {
    hide RetryDelay, NextAfter, IsRetryable, GateWait, GateLog, Calls, LateCalls, Paced, Reserved;
    var e := env[attempt - 1];
    var gated := AfterGate(o, e, acc);
    GateReserves(o, from, e, acc);
    OneMore(acc.trace, gated.trace[|acc.trace|]);
    PacedOn(acc.trace, gated.trace[|acc.trace|]);
    if GateOpens(o, e, acc) {
      var called := AfterCall(e.now + GateWait(o, acc.log, e), e, gated);
      SameGates(o, from, gated, called);
      OneMore(gated.trace, called.trace[|gated.trace|]);
      PacedOn(gated.trace, called.trace[|gated.trace|]);
      if !(e.outcome.Success? || called.done || !IsRetryable(e.outcome.error) || attempt == o.maxAttempts) {
        var delay := RetryDelay(o, e, attempt);
        var slept := AfterSleep(delay, e, called);
        SameGates(o, from, called, slept);
        OneMore(called.trace, Slept(delay));
        PacedOn(called.trace, Slept(delay));
        if Passes(delay, slept.done, e.sleepTimer) {
          BudgetFrom(o, env, from, attempt + 1, slept);
        } else {
          SameGates(o, from, called, slept.(result := Failure(CtxErr)));
        }
      }
    } else {
      SameSlots(o, from, gated, gated.(result := Failure(CtxErr)));
    }
  }

  lemma SameSlots(o: Options, from: nat, acc: Report, r: Report)
    requires Reserved(o, from, acc) && r.log == acc.log && r.trace == acc.trace
    ensures Reserved(o, from, r)
  {
    assert forall slot :: SlotTaken(o, from, acc, slot) ==> SlotTaken(o, from, r, slot);
  }

  lemma SameGates(o: Options, from: nat, acc: Report, r: Report)
    requires Reserved(o, from, acc) && r.log == acc.log
    requires |r.trace| == |acc.trace| + 1 && acc.trace <= r.trace && !r.trace[|acc.trace|].Gated?
    ensures Reserved(o, from, r)
  {
    assert forall slot :: SlotTaken(o, from, acc, slot) ==> SlotTaken(o, from, r, slot);
  }

  /** A context that is done before the call: no provider call at all, unless the call has to wait
      for its slot and the timer wins the race; then exactly one, and no retry. The slot is used up
      either way. */
  lemma DeadContext(o: Options, env: seq<Env>, log: seq<nat>)
    requires Usable(o) && |env| >= o.maxAttempts
    ensures var r, e := RunRate(o, env, 1, Start(log, true)), env[0];
      var slot, opens := e.now + GateWait(o, log, e), GateWait(o, log, e) > 0 && e.gateTimer;
      && r.trace == [Gated(slot, opens)] + (if opens then [Called(slot + e.lag, true, e.outcome)] else [])
      && r.result == (if opens then e.outcome else Failure(CtxErr)) && r.log == GateLog(o, log, e)
  {
    hide GateWait, GateLog;
  }

  // ---------- the object ----------

  class Resilient {
    const opts: Options
    var nextAllowed: nat
    ghost var log: seq<nat>

    /** The shared clock is where the reservations made so far have moved it. */
    ghost predicate Valid()
      reads this
    {
      Usable(opts) && nextAllowed == NextAfter(log, opts.minInterval)
    }

    constructor (maxAttempts: int, baseDelay: int, maxDelay: int, minInterval: int)
      ensures Valid() && log == []
      ensures opts.maxAttempts == if maxAttempts >= 1 then maxAttempts else 1
      ensures opts.baseDelay == if baseDelay > 0 then baseDelay else 500_000_000
      ensures opts.maxDelay == if maxDelay > 0 then maxDelay else 10_000_000_000
      ensures opts.minInterval == if minInterval >= 0 then minInterval else 0
    {
      opts := Options(
        if maxAttempts < 1 then 1 else maxAttempts,
        if baseDelay <= 0 then 500_000_000 else baseDelay,
        if maxDelay <= 0 then 10_000_000_000 else maxDelay,
        if minInterval < 0 then 0 else minInterval);
      nextAllowed, log := 0, [];
    }

    /** Reserves the slot of the closed form. */
    method ReserveSlot(now: nat) returns (wait: nat)
      requires Valid() && opts.minInterval > 0
      modifies this`nextAllowed, this`log
      ensures Valid() && log == old(log) + [now]
      ensures IsSlot(log, opts.minInterval, |log| - 1, now + wait)
      ensures wait == Reserve(NextAfter(old(log), opts.minInterval), now, opts.minInterval).0
    {
      wait := 0;
      if nextAllowed > now {
        wait := nextAllowed - now;
        nextAllowed := nextAllowed + opts.minInterval;
      } else {
        nextAllowed := now + opts.minInterval;
      }
      log := log + [now];
      assert log[..|log| - 1] == old(log);
      SlotClosedForm(log, opts.minInterval, |log| - 1);
    }

    /** Reservations by other goroutines. */
    method Others(readings: seq<nat>)
      requires Valid() && opts.minInterval > 0
      modifies this`nextAllowed, this`log
      ensures Valid() && log == old(log) + readings
    {
      var k := 0;
      while k < |readings|
        invariant 0 <= k <= |readings| && Valid() && log == old(log) + readings[..k]
      {
        var _ := ReserveSlot(readings[k]);
        k := k + 1;
      }
    }

    method Gate(e: Env, done: bool) returns (slot: nat, open: bool)
      requires Valid()
      modifies this`nextAllowed, this`log
      ensures Valid() && log == GateLog(opts, old(log), e)
      ensures slot == e.now + GateWait(opts, old(log), e)
      ensures open == Passes(slot - e.now, done, e.gateTimer)
    {
      if opts.minInterval == 0 {
        return e.now, !done;
      }
      Others(e.others);
      var wait := ReserveSlot(e.now);
      slot := e.now + wait;
      if wait <= 0 {
        return slot, !done;
      }
      open := !done || e.gateTimer;
    }

    method Delay(attempt: nat, retryAfter: int, draw: nat) returns (d: int)
      requires Usable(opts) && attempt >= 1
      ensures d == DelayFor(opts.baseDelay, opts.maxDelay, attempt, retryAfter, draw)
    {
      if retryAfter > 0 {
        if retryAfter > opts.maxDelay {
          return opts.maxDelay;
        }
        return retryAfter;
      }
      d := ShiftLeft(opts.baseDelay, attempt - 1);
      if d <= 0 || d > opts.maxDelay {
        d := opts.maxDelay;
      }
      var jitter := d / 5;
      if jitter > 0 {
        d := Wrap(d + (draw % (2 * jitter) - jitter));
      }
      if d > opts.maxDelay {
        d := opts.maxDelay;
      }
    }

    /** The retry loop, for every behaviour of the context, the clock and the provider. */
    method Rate(env: seq<Env>, cancelled: bool) returns (r: Report)
      requires Valid() && |env| >= opts.maxAttempts
      modifies this`nextAllowed, this`log
      ensures Valid() && r.(log := log) == RunRate(opts, env, 1, Start(old(log), cancelled))
    {
      hide NextAfter, IsRetryable, DelayFor, RetryAfterFrom, GateLog, GateWait, Passes;
      ghost var whole := RunRate(opts, env, 1, Start(log, cancelled));
      r := Start([], cancelled);
      var attempt := 1;
      while attempt <= opts.maxAttempts
        invariant 1 <= attempt <= opts.maxAttempts + 1 && Valid()
        invariant RunRate(opts, env, attempt, r.(log := log)) == whole
      {
        var e := env[attempt - 1];
        var slot, open := Gate(e, r.done || e.cancelInGate);
        r := r.(trace := r.trace + [Gated(slot, open)], done := r.done || e.cancelInGate);
        if !open {
          return r.(result := Failure(CtxErr));
        }
        var late := r.done || e.cancelBeforeCall;
        r := r.(result := e.outcome, trace := r.trace + [Called(slot + e.lag, late, e.outcome)],
                done := late || e.cancelInCall);
        if e.outcome.Success? {
          return;
        }
        if r.done || !IsRetryable(e.outcome.error) || attempt == opts.maxAttempts {
          return;
        }
        var delay := Delay(attempt, RetryAfterFrom(e.outcome.error), e.draw);
        r := r.(trace := r.trace + [Slept(delay)], done := r.done || e.cancelInSleep);
        if !Passes(delay, r.done, e.sleepTimer) {
          return r.(result := Failure(CtxErr));
        }
        attempt := attempt + 1;
      }
      r := r.(fell := true);
    }
  }
}
