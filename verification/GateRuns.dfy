/** Many goroutines at one rate gate (internal/rates/resilient/resilient.go:92-119): the critical
    section is one step, and afterwards each waits for its own timer or gives up. */
module GateRuns {
  import opened Wrappers
  import opened Resilient

  /** Outside the gate, or holding reservation `index` with a timer that fires at `due`. */
  datatype Thread = Outside | Holding(index: nat, due: nat)

  /** `next` is the shared field; `log` and `starts` are history: the clock reading of each
      reservation, and when its call started, if it has. */
  datatype State = State(
    interval: nat, next: nat, clock: nat, threads: seq<Thread>, log: seq<nat>, starts: seq<Option<nat>>)

  datatype Action =
    | Tick(now: nat)
    | Enter(w: nat)
    | Go(w: nat)
    | GiveUp(w: nat)

  predicate Enabled(s: State, a: Action) {
    match a
    case Tick(now) => s.clock <= now
    case Enter(w) => w < |s.threads| && s.threads[w].Outside?
    case Go(w) => w < |s.threads| && s.threads[w].Holding? && s.threads[w].due <= s.clock
    case GiveUp(w) => w < |s.threads| && s.threads[w].Holding?
  }

  function Apply(s: State, a: Action): State
    requires Enabled(s, a)
  {
    match a
    case Tick(now) => s.(clock := now)
    case Enter(w) =>
      var (wait, next) := Reserve(s.next, s.clock, s.interval);
      s.(next := next, threads := s.threads[w := Holding(|s.log|, s.clock + wait)],
         log := s.log + [s.clock], starts := s.starts + [None])
    case Go(w) =>
      var i := s.threads[w].index;
      s.(threads := s.threads[w := Outside],
         starts := if i < |s.starts| then s.starts[i := Some(s.clock)] else s.starts)
    case GiveUp(w) => s.(threads := s.threads[w := Outside])
  }

  ghost predicate Init(s: State) {
    && s.interval > 0 && s.next == 0 && s.log == [] && s.starts == []
    && forall w :: 0 <= w < |s.threads| ==> s.threads[w].Outside?
  }

  ghost predicate IsRun(run: seq<State>, acts: seq<Action>) {
    && |run| == |acts| + 1
    && (forall k :: 0 <= k < |acts| ==> Enabled(run[k], acts[k]) && run[k + 1] == Apply(run[k], acts[k]))
  }

  /** The clock is where the reservations have moved it; timers fire at slots, calls start no
      earlier. */
  ghost predicate Inv(s: State) {
    && s.interval > 0 && s.next == NextAfter(s.log, s.interval) && |s.starts| == |s.log|
    && (forall w :: 0 <= w < |s.threads| && s.threads[w].Holding? ==> TimerAtSlot(s, s.threads[w]))
    && (forall i: nat :: i < |s.log| && s.starts[i].Some? ==> s.starts[i].value >= Slot(s.log, s.interval, i))
  }

  ghost predicate TimerAtSlot(s: State, t: Thread)
    requires t.Holding?
  {
    t.index < |s.log| && t.due == Slot(s.log, s.interval, t.index)
  }

  lemma InvStep(s: State, a: Action)
    requires Inv(s) && Enabled(s, a)
    ensures Inv(Apply(s, a))
  {
    hide NextAfter, Slot;
    if a.Enter? {
      var t := Apply(s, a);
      EnterReserves(s.log, s.clock, s.interval);
      forall i: nat | i < |s.log| ensures Slot(t.log, s.interval, i) == Slot(s.log, s.interval, i) {
        SlotStays(s.log, t.log, s.interval, i);
      }
    }
  }

  lemma EnterReserves(log: seq<nat>, now: nat, interval: nat)
    ensures var (wait, next) := Reserve(NextAfter(log, interval), now, interval);
      Slot(log + [now], interval, |log|) == now + wait && NextAfter(log + [now], interval) == next
  {
    assert (log + [now])[..|log|] == log;
  }

  lemma {:induction false} Reachable(run: seq<State>, acts: seq<Action>, n: nat)
    requires IsRun(run, acts) && Init(run[0]) && n < |run|
    ensures Inv(run[n])
  {
    hide Enabled, Apply;
    if n > 0 {
      Reachable(run, acts, n - 1);
      InvStep(run[n - 1], acts[n - 1]);
    }
  }

  /** In every run, cancelled waiters included: no call starts before its slot of the closed form,
      and by any time `t` at most 1 + (t - first slot) / interval calls have started. */
  lemma CallsAreSpread(run: seq<State>, acts: seq<Action>, n: nat, t: nat)
    requires IsRun(run, acts) && Init(run[0]) && n < |run| && run[n].log != []
    ensures var s := run[n];
      var first := Slot(s.log, s.interval, 0);
      && s.interval > 0 && |s.starts| == |s.log|
      && (forall i: nat :: i < |s.log| && s.starts[i].Some? ==> s.starts[i].value >= Slot(s.log, s.interval, i))
      && (t < first ==> StartedBy(s.starts, t) == {})
      && (t >= first ==> |StartedBy(s.starts, t)| <= 1 + (t - first) / s.interval)
  {
    hide Init, Enabled, Apply, Slot;
    Reachable(run, acts, n);
    StartsBounded(run[n].log, run[n].interval, run[n].starts, t);
  }

  // ---------- cancelled waiters ----------

  /** Each reservation has at most one holder, and a held one has not started. */
  ghost predicate HeldOnce(s: State) {
    && |s.starts| == |s.log|
    && (forall w :: 0 <= w < |s.threads| && s.threads[w].Holding? ==>
          s.threads[w].index < |s.log| && s.starts[s.threads[w].index].None?)
    && (forall v, w :: 0 <= v < w < |s.threads| && s.threads[v].Holding? && s.threads[w].Holding? ==>
          s.threads[v].index != s.threads[w].index)
  }

  /** Reservation `i` is used up: nobody holds it and its call never started. */
  ghost predicate Burnt(s: State, i: nat) {
    && i < |s.log| && |s.starts| == |s.log| && s.starts[i].None?
    && forall w :: 0 <= w < |s.threads| && s.threads[w].Holding? ==> s.threads[w].index != i
  }

  lemma HeldStep(s: State, a: Action, i: nat)
    requires HeldOnce(s) && Enabled(s, a)
    ensures HeldOnce(Apply(s, a))
    ensures Burnt(s, i) ==> Burnt(Apply(s, a), i)
    ensures a.GiveUp? && s.threads[a.w].index == i ==> Burnt(Apply(s, a), i)
  {
  }

  /** A waiter that gives up has used its slot: the call of that reservation never starts. */
  lemma {:induction false} CancelledNeverStarts(run: seq<State>, acts: seq<Action>, k: nat, n: nat)
    requires IsRun(run, acts) && Init(run[0]) && k < n < |run| && acts[k].GiveUp?
    ensures var i := run[k].threads[acts[k].w].index;
      Burnt(run[n], i) && HeldOnce(run[n])
    decreases n
  {
    hide Apply, HeldOnce, Burnt;
    var i := run[k].threads[acts[k].w].index;
    if n == k + 1 {
      HeldAlways(run, acts, k);
    } else {
      CancelledNeverStarts(run, acts, k, n - 1);
    }
    HeldStep(run[n - 1], acts[n - 1], i);
  }

  lemma {:induction false} HeldAlways(run: seq<State>, acts: seq<Action>, n: nat)
    requires IsRun(run, acts) && Init(run[0]) && n < |run|
    ensures HeldOnce(run[n])
  {
    hide Apply, Enabled;
    if n > 0 {
      HeldAlways(run, acts, n - 1);
      HeldStep(run[n - 1], acts[n - 1], 0);
    }
  }

  // ---------- the spacing of real calls ----------

  /** Calls reserved after reservation `i` start at `bound` or later, as far as they have started. */
  ghost predicate LaterFrom(s: State, i: nat, bound: nat) {
    forall j: nat :: i < j < |s.starts| && s.starts[j].Some? ==> s.starts[j].value >= bound
  }

  ghost predicate StaysApart(s: State, i: nat, bound: nat) {
    forall run: seq<State>, acts: seq<Action>, n: nat ::
      IsRun(run, acts) && run[0] == s && n < |run| ==> LaterFrom(run[n], i, bound)
  }

  /** What the gate shows: nobody who reserved later has started or holds an earlier timer, and neither
      the shared field nor the clock hands out an earlier slot. */
  ghost predicate GateApart(s: State, i: nat, bound: nat) {
    && LaterFrom(s, i, bound)
    && (forall w :: 0 <= w < |s.threads| && s.threads[w].Holding? && s.threads[w].index > i ==>
          s.threads[w].due >= bound)
    && (s.next >= bound || s.clock >= bound)
  }

  lemma GateApartStep(s: State, a: Action, i: nat, bound: nat)
    requires Inv(s) && i < |s.log| && GateApart(s, i, bound) && Enabled(s, a)
    ensures GateApart(Apply(s, a), i, bound) && i < |Apply(s, a).log|
  {
    hide NextAfter, Slot;
  }

  lemma {:induction false} GateApartForever(run: seq<State>, acts: seq<Action>, n: nat, i: nat, bound: nat)
    requires IsRun(run, acts) && n < |run| && Inv(run[0]) && i < |run[0].log| && GateApart(run[0], i, bound)
    ensures Inv(run[n]) && i < |run[n].log| && GateApart(run[n], i, bound)
  {
    hide Enabled, Apply, Inv, GateApart;
    if n > 0 {
      GateApartForever(run, acts, n - 1, i, bound);
      GateApartStep(run[n - 1], acts[n - 1], i, bound);
      InvStep(run[n - 1], acts[n - 1]);
    }
  }

  /** A holder whose timer fires too early starts too early in some continuation. */
  lemma HolderGoes(s: State, w: nat, i: nat, bound: nat)
    requires Inv(s) && w < |s.threads| && s.threads[w].Holding? && s.threads[w].index > i
    requires s.threads[w].due < bound && s.clock < bound
    ensures !StaysApart(s, i, bound)
  {
    hide NextAfter, Slot;
    var now := if s.threads[w].due <= s.clock then s.clock else s.threads[w].due;
    var t := Apply(s, Tick(now));
    var u := Apply(t, Go(w));
    var run, acts := [s, t, u], [Tick(now), Go(w)];
    assert IsRun(run, acts);
    var j := s.threads[w].index;
    assert TimerAtSlot(s, s.threads[w]);
    assert u.starts[j] == Some(now);
    assert !LaterFrom(run[2], i, bound);
  }

  /** So does whoever enters while the gate still hands out such a slot. */
  lemma NewcomerGoes(s: State, w: nat, i: nat, bound: nat)
    requires Inv(s) && i < |s.log| && w < |s.threads| && s.threads[w].Outside?
    requires s.next < bound && s.clock < bound
    ensures !StaysApart(s, i, bound)
  {
    hide NextAfter, Slot;
    var t := Apply(s, Enter(w));
    InvStep(s, Enter(w));
    HolderGoes(t, w, i, bound);
    var run: seq<State>, acts: seq<Action>, n: nat :|
      IsRun(run, acts) && run[0] == t && n < |run| && !LaterFrom(run[n], i, bound);
    var run', acts' := [s] + run, [Enter(w)] + acts;
    assert IsRun(run', acts');
    assert run'[n + 1] == run[n];
  }

  /** The spacing of real calls, at the instant a call started and its goroutine left the gate: in every
      continuation all calls reserved later keep a whole interval behind it, exactly when the gate shows
      it: no later call has started or holds a timer before then, and the next free slot is not before
      then. */
  lemma SpacingExactly(s: State, i: nat, w: nat)
    requires Inv(s) && i < |s.log| && s.starts[i] == Some(s.clock)
    requires w < |s.threads| && s.threads[w].Outside?
    ensures var bound := s.clock + s.interval;
      StaysApart(s, i, bound) <==> GateApart(s, i, bound)
  {
    hide NextAfter, Slot, Apply, Enabled;
    var bound := s.clock + s.interval;
    if GateApart(s, i, bound) {
      forall run: seq<State>, acts: seq<Action>, n: nat | IsRun(run, acts) && run[0] == s && n < |run|
        ensures LaterFrom(run[n], i, bound)
      {
        GateApartForever(run, acts, n, i, bound);
      }
    } else if !LaterFrom(s, i, bound) {
      var run: seq<State>, acts: seq<Action> := [s], [];
      assert IsRun(run, acts) && run[0] == s && !LaterFrom(run[0], i, bound);
    } else if v: nat :| v < |s.threads| && s.threads[v].Holding? && s.threads[v].index > i && s.threads[v].due < bound {
      HolderGoes(s, v, i, bound);
    } else {
      NewcomerGoes(s, w, i, bound);
    }
  }

  /** A call that starts right on its slot always keeps its distance. */
  lemma OnTimeIsApart(s: State, i: nat)
    requires Inv(s) && i < |s.log| && s.starts[i] == Some(s.clock) && s.clock == Slot(s.log, s.interval, i)
    ensures GateApart(s, i, s.clock + s.interval)
  {
    hide Slot, NextAfter;
    var bound := s.clock + s.interval;
    forall j: nat | i < j < |s.log| ensures Slot(s.log, s.interval, j) >= bound {
      SlotsApart(s.log, s.interval, i, j);
      Grows(1, j - i, s.interval);
    }
    NextIsSlotPlus(s.log, s.interval, |s.log| - 1);
    assert s.log[..|s.log|] == s.log;
    SlotsApart(s.log, s.interval, i, |s.log| - 1);
    NonNegative(|s.log| - 1 - i, s.interval);
    forall w | 0 <= w < |s.threads| && s.threads[w].Holding? && s.threads[w].index > i
      ensures s.threads[w].due >= bound
    {
      assert TimerAtSlot(s, s.threads[w]);
    }
  }

  function BunchedAt(next: nat, clock: nat, threads: seq<Thread>, log: seq<nat>, starts: seq<Option<nat>>): State {
    State(10, next, clock, threads, log, starts)
  }

  function TheActions(): seq<Action> {
    [Enter(0), Enter(1), Tick(9), Go(0), Tick(10), Go(1)]
  }

  function TheRun(): seq<State> {
    [ BunchedAt(0, 0, [Outside, Outside], [], []),
      BunchedAt(10, 0, [Holding(0, 0), Outside], [0], [None]),
      BunchedAt(20, 0, [Holding(0, 0), Holding(1, 10)], [0, 0], [None, None]),
      BunchedAt(20, 9, [Holding(0, 0), Holding(1, 10)], [0, 0], [None, None]),
      BunchedAt(20, 9, [Outside, Holding(1, 10)], [0, 0], [Some(9), None]),
      BunchedAt(20, 10, [Outside, Holding(1, 10)], [0, 0], [Some(9), None]),
      BunchedAt(20, 10, [Outside, Outside], [0, 0], [Some(9), Some(10)]) ]
  }

  /** Two calls one nanosecond apart through a gate with an interval of ten: the first was held up for
      nine after its slot. */
  lemma CallsCanBunch()
    ensures IsRun(TheRun(), TheActions()) && Init(TheRun()[0]) && TheRun()[0].interval == 10
    ensures TheRun()[6].starts == [Some(9), Some(10)]
  {
    forall k: nat | k < 6
      ensures Enabled(TheRun()[k], TheActions()[k]) && TheRun()[k + 1] == Apply(TheRun()[k], TheActions()[k])
    {
      if k == 1 {
        assert [0] + [0] == [0, 0];
      }
    }
  }
}
