/** One request from its arrival to an orderly shutdown: the guarantees over runs are about runs that
    exist and get things done (internal/service/service.go, cmd/server/main.go:153-158). */
module FullService {
  import opened Wrappers
  import opened Domain
  import opened Requests
  import opened Storage
  import opened System
  import opened Guarantees
  import LateHandOver

  const ROW := LateHandOver.NEW_ROW
  const REQUEST := LateHandOver.NEW_REQUEST
  const DONE_ROW := ROW.(status := Completed, price := Some(2.0), updatedAt := 5)

  function At(db: Db, pool: Pool, callers: seq<Caller>, loop: Resyncer, life: Life, clock: int): State {
    State(Config(1, {"EUR", "USD"}), db, pool, callers, [Stopped, loop], life, clock)
  }

  function Caught(pc: Pc, handed: bool): seq<Caller> {
    [LateHandOver.TheCaller(pc, handed)]
  }

  function Crew(queue: seq<Request>, worker: Worker, accepted: seq<Request>, processed: multiset<Request>): Pool {
    Pool(queue, [worker], accepted, processed)
  }

  function TheActions(): seq<Action> {
    [ ResyncList(0, None), Begin("EUR/USD", []), Query(0, NoFault, 0), Query(0, NoFault, 0), HandOver(0), Take(0),
      Tick(5), Provider(0, Success(2.0)), Write(0, NoFault, 9, []), Write(0, NoFault, 9, []),
      StopHttp(false), Cancel, ResyncStop(1), CloseQueue, Take(0), Finish(false) ]
  }

  function StateAt(k: nat): State
    requires k < 17
  {
    var on := Life(Running, true, false);
    var idle := Crew([], Idle, [], multiset{});
    var empty, full := Db([], map[], []), Db([ROW], map[], []);
    var priced := Db([ROW], map["EUR/USD" := Quote(2.0, 5)], [QuoteWrite("EUR/USD", 2.0, 5)]);
    var settled := priced.(rows := [DONE_ROW]);
    var created, handed := Caught(Done(Returned(REQUEST, true)), false), Caught(Done(Returned(REQUEST, true)), true);
    var rest := Crew([], Idle, [REQUEST], multiset{REQUEST});
    if k == 0 then At(empty, idle, [], Waiting, on, 0).(resyncers := [Listing, Waiting])
    else if k == 1 then At(empty, idle, [], Waiting, on, 0)
    else if k == 2 then At(empty, idle, Caught(CheckPending, false), Waiting, on, 0)
    else if k == 3 then At(empty, idle, Caught(Inserting, false), Waiting, on, 0)
    else if k == 4 then At(full, idle, created, Waiting, on, 0)
    else if k == 5 then At(full, Crew([REQUEST], Idle, [REQUEST], multiset{}), handed, Waiting, on, 0)
    else if k == 6 then At(full, Crew([], Calling(REQUEST), [REQUEST], multiset{}), handed, Waiting, on, 0)
    else if k == 7 then At(full, Crew([], Calling(REQUEST), [REQUEST], multiset{}), handed, Waiting, on, 5)
    else if k == 8 then At(full, Crew([], Publishing(REQUEST, 2.0, 5), [REQUEST], multiset{}), handed, Waiting, on, 5)
    else if k == 9 then At(priced, Crew([], Completing(REQUEST, 2.0, 5), [REQUEST], multiset{}), handed, Waiting, on, 5)
    else if k == 10 then At(settled, rest, handed, Waiting, on, 5)
    else if k == 11 then At(settled, rest, handed, Waiting, Life(HttpStopped, false, false), 5)
    else if k == 12 then At(settled, rest, handed, Waiting, Life(Cancelled, false, false), 5)
    else if k == 13 then At(settled, rest, handed, Stopped, Life(Cancelled, false, false), 5)
    else if k == 14 then At(settled, rest, handed, Stopped, Life(QueueClosed, false, false), 5)
    else
      var left := Crew([], Exited, [REQUEST], multiset{REQUEST});
      At(settled, left, handed, Stopped, Life(if k == 15 then QueueClosed else Finished(true), false, false), 5)
  }

  ghost predicate StepAt(k: nat)
    requires k < 16
  {
    Enabled(StateAt(k), TheActions()[k]) && StateAt(k + 1) == Apply(StateAt(k), TheActions()[k])
  }

  lemma CallSteps()
    ensures StepAt(0) && StepAt(1) && StepAt(2) && StepAt(3)
  {
    hide ParsePair, ValidPair;
    LateHandOver.PairParses();
    assert Scan(0, ROW) == Found(REQUEST);
    assert Conflict([], "EUR/USD", []) == None;
  }

  lemma HandOverStep()
    ensures StepAt(4)
  {
    hide ParsePair, CallStep, WriteDb, WritePool, TakeNext, DoQuery;
  }

  lemma TakeSteps()
    ensures StepAt(5) && StepAt(6)
  {
    hide ParsePair, CallStep, WriteDb, WritePool, DoQuery, DoHandOver, Enqueue;
    assert [REQUEST][0] == REQUEST && [REQUEST][1..] == [];
  }

  lemma AnswerStep()
    ensures StepAt(7)
  {
    hide ParsePair, CallStep, WriteDb, WritePool, DoQuery, DoHandOver, Enqueue, TakeNext;
  }

  lemma PublishStep()
    ensures StepAt(8)
  {
    hide ParsePair, CallStep, DoQuery, DoHandOver, Enqueue, TakeNext, CompleteRow, FailRow;
    LateHandOver.PairParses();
  }

  lemma CompleteStep()
    ensures StepAt(9)
  {
    hide ParsePair, CallStep, DoQuery, DoHandOver, Enqueue, TakeNext, FailRow;
    assert [ROW][0 := DONE_ROW] == [DONE_ROW];
  }

  lemma StopSteps()
    ensures StepAt(10) && StepAt(11)
  {
    hide ParsePair, CallStep, WriteDb, WritePool, TakeNext, DoQuery, DoHandOver, Enqueue;
  }

  lemma CloseSteps()
    ensures StepAt(12) && StepAt(13)
  {
    hide ParsePair, CallStep, WriteDb, WritePool, TakeNext, DoQuery, DoHandOver, Enqueue;
  }

  lemma EndSteps()
    ensures StepAt(14) && StepAt(15)
  {
    hide ParsePair, CallStep, WriteDb, WritePool, DoQuery, DoHandOver, Enqueue;
  }

  function TheRun(): seq<State> {
    seq(17, k requires 0 <= k < 17 => StateAt(k))
  }

  lemma EachStep(k: nat)
    requires k < 16
    ensures StepAt(k)
  {
    hide StepAt;
    CallSteps();
    HandOverStep();
    TakeSteps();
    AnswerStep();
    PublishStep();
    CompleteStep();
    StopSteps();
    CloseSteps();
    EndSteps();
  }

  /** From an empty table: a request is created, queued, priced and completed, its quote is there, and
      shutdown drains the queue. */
  lemma ServesAndStops()
    ensures Starts(TheRun(), TheActions())
    ensures TheRun()[16].db.rows == [DONE_ROW] && TheRun()[16].db.quotes == map["EUR/USD" := Quote(2.0, 5)]
    ensures TheRun()[16].life == Life(Finished(true), false, false)
  {
    hide Enabled, Apply, StateAt;
    var run, acts := TheRun(), TheActions();
    forall k: nat | k < |acts| ensures Enabled(run[k], acts[k]) && run[k + 1] == Apply(run[k], acts[k]) {
      EachStep(k);
      assert run[k + 1] == StateAt(k + 1);
    }
    FirstAndLast();
  }

  lemma FirstAndLast()
    ensures Init(StateAt(0)) && StateAt(16).db.rows == [DONE_ROW]
    ensures StateAt(16).db.quotes == map["EUR/USD" := Quote(2.0, 5)]
    ensures StateAt(16).life == Life(Finished(true), false, false)
  {
  }
}
