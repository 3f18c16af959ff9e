/** A run that panics: the HTTP server's stop times out with a create call in flight, and the call
    hands its row over when the queue is already closed (cmd/server/main.go:153-158,
    internal/service/service.go:118-121, 156-161). */
module LateHandOver {
  import opened Wrappers
  import opened Domain
  import opened Requests
  import opened Storage
  import opened System
  import opened Guarantees

  const NEW_ROW := NewRow("EUR/USD", [], 0)
  const NEW_REQUEST := Request(0, EUR_USD, Pending, None, None, 0, 0)

  function At(rows: seq<Row>, callers: seq<Caller>, resyncers: seq<Resyncer>, life: Life): State {
    State(Config(1, {"EUR", "USD"}), Db(rows, map[], []), Pool([], [Idle], [], multiset{}),
          callers, resyncers, life, 0)
  }

  function TheCaller(pc: Pc, handed: bool): Caller {
    Caller(Call(EUR_USD, [], pc, true), handed)
  }

  function TheActions(): seq<Action> {
    [ ResyncList(0, None), Begin("EUR/USD", []), Query(0, NoFault, 0), Query(0, NoFault, 0),
      StopHttp(true), Cancel, ResyncStop(1), CloseQueue, HandOver(0) ]
  }

  function TheRun(): seq<State> {
    var created := TheCaller(Done(Returned(NEW_REQUEST, true)), false);
    [ At([], [], [Listing, Waiting], Life(Running, true, false)),
      At([], [], [Stopped, Waiting], Life(Running, true, false)),
      At([], [TheCaller(CheckPending, false)], [Stopped, Waiting], Life(Running, true, false)),
      At([], [TheCaller(Inserting, false)], [Stopped, Waiting], Life(Running, true, false)),
      At([NEW_ROW], [created], [Stopped, Waiting], Life(Running, true, false)),
      At([NEW_ROW], [created], [Stopped, Waiting], Life(HttpStopped, true, false)),
      At([NEW_ROW], [created], [Stopped, Waiting], Life(Cancelled, true, false)),
      At([NEW_ROW], [created], [Stopped, Stopped], Life(Cancelled, true, false)),
      At([NEW_ROW], [created], [Stopped, Stopped], Life(QueueClosed, true, false)),
      At([NEW_ROW], [created.(handed := true)], [Stopped, Stopped], Life(QueueClosed, true, true)) ]
  }

  ghost predicate StepAt(k: nat)
    requires k < 9
  {
    Enabled(TheRun()[k], TheActions()[k]) && TheRun()[k + 1] == Apply(TheRun()[k], TheActions()[k])
  }

  lemma PairParses()
    ensures ValidPair(EUR_USD) && EUR_USD.ToString() == "EUR/USD" && ParsePair("EUR/USD") == Success(EUR_USD)
  {
    assert EUR_USD.ToString() == "EUR/USD";
    RoundTrip(EUR_USD);
  }

  lemma CallSteps()
    ensures StepAt(0) && StepAt(1) && StepAt(2) && StepAt(3)
  {
    hide ParsePair, IsListing, ValidPair;
    PairParses();
    assert Scan(0, NEW_ROW) == Found(NEW_REQUEST);
    assert Conflict([], "EUR/USD", []) == None;
  }

  lemma StopSteps()
    ensures StepAt(4) && StepAt(5) && StepAt(6)
  {
    hide ParsePair, IsListing, CallStep, Enqueue, WriteDb, WritePool;
  }

  lemma CloseSteps()
    ensures StepAt(7) && StepAt(8)
  {
    hide ParsePair, IsListing, CallStep, WriteDb, WritePool;
  }

  /** The panic happens: a legal run from an empty table ends in it. */
  lemma SomeRunPanics()
    ensures Starts(TheRun(), TheActions()) && TheRun()[9].life.panicked
  {
    hide Enabled, Apply;
    CallSteps();
    StopSteps();
    CloseSteps();
    forall k: nat | k < 9 ensures StepAt(k) {
    }
  }
}
