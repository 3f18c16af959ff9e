/** One worker is exactly what keeps quotes from going back in time: resync may queue the same
    pending row twice, and then two of several workers may finish in the opposite order. */
module Overtaking {
  import opened Wrappers
  import opened Domain
  import opened Requests
  import opened Storage
  import opened System
  import opened Invariants
  import opened Guarantees

  const THE_ROW := NewRow("EUR/USD", [], 0)
  const THE_REQUEST := Request(0, EUR_USD, Pending, None, None, 0, 0)

  /** Two workers that act, and the rest, who stay idle. */
  function Crew(first: Worker, second: Worker, rest: seq<Worker>): seq<Worker> {
    [first, second] + rest
  }

  function At(workers: seq<Worker>, queue: seq<Request>, resyncers: seq<Resyncer>, clock: int,
              quotes: map<string, Quote>, writes: seq<QuoteWrite>, accepted: seq<Request>): State {
    State(Config(2, {"EUR", "USD"}), Db([THE_ROW], quotes, writes), Pool(queue, workers, accepted, multiset{}),
          [], resyncers, Life(Running, true, false), clock)
  }

  function TheActions(): seq<Action> {
    [ ResyncList(0, Some([THE_REQUEST])), ResyncSend(0), ResyncSend(0),
      ResyncTick(1), ResyncList(1, Some([THE_REQUEST])), ResyncSend(1),
      Take(0), Take(1), Provider(0, Success(1.0)), Tick(5), Provider(1, Success(2.0)),
      Write(1, NoFault, 0, []), Write(0, NoFault, 0, []) ]
  }

  function TheRun(rest: seq<Worker>): seq<State> {
    var r := THE_REQUEST;
    var idle, sent := Crew(Idle, Idle, rest), [Stopped, Sending([])];
    var early, late := Publishing(r, 1.0, 0), Publishing(r, 2.0, 5);
    var second, first := QuoteWrite("EUR/USD", 2.0, 5), QuoteWrite("EUR/USD", 1.0, 0);
    [ At(idle, [], [Listing, Waiting], 0, map[], [], []),
      At(idle, [], [Sending([r]), Waiting], 0, map[], [], []),
      At(idle, [r], [Sending([]), Waiting], 0, map[], [], [r]),
      At(idle, [r], [Stopped, Waiting], 0, map[], [], [r]),
      At(idle, [r], [Stopped, Listing], 0, map[], [], [r]),
      At(idle, [r], [Stopped, Sending([r])], 0, map[], [], [r]),
      At(idle, [r, r], sent, 0, map[], [], [r, r]),
      At(Crew(Calling(r), Idle, rest), [r], sent, 0, map[], [], [r, r]),
      At(Crew(Calling(r), Calling(r), rest), [], sent, 0, map[], [], [r, r]),
      At(Crew(early, Calling(r), rest), [], sent, 0, map[], [], [r, r]),
      At(Crew(early, Calling(r), rest), [], sent, 5, map[], [], [r, r]),
      At(Crew(early, late, rest), [], sent, 5, map[], [], [r, r]),
      At(Crew(early, Completing(r, 2.0, 5), rest), [], sent, 5, map["EUR/USD" := Quote(2.0, 5)], [second], [r, r]),
      At(Crew(Completing(r, 1.0, 0), Completing(r, 2.0, 5), rest), [], sent, 5,
         map["EUR/USD" := Quote(1.0, 0)], [second, first], [r, r]) ]
  }

  lemma RowIsSound()
    ensures TableOk([THE_ROW])
    ensures IsListing([THE_ROW], RESYNC_LIMIT, [THE_REQUEST])
  {
    var p := EUR_USD;
    assert ValidPair(p) && p.ToString() == "EUR/USD";
    assert Snapshot([THE_ROW], THE_REQUEST);
    assert [THE_REQUEST][0].id == 0;
    assert Listed([THE_REQUEST], 0);
  }

  lemma CrewMoves(first: Worker, second: Worker, rest: seq<Worker>, next: Worker)
    ensures var crew := Crew(first, second, rest);
      && |crew| == 2 + |rest| && crew[0] == first && crew[1] == second
      && crew[0 := next] == Crew(next, second, rest) && crew[1 := next] == Crew(first, next, rest)
  {
  }

  ghost predicate StepAt(rest: seq<Worker>, k: nat)
    requires k < 13
  {
    var run, acts := TheRun(rest), TheActions();
    Enabled(run[k], acts[k]) && run[k + 1] == Apply(run[k], acts[k])
  }

  lemma FirstResync(rest: seq<Worker>)
    ensures StepAt(rest, 0) && StepAt(rest, 1) && StepAt(rest, 2)
  {
    hide IsListing, TableOk, WriteDb, WritePool, CallStep, ParsePair, Crew;
    RowIsSound();
    assert [THE_REQUEST][0] == THE_REQUEST && [THE_REQUEST][1..] == [];
  }

  lemma SecondResync(rest: seq<Worker>)
    ensures StepAt(rest, 3) && StepAt(rest, 4) && StepAt(rest, 5)
  {
    hide IsListing, TableOk, WriteDb, WritePool, CallStep, ParsePair, Crew;
    RowIsSound();
    assert [THE_REQUEST][0] == THE_REQUEST && [THE_REQUEST][1..] == [];
  }

  lemma TakeSteps(rest: seq<Worker>)
    ensures StepAt(rest, 6) && StepAt(rest, 7)
  {
    hide IsListing, TableOk, WriteDb, WritePool, CallStep, ParsePair, Crew;
    var r := THE_REQUEST;
    assert [r, r][1..] == [r] && [r][1..] == [];
    CrewMoves(Idle, Idle, rest, Calling(r));
    CrewMoves(Calling(r), Idle, rest, Calling(r));
  }

  lemma AnswerSteps(rest: seq<Worker>)
    ensures StepAt(rest, 8) && StepAt(rest, 9) && StepAt(rest, 10)
  {
    hide IsListing, TableOk, WriteDb, WritePool, CallStep, ParsePair, Crew;
    var r := THE_REQUEST;
    CrewMoves(Calling(r), Calling(r), rest, Publishing(r, 1.0, 0));
    CrewMoves(Publishing(r, 1.0, 0), Calling(r), rest, Publishing(r, 2.0, 5));
  }

  lemma WriteSteps(rest: seq<Worker>)
    ensures StepAt(rest, 11) && StepAt(rest, 12)
  {
    hide IsListing, TableOk, CallStep, ParsePair, Crew;
    var r := THE_REQUEST;
    var first, second := Quote(1.0, 0), Quote(2.0, 5);
    assert EUR_USD.ToString() == "EUR/USD";
    assert map["EUR/USD" := second]["EUR/USD" := first] == map["EUR/USD" := first];
    CrewMoves(Publishing(r, 1.0, 0), Publishing(r, 2.0, 5), rest, Completing(r, 2.0, 5));
    CrewMoves(Publishing(r, 1.0, 0), Completing(r, 2.0, 5), rest, Completing(r, 1.0, 0));
  }

  /** With two workers or more a quote can go back in time although the clock never does. */
  lemma SeveralWorkersCanGoBack(rest: seq<Worker>)
    requires forall w :: 0 <= w < |rest| ==> rest[w].Idle?
    ensures Starts(TheRun(rest), TheActions()) && |TheRun(rest)[0].pool.workers| == 2 + |rest|
    ensures QuotesBy(TheRun(rest)[0].db.quotes, TheRun(rest)[0].clock)
    ensures !QuotesAdvance(TheRun(rest)[12].db.quotes, TheRun(rest)[13].db.quotes)
  {
    hide IsListing, TableOk, Enabled, Apply;
    FirstResync(rest);
    SecondResync(rest);
    TakeSteps(rest);
    AnswerSteps(rest);
    WriteSteps(rest);
    forall k: nat | k < 13 ensures StepAt(rest, k) {
    }
    RowIsSound();
    assert "EUR/USD" in TheRun(rest)[12].db.quotes;
  }

  /** No run that starts with `n` workers, and with no quote from the future, ever takes a quote
      back in time or loses one. */
  ghost predicate NeverBack(n: nat) {
    forall run: seq<State>, acts: seq<Action>, i: nat, j: nat ::
      Starts(run, acts) && |run[0].pool.workers| == n && QuotesBy(run[0].db.quotes, run[0].clock) && i <= j < |run|
      ==> QuotesAdvance(run[i].db.quotes, run[j].db.quotes)
  }

  /** Quotes are safe from going back with one worker, and with no other number of workers. */
  lemma OneWorkerExactly(n: nat)
    requires n >= 1
    ensures NeverBack(n) <==> n == 1
  {
    hide QuotesAdvance, QuotesBy, TheRun, TheActions, Init, Enabled, Apply;
    if n == 1 {
      forall run: seq<State>, acts: seq<Action>, i: nat, j: nat
        | Starts(run, acts) && |run[0].pool.workers| == n && QuotesBy(run[0].db.quotes, run[0].clock) && i <= j < |run|
        ensures QuotesAdvance(run[i].db.quotes, run[j].db.quotes)
      {
        OneWorkerNeverGoesBack(run, acts, i, j);
      }
    } else {
      var rest := seq(n - 2, _ => Idle);
      SeveralWorkersCanGoBack(rest);
      assert |TheRun(rest)| == 14 by {
        LongEnough(rest);
      }
    }
  }

  lemma LongEnough(rest: seq<Worker>)
    ensures |TheRun(rest)| == 14
  {
  }
}
