/**
  Every step of guess-the-number keeps the invariant that ties contract, queue and workers together.
 */
module GuessSteps {
  import opened Wrappers
  import opened ByteCodec
  import opened AccessControl
  import opened RollupClient
  import opened SessionCache
  import opened Protocol
  import opened Serializability
  import opened GuessMessages
  import opened GuessTheNumber
  import opened GuessInvariant
  import opened GuessProtocol
  import MessageQueue

  // ---------- every game step keeps the invariant ----------

  lemma {:induction false} StepsKeepInv<H>(handler: Handler<H>, start: Chain<H>, c: Config<H>, steps: seq<Step<H>>)
    requires Inv(handler, start, c) && AllAllowed(steps)
    requires CommitCount(Exec(handler, c, steps).events) < U32_LIMIT
    ensures Inv(handler, start, Exec(handler, c, steps))
  {
    hide Inv, Apply;
    if steps != [] {
      var n := |steps| - 1;
      CommitsGrow(handler, Exec(handler, c, steps[..n]), steps[n]);
      StepsKeepInv(handler, start, c, steps[..n]);
      ApplyKeepsInv(handler, start, Exec(handler, c, steps[..n]), steps[n]);
    }
  }

  /** A game writes no key of its own. */
  lemma GameStepsAllowed(draw: Draw, c: GameConfig, step: GameStep)
    ensures AllAllowed(StepsOf(draw, c, step))
  {
    hide Apply, DecodeRequest, ResponseTo, EncodeResponse, StartInner, GuessInner;
  }

  /** A worker's poll leaves contract and history alone. */
  lemma PollLeavesContract(draw: Draw, c: GameConfig, w: WorkerId, maxAttempts: U32)
    ensures var c' := Exec(OnMessageReceived, c, PollSteps(draw, c, w, maxAttempts));
            c'.chain == c.chain && c'.events == c.events
  {
    hide Apply, Exec, WorkerStep, DecodeRequest, ResponseTo, EncodeResponse;
    var asked := Apply(OnMessageReceived, c, Ask(w));
    OwnStepEffect(OnMessageReceived, c, Ask(w));
    SingleStep(c, Ask(w));
    OwnStepEffect(OnMessageReceived, c, Abandon(w));
    SingleStep(c, Abandon(w));
    var steps := PollSteps(draw, c, w, maxAttempts);
    if |steps| == 2 {
      OwnStepEffect(OnMessageReceived, asked, steps[1]);
      TwoSteps(c, Ask(w), steps[1]);
      assert steps == [Ask(w), steps[1]];
    }
  }

  lemma RequestsAppend(items: seq<Bytes>, r: Request)
    requires AllRequests(items)
    ensures AllRequests(items + [EncodeRequest(r)])
    ensures RequestsIn(items + [EncodeRequest(r)]) == RequestsIn(items) + [r]
  {
    RequestRoundTrip(r);
    hide EncodeRequest, DecodeRequest;
    var items' := items + [EncodeRequest(r)];
    forall i | 0 <= i < |items'| ensures RequestsIn(items')[i] == (RequestsIn(items) + [r])[i] {
      if i < |items| {
        assert items'[i] == items[i];
      }
    }
  }

  lemma RequestsDrop(items: seq<Bytes>, n: nat)
    requires AllRequests(items) && n <= |items|
    ensures AllRequests(items[n..]) && RequestsIn(items[n..]) == RequestsIn(items)[n..]
  {
    hide DecodeRequest;
    forall i | 0 <= i < |items| - n ensures items[n..][i] == items[n + i] {
    }
  }

  /** A message of the contract changes the games and pushes one request or none. */
  function MessagesFor(request: Option<Request>): seq<Bytes> {
    match request case None => [] case Some(r) => [EncodeRequest(r)]
  }

  function WaitingWith(pending: seq<Request>, request: Option<Request>): seq<Request> {
    match request case None => pending case Some(r) => pending + [r]
  }

  lemma RequestsWith(items: seq<Bytes>, request: Option<Request>)
    requires AllRequests(items)
    ensures AllRequests(items + MessagesFor(request))
    ensures RequestsIn(items + MessagesFor(request)) == WaitingWith(RequestsIn(items), request)
  {
    hide AllRequests, RequestsIn, EncodeRequest;
    if request.None? {
      assert items + [] == items;
    } else {
      RequestsAppend(items, request.value);
    }
  }

  lemma CallKeepsSystem(draw: Draw, start: Chain<GameData>, c: GameConfig, d: GameData, request: Option<Request>)
    requires SystemInv(draw, start, c) && CommitCount(c.events) < U32_LIMIT
    requires PushAll(c.chain.kv, MessagesFor(request)).1.Pass?
    requires GameInv(draw, d, WaitingWith(RequestsIn(QueueAfter(c.events).items), request))
    ensures SystemInv(draw, start, Apply(OnMessageReceived, c, CallContract(d, MessagesFor(request))))
  {
    hide Inv, Apply, GameInv, AnswersAll, PushAll, QueueAfter, SystemInv, RequestsIn, AllRequests, MessagesFor,
         WaitingWith, WorkersAnswer;
    var step: Step<GameData> := CallContract(d, MessagesFor(request));
    var c' := Apply(OnMessageReceived, c, step);
    SystemParts(draw, start, c);
    ApplyKeepsInv(OnMessageReceived, start, c, step);
    PolledPrefix(start, c);
    HistoryOnCall(c.events, d, MessagesFor(request));
    CallEvents(c, d, MessagesFor(request));
    SameWorkersAnswer(draw, c, c');
    RequestsWith(QueueAfter(c.events).items, request);
    SystemFromParts(draw, start, c');
  }

  lemma WorkerAnswers(draw: Draw, c: GameConfig, w: WorkerId)
    requires WorkersAnswer(draw, c)
    ensures AnswersAll(draw, Polls(c.WorkerAt(w).trace), c.WorkerAt(w).session.actions)
  {
    hide AnswersAll;
  }

  lemma SameWorkersAnswer(draw: Draw, c: GameConfig, c': GameConfig)
    requires WorkersAnswer(draw, c) && c'.workers == c.workers
    ensures WorkersAnswer(draw, c')
  {
    hide AnswersAll;
    forall w ensures AnswersAll(draw, Polls(c'.WorkerAt(w).trace), c'.WorkerAt(w).session.actions) {
      assert AnswersAll(draw, Polls(c.WorkerAt(w).trace), c.WorkerAt(w).session.actions);
    }
  }

  lemma SystemFromParts(draw: Draw, start: Chain<GameData>, c: GameConfig)
    requires Inv(OnMessageReceived, start, c) && WorkersAnswer(draw, c)
    requires AllRequests(QueueAfter(c.events).items)
    requires GameInv(draw, c.chain.app, RequestsIn(QueueAfter(c.events).items))
    requires AnswersAll(draw, PolledBy(c.events), RepliesBy(c.events))
    ensures SystemInv(draw, start, c)
  {
    hide Inv, AnswersAll, QueueAfter, GameInv, AllRequests, RequestsIn, WorkersAnswer;
  }

  lemma PolledPrefix(start: Chain<GameData>, c: GameConfig)
    requires Inv(OnMessageReceived, start, c)
    ensures PolledBy(c.events) <= PushedBy(c.events)
  {
  }

  lemma CallEvents(c: GameConfig, d: GameData, messages: seq<Bytes>)
    requires PushAll(c.chain.kv, messages).1.Pass?
    ensures var c' := Apply(OnMessageReceived, c, CallContract(d, messages));
            && c'.chain.app == d && c'.workers == c.workers
            && c'.events == c.events + [ContractCalled(d, messages)]
            && PolledBy(c'.events) == PolledBy(c.events) && RepliesBy(c'.events) == RepliesBy(c.events)
  {
    hide PushAll;
    var c' := Apply(OnMessageReceived, c, CallContract(d, messages));
    assert c'.events[..|c.events|] == c.events;
  }

  lemma StartNewGameKeeps(draw: Draw, start: Chain<GameData>, c: GameConfig, player: Address, min: U16, max: U16)
    requires SystemInv(draw, start, c) && CommitCount(c.events) < U32_LIMIT
    ensures SystemInv(draw, start, GameApply(draw, c, StartNewGame(player, min, max)))
  {
    hide Inv, AnswersAll, QueueAfter, Apply, StartInner, GameInv, SystemInv;
    if StartInner(c.chain.app, player, min, max).1.Pass? {
      var d := StartInner(c.chain.app, player, min, max).0;
      SingleStep(c, CallContract(d, []));
      SystemParts(draw, start, c);
      StartKeepsInv(draw, c.chain.app, RequestsIn(QueueAfter(c.events).items), player, min, max);
      CallKeepsSystem(draw, start, c, d, None);
    } else {
      assert StepsOf(draw, c, StartNewGame(player, min, max)) == [];
    }
  }

  lemma SystemParts(draw: Draw, start: Chain<GameData>, c: GameConfig)
    requires SystemInv(draw, start, c)
    ensures Inv(OnMessageReceived, start, c) && WorkersAnswer(draw, c)
    ensures AllRequests(QueueAfter(c.events).items)
    ensures GameInv(draw, c.chain.app, RequestsIn(QueueAfter(c.events).items))
    ensures AnswersAll(draw, PolledBy(c.events), RepliesBy(c.events))
  {
    hide Inv, AnswersAll, QueueAfter, GameInv;
  }

  /** An accepted guess changes the player's game and pushes its request. */
  lemma GuessPasses(c: GameConfig, player: Address, guess: U16)
    requires GuessInner(c.chain, player, guess).1.Pass?
    ensures player in c.chain.app.games
    ensures var g := c.chain.app.games[player];
            && !g.gameOver && g.attempt + 1 < U32_LIMIT
            && GuessInner(c.chain, player, guess).0.app == Guessed(c.chain.app, player, guess)
            && PushAll(c.chain.kv, [EncodeRequest(RequestFor(g, player, g.attempt + 1, guess))]).1.Pass?
            && PushAll(c.chain.kv, [EncodeRequest(RequestFor(g, player, g.attempt + 1, guess))]).0 ==
               GuessInner(c.chain, player, guess).0.kv
  {
    hide MessageQueue.Push, EncodeRequest;
    var g := c.chain.app.games[player];
    var m := EncodeRequest(RequestFor(g, player, g.attempt + 1, guess));
    var none: seq<Bytes> := [];
    assert [m][..0] == none;
    assert PushAll(c.chain.kv, none) == (c.chain.kv, Pass);
  }

  lemma MakeGuessKeeps(draw: Draw, start: Chain<GameData>, c: GameConfig, player: Address, guess: U16)
    requires SystemInv(draw, start, c) && CommitCount(c.events) < U32_LIMIT
    ensures SystemInv(draw, start, GameApply(draw, c, MakeGuess(player, guess)))
  {
    hide Inv, AnswersAll, QueueAfter, Apply, GuessInner, GameInv, SystemInv, PushAll, EncodeRequest;
    if GuessInner(c.chain, player, guess).1.Pass? {
      GuessPasses(c, player, guess);
      var g, d := c.chain.app.games[player], Guessed(c.chain.app, player, guess);
      var r := RequestFor(g, player, g.attempt + 1, guess);
      SingleStep(c, CallContract(d, [EncodeRequest(r)]));
      SystemParts(draw, start, c);
      GuessKeepsInv(draw, c.chain.app, RequestsIn(QueueAfter(c.events).items), player, guess);
      CallKeepsSystem(draw, start, c, d, Some(r));
    } else {
      assert StepsOf(draw, c, MakeGuess(player, guess)) == [];
    }
  }

  /** What a commit that changes anything does to the games: the answers to the polled requests, in order. */
  lemma CommitAnswers(draw: Draw, start: Chain<GameData>, c: GameConfig, w: WorkerId, attestor: Address)
    requires SystemInv(draw, start, c) && CommitCount(c.events) < U32_LIMIT
    requires Apply(OnMessageReceived, c, Commit(w, attestor)) != c
    ensures var c', wk := Apply(OnMessageReceived, c, Commit(w, attestor)), c.WorkerAt(w);
            var pending := RequestsIn(QueueAfter(c.events).items);
            && |wk.session.actions| <= |pending|
            && (forall i | 0 <= i < |wk.session.actions| :: Answers(draw, pending[i], wk.session.actions[i]))
            && FoldReplies(OnMessageReceived, c.chain.app, wk.session.actions) == Ok(c'.chain.app)
            && |Polls(wk.trace)| == |wk.session.actions|
            && Polls(wk.trace) <= QueueAfter(c.events).items
            && c'.workers == c.workers
            && c'.events == c.events + [SessionCommitted(attestor, CommitCount(c.events), wk.trace, wk.session.actions)]
  {
    SystemParts(draw, start, c);
    hide Inv, QueueAfter, Apply, GameInv, SystemInv, AtomicSession, FoldReplies, OnMessageReceived, PollsArePrefix,
         DecodeRequest, Answers, StoreOk;
    CommitApplies(OnMessageReceived, start, c, w, attestor);
    var wk, items := c.WorkerAt(w), QueueAfter(c.events).items;
    assert AnswersAll(draw, Polls(wk.trace), wk.session.actions);
    forall i | 0 <= i < |wk.session.actions|
      ensures Answers(draw, RequestsIn(items)[i], wk.session.actions[i])
    {
      assert items[i] == Polls(wk.trace)[i];
    }
  }

  lemma CommitKeeps(draw: Draw, start: Chain<GameData>, c: GameConfig, w: WorkerId, attestor: Address)
    requires SystemInv(draw, start, c) && CommitCount(c.events) < U32_LIMIT
    ensures SystemInv(draw, start, GameApply(draw, c, CommitSession(w, attestor)))
  {
    hide SystemInv, Apply, Exec;
    SingleStep(c, Commit(w, attestor));
    if Apply(OnMessageReceived, c, Commit(w, attestor)) != c {
      TakenCommitKeeps(draw, start, c, w, attestor);
    }
  }

  lemma TakenCommitKeeps(draw: Draw, start: Chain<GameData>, c: GameConfig, w: WorkerId, attestor: Address)
    requires SystemInv(draw, start, c) && CommitCount(c.events) < U32_LIMIT
    requires Apply(OnMessageReceived, c, Commit(w, attestor)) != c
    ensures SystemInv(draw, start, Apply(OnMessageReceived, c, Commit(w, attestor)))
  {
    hide Inv, QueueAfter, Apply, GameInv, FoldReplies, OnMessageReceived, Answers, DecodeRequest, RequestsIn, AllRequests,
         AnswersAll, WorkersAnswer, SystemInv, Polls, PolledBy, PushedBy, RepliesBy;
    SystemParts(draw, start, c);
    var c' := Apply(OnMessageReceived, c, Commit(w, attestor));
    var wk, q := c.WorkerAt(w), QueueAfter(c.events);
    ApplyKeepsInv(OnMessageReceived, start, c, Commit(w, attestor));
    CommitAnswers(draw, start, c, w, attestor);
    PolledPrefix(start, c);
    HistoryOnCommit(c.events, attestor, wk.trace, wk.session.actions);
    RepliesOnCommit(c.events, c'.events[|c.events|]);
    AnswersFold(draw, c.chain.app, RequestsIn(q.items), wk.session.actions);
    RequestsDrop(q.items, |Polls(wk.trace)|);
    WorkerAnswers(draw, c, w);
    AnswersAppend(draw, PolledBy(c.events), RepliesBy(c.events), Polls(wk.trace), wk.session.actions);
    SameWorkersAnswer(draw, c, c');
    SystemFromParts(draw, start, c');
  }

  lemma RepliesOnCommit<H>(events: seq<Event<H>>, event: Event<H>)
    requires event.SessionCommitted?
    ensures PolledBy(events + [event]) == PolledBy(events) + Polls(event.trace)
    ensures RepliesBy(events + [event]) == RepliesBy(events) + event.replies
  {
    hide Polls;
    assert (events + [event])[..|events|] == events;
  }

  lemma SameContractKeeps(draw: Draw, start: Chain<GameData>, c: GameConfig, c': GameConfig)
    requires SystemInv(draw, start, c)
    requires Inv(OnMessageReceived, start, c') && WorkersAnswer(draw, c')
    requires c'.chain == c.chain && c'.events == c.events
    ensures SystemInv(draw, start, c')
  {
    hide Inv, GameInv, AnswersAll, QueueAfter, RequestsIn, AllRequests;
  }

  lemma QuietKeeps(draw: Draw, start: Chain<GameData>, c: GameConfig, step: Step<GameData>)
    requires SystemInv(draw, start, c) && CommitCount(c.events) < U32_LIMIT
    requires step.Begin? || step.Abandon? || step.AskTail? || step.AskHead?
    ensures SystemInv(draw, start, Exec(OnMessageReceived, c, [step]))
  {
    hide Inv, Apply, WorkerStep, GamesOk, AnswersAll;
    SingleStep(c, step);
    OwnStepEffect(OnMessageReceived, c, step);
    QuietStepAnswers(draw, c, step);
    ApplyKeepsInv(OnMessageReceived, start, c, step);
    SameContractKeeps(draw, start, c, Apply(OnMessageReceived, c, step));
  }

  lemma PollKeeps(draw: Draw, start: Chain<GameData>, c: GameConfig, w: WorkerId, maxAttempts: U32)
    requires SystemInv(draw, start, c) && CommitCount(c.events) < U32_LIMIT
    ensures SystemInv(draw, start, GameApply(draw, c, PollAndAnswer(w, maxAttempts)))
  {
    hide Inv, Apply, Exec, WorkerStep, GamesOk, AnswersAll, PollSteps;
    PollLeavesContract(draw, c, w, maxAttempts);
    PollAndAnswerKeeps(draw, c, w, maxAttempts);
    GameStepsAllowed(draw, c, PollAndAnswer(w, maxAttempts));
    StepsKeepInv(OnMessageReceived, start, c, PollSteps(draw, c, w, maxAttempts));
    SameContractKeeps(draw, start, c, Exec(OnMessageReceived, c, PollSteps(draw, c, w, maxAttempts)));
  }

  lemma AccountsKeep(draw: Draw, start: Chain<GameData>, c: GameConfig, roles: Roles, nonces: Nonces)
    requires SystemInv(draw, start, c) && CommitCount(c.events) < U32_LIMIT
    ensures SystemInv(draw, start, GameApply(draw, c, SetAccounts(roles, nonces)))
  {
    var step: Step<GameData> := ChangeAccounts(roles, nonces);
    hide Inv, Apply, GameInv, AnswersAll, QueueAfter, RequestsIn, AllRequests, Exec, SystemInv;
    var c' := Apply(OnMessageReceived, c, step);
    SingleStep(c, step);
    SystemParts(draw, start, c);
    ApplyKeepsInv(OnMessageReceived, start, c, step);
    PolledPrefix(start, c);
    HistoryOnAccounts(c.events, roles, nonces);
    AccountsEvents(c, roles, nonces);
    SameWorkersAnswer(draw, c, c');
    SystemFromParts(draw, start, c');
  }

  lemma AccountsEvents(c: GameConfig, roles: Roles, nonces: Nonces)
    ensures var c' := Apply(OnMessageReceived, c, ChangeAccounts(roles, nonces));
            && c'.chain.app == c.chain.app && c'.workers == c.workers
            && c'.events == c.events + [AccountsChanged(roles, nonces)]
            && PolledBy(c'.events) == PolledBy(c.events) && RepliesBy(c'.events) == RepliesBy(c.events)
  {
    var c' := Apply(OnMessageReceived, c, ChangeAccounts(roles, nonces));
    assert c'.events[..|c.events|] == c.events;
  }

  lemma GameStepKeeps(draw: Draw, start: Chain<GameData>, c: GameConfig, step: GameStep)
    requires SystemInv(draw, start, c) && CommitCount(c.events) < U32_LIMIT
    ensures SystemInv(draw, start, GameApply(draw, c, step))
  {
    hide SystemInv, Exec, StartInner, GuessInner, PollSteps;
    match step
    case StartNewGame(player, min, max) => StartNewGameKeeps(draw, start, c, player, min, max);
    case MakeGuess(player, guess) => MakeGuessKeeps(draw, start, c, player, guess);
    case BeginSession(w) => QuietKeeps(draw, start, c, Begin(w));
    case DropSession(w) => QuietKeeps(draw, start, c, Abandon(w));
    case PollTail(w) => QuietKeeps(draw, start, c, AskTail(w));
    case PollHead(w) => QuietKeeps(draw, start, c, AskHead(w));
    case PollAndAnswer(w, maxAttempts) => PollKeeps(draw, start, c, w, maxAttempts);
    case CommitSession(w, attestor) => CommitKeeps(draw, start, c, w, attestor);
    case SetAccounts(roles, nonces) => AccountsKeep(draw, start, c, roles, nonces);
  }
}
