/**
  What guess-the-number promises of every run, as a client of the rollup protocol's
  exactly-once delivery. As there, fewer than 2^32 sessions commit.
 */
module GuessGuarantees {
  import opened Wrappers
  import opened ByteCodec
  import opened KvStore
  import opened AccessControl
  import opened RollupClient
  import opened Session
  import opened SessionCache
  import opened Protocol
  import opened Serializability
  import opened GuessMessages
  import opened GuessTheNumber
  import opened GuessInvariant
  import opened GuessProtocol
  import opened GuessSteps
  import Snapshots
  import MessageQueue
  import Guarantees

  // ---------- runs ----------

  lemma {:induction false} ExecCommitsGrow<H>(handler: Handler<H>, c: Config<H>, steps: seq<Step<H>>)
    ensures CommitCount(c.events) <= CommitCount(Exec(handler, c, steps).events)
  {
    hide Apply;
    if steps != [] {
      ExecCommitsGrow(handler, c, steps[..|steps| - 1]);
      CommitsGrow(handler, Exec(handler, c, steps[..|steps| - 1]), steps[|steps| - 1]);
    }
  }

  lemma {:induction false} FewCommitsSoFar(draw: Draw, roles: Roles, steps: seq<GameStep>, run: seq<GameConfig>, i: nat)
    requires GameRun(draw, roles, steps, run) && i <= |steps|
    ensures CommitCount(run[i].events) < U32_LIMIT
    decreases |steps| - i
  {
    hide StepsOf, Exec;
    if i < |steps| {
      FewCommitsSoFar(draw, roles, steps, run, i + 1);
      assert run[i + 1] == GameApply(draw, run[i], steps[i]);
      ExecCommitsGrow(OnMessageReceived, run[i], StepsOf(draw, run[i], steps[i]));
    }
  }

  /** The invariant holds all along every run. */
  lemma {:induction false} RunKeepsInv(draw: Draw, roles: Roles, steps: seq<GameStep>, run: seq<GameConfig>, i: nat)
    requires GameRun(draw, roles, steps, run) && i <= |steps|
    ensures SystemInv(draw, GameStart(roles).chain, run[i]) && CommitCount(run[i].events) < U32_LIMIT
  {
    hide GameApply, SystemInv, CommitCount;
    FewCommitsSoFar(draw, roles, steps, run, i);
    if i == 0 {
      StartsWell(draw, roles);
    } else {
      RunKeepsInv(draw, roles, steps, run, i - 1);
      assert run[i - 1 + 1] == GameApply(draw, run[i - 1], steps[i - 1]);
      GameStepKeeps(draw, GameStart(roles).chain, run[i - 1], steps[i - 1]);
    }
  }

  lemma StartsWell(draw: Draw, roles: Roles)
    ensures SystemInv(draw, GameStart(roles).chain, GameStart(roles))
  {
    hide Inv, GameInv;
    InitialInv(OnMessageReceived, roles, map[], NO_GAMES);
    NoGamesInv(draw);
    assert RequestsIn([]) == [];
  }

  /** The protocol's schedule behind the first steps of a run. */
  function Schedule(draw: Draw, steps: seq<GameStep>, run: seq<GameConfig>, n: nat): seq<Step<GameData>>
    requires n <= |steps| <= |run|
  {
    if n == 0 then [] else Schedule(draw, steps, run, n - 1) + StepsOf(draw, run[n - 1], steps[n - 1])
  }

  /**
    Every run of the game is a schedule of the rollup protocol that writes no reserved key, so
    whatever the protocol guarantees of its schedules holds of the game.
   */
  lemma {:induction false} RunIsSchedule(draw: Draw, roles: Roles, steps: seq<GameStep>, run: seq<GameConfig>, n: nat)
    requires GameRun(draw, roles, steps, run) && n <= |steps|
    ensures Reaches(OnMessageReceived, roles, map[], NO_GAMES, Schedule(draw, steps, run, n), run[n])
  {
    hide StepsOf, Apply, CommitCount;
    FewCommitsSoFar(draw, roles, steps, run, n);
    if n > 0 {
      RunIsSchedule(draw, roles, steps, run, n - 1);
      assert run[n - 1 + 1] == GameApply(draw, run[n - 1], steps[n - 1]);
      GameStepsAllowed(draw, run[n - 1], steps[n - 1]);
      Guarantees.ExecAppend(
        OnMessageReceived, GameStart(roles), Schedule(draw, steps, run, n - 1), StepsOf(draw, run[n - 1], steps[n - 1]));
    }
  }

  // ---------- a finished game stays finished ----------

  /** A message of the contract changes at most its sender's game, and no guess a finished one. */
  lemma CallLeavesOthers(draw: Draw, c: GameConfig, step: GameStep, p: Address)
    requires p in c.chain.app.games
    requires step.StartNewGame? || step.MakeGuess?
    requires step.player == p ==> step.MakeGuess? && c.chain.app.games[p].gameOver
    ensures var d := GameApply(draw, c, step).chain.app;
            p in d.games && d.games[p] == c.chain.app.games[p]
  {
    hide PushAll, EncodeRequest, MessageQueue.Push;
    var steps := StepsOf(draw, c, step);
    if steps != [] {
      SingleStep(c, steps[0]);
      assert steps == [steps[0]];
    }
  }

  /** A worker's step changes no game that already has its clue. */
  lemma WorkerLeavesClued(draw: Draw, start: Chain<GameData>, c: GameConfig, step: GameStep, p: Address)
    requires SystemInv(draw, start, c) && CommitCount(c.events) < U32_LIMIT
    requires !step.StartNewGame? && !step.MakeGuess?
    requires p in c.chain.app.games && c.chain.app.games[p].lastClue.Some?
    ensures var d := GameApply(draw, c, step).chain.app;
            p in d.games && d.games[p] == c.chain.app.games[p]
  {
    hide SystemInv, Apply, Exec, PollSteps;
    match step
    case PollAndAnswer(w, maxAttempts) => PollLeavesContract(draw, c, w, maxAttempts);
    case CommitSession(w, attestor) => CommitLeavesClued(draw, start, c, w, attestor, p);
    case SetAccounts(roles, nonces) =>
      var change: Step<GameData> := ChangeAccounts(roles, nonces);
      SingleStep(c, change);
      AccountsEvents(c, roles, nonces);
    case BeginSession(w) => QuietLeavesContract(c, Begin(w));
    case DropSession(w) => QuietLeavesContract(c, Abandon(w));
    case PollTail(w) => QuietLeavesContract(c, AskTail(w));
    case PollHead(w) => QuietLeavesContract(c, AskHead(w));
  }

  lemma CommitLeavesClued(draw: Draw, start: Chain<GameData>, c: GameConfig, w: WorkerId, attestor: Address, p: Address)
    requires SystemInv(draw, start, c) && CommitCount(c.events) < U32_LIMIT
    requires p in c.chain.app.games && c.chain.app.games[p].lastClue.Some?
    ensures var d := Exec(OnMessageReceived, c, [Commit(w, attestor)]).chain.app;
            p in d.games && d.games[p] == c.chain.app.games[p]
  {
    hide SystemInv, Apply, Exec, GameInv, FoldReplies, QueueAfter, Answers, OnMessageReceived, AllRequests, AnswersAll,
         WorkersAnswer, Inv, CommitCount;
    SingleStep(c, Commit(w, attestor));
    if Apply(OnMessageReceived, c, Commit(w, attestor)) != c {
      SystemParts(draw, start, c);
      CommitAnswers(draw, start, c, w, attestor);
      AnswersFold(draw, c.chain.app, RequestsIn(QueueAfter(c.events).items), c.WorkerAt(w).session.actions);
    }
  }

  lemma QuietLeavesContract(c: GameConfig, step: Step<GameData>)
    requires step.Begin? || step.Abandon? || step.AskTail? || step.AskHead?
    ensures Exec(OnMessageReceived, c, [step]).chain == c.chain
  {
    hide WorkerStep;
    SingleStep(c, step);
    OwnStepEffect(OnMessageReceived, c, step);
  }

  /**
    A finished game stays finished, exactly as it ended, whatever players and workers go on to
    do: until its own player starts a new one.
   */
  lemma {:induction false} FinishedStaysFinished(
      draw: Draw, roles: Roles, steps: seq<GameStep>, run: seq<GameConfig>, i: nat, j: nat, p: Address)
    requires GameRun(draw, roles, steps, run) && i <= j <= |steps|
    requires p in run[i].chain.app.games && run[i].chain.app.games[p].gameOver
    requires forall k | i <= k < j && steps[k].StartNewGame? :: steps[k].player != p
    ensures p in run[j].chain.app.games && run[j].chain.app.games[p] == run[i].chain.app.games[p]
  {
    hide GameApply, SystemInv, CommitCount;
    if i < j {
      FinishedStaysFinished(draw, roles, steps, run, i, j - 1, p);
      RunKeepsInv(draw, roles, steps, run, j - 1);
      assert run[j - 1 + 1] == GameApply(draw, run[j - 1], steps[j - 1]);
      StepLeavesFinished(draw, GameStart(roles).chain, run[j - 1], steps[j - 1], p);
    }
  }

  lemma StepLeavesFinished(draw: Draw, start: Chain<GameData>, c: GameConfig, step: GameStep, p: Address)
    requires SystemInv(draw, start, c) && CommitCount(c.events) < U32_LIMIT
    requires p in c.chain.app.games && c.chain.app.games[p].gameOver
    requires step.StartNewGame? ==> step.player != p
    ensures var d := GameApply(draw, c, step).chain.app;
            p in d.games && d.games[p] == c.chain.app.games[p]
  {
    hide SystemInv, GameApply;
    if step.StartNewGame? || step.MakeGuess? {
      CallLeavesOthers(draw, c, step, p);
    } else {
      SystemParts(draw, start, c);
      assert GameOk(c.chain.app, p);
      WorkerLeavesClued(draw, start, c, step, p);
    }
  }

  // ---------- no reply spoils a commit ----------

  lemma RepliesAreAccepted(draw: Draw, start: Chain<GameData>, c: GameConfig, w: WorkerId, attestor: Address)
    requires SystemInv(draw, start, c) && CommitCount(c.events) < U32_LIMIT
    requires c.WorkerAt(w).session.version.Some?
    requires (attestor, AttestorRole) in c.chain.roles && ReadsCurrent(c.chain.kv, c.WorkerAt(w).trace)
    ensures FoldReplies(OnMessageReceived, c.chain.app, c.WorkerAt(w).session.actions).Ok?
  {
    SystemParts(draw, start, c);
    hide SystemInv, Apply, RollupInner, FoldReplies, AtomicSession, AtomicRun, StoreOk, ConditionsMet, QueueAfter, ParamsOf,
         GameInv, Answers, DecodeRequest, OnMessageReceived;
    var wk, q, n := c.WorkerAt(w), QueueAfter(c.events), CommitCount(c.events);
    assert WorkerOk(q, n, wk);
    ConditionsAreReads(c.chain.kv, wk.session.values);
    CommitIsAtomic(OnMessageReceived, c.chain, q, n, wk, attestor);
    assert AnswersAll(draw, Polls(wk.trace), wk.session.actions);
    forall i | 0 <= i < |wk.session.actions|
      ensures Answers(draw, RequestsIn(q.items)[i], wk.session.actions[i])
    {
      assert q.items[i] == Polls(wk.trace)[i];
    }
    AnswersFold(draw, c.chain.app, RequestsIn(q.items), wk.session.actions);
  }

  /** A session of the game reads nothing but the version and writes nothing. */
  ghost predicate VersionOnly(s: SessionState) {
    s.updates.entries == map[] && forall k | k in s.values.entries :: k == VERSION_KEY
  }

  ghost predicate ReadsVersionOnly(c: GameConfig) {
    forall w :: VersionOnly(c.WorkerAt(w).session)
  }

  lemma WorkerReadsVersionOnly(wk: Worker, kv: Store, commits: nat, step: Step<GameData>)
    requires !step.ReadValue? && !step.WriteValue? && VersionOnly(wk.session)
    ensures VersionOnly(WorkerStep(wk, kv, commits, step).session)
  {
    if step.Begin? {
      hide DecodeU32, Get;
    } else if !step.Abandon? {
      hide WorkerStep;
      Snapshots.ValuesStay(wk, kv, commits, step);
    }
  }

  lemma StepReadsVersionOnly(c: GameConfig, step: Step<GameData>)
    requires !step.ReadValue? && !step.WriteValue? && ReadsVersionOnly(c)
    ensures ReadsVersionOnly(Apply(OnMessageReceived, c, step))
  {
    hide WorkerStep, Rollup, PushAll, CommitParams, VersionOnly;
    var c' := Apply(OnMessageReceived, c, step);
    if OwnStep(step) {
      OwnStepEffect(OnMessageReceived, c, step);
      WorkerReadsVersionOnly(c.WorkerAt(step.w), c.chain.kv, CommitCount(c.events), step);
    } else {
      assert c'.workers == c.workers;
    }
    forall w ensures VersionOnly(c'.WorkerAt(w).session) {
      assert (OwnStep(step) && w == step.w) || c'.WorkerAt(w) == c.WorkerAt(w);
    }
  }

  lemma {:induction false} StepsReadVersionOnly(c: GameConfig, steps: seq<Step<GameData>>)
    requires ReadsVersionOnly(c) && forall i | 0 <= i < |steps| :: !steps[i].ReadValue? && !steps[i].WriteValue?
    ensures ReadsVersionOnly(Exec(OnMessageReceived, c, steps))
  {
    hide Apply, ReadsVersionOnly;
    if steps != [] {
      StepsReadVersionOnly(c, steps[..|steps| - 1]);
      StepReadsVersionOnly(Exec(OnMessageReceived, c, steps[..|steps| - 1]), steps[|steps| - 1]);
    }
  }

  lemma GameStepsReadNothing(draw: Draw, c: GameConfig, step: GameStep)
    ensures forall i | 0 <= i < |StepsOf(draw, c, step)| ::
              !StepsOf(draw, c, step)[i].ReadValue? && !StepsOf(draw, c, step)[i].WriteValue?
  {
    hide Apply, DecodeRequest, ResponseTo, EncodeResponse, StartInner, GuessInner;
  }

  lemma {:induction false} RunReadsVersionOnly(draw: Draw, roles: Roles, steps: seq<GameStep>, run: seq<GameConfig>, n: nat)
    requires GameRun(draw, roles, steps, run) && n <= |steps|
    ensures ReadsVersionOnly(run[n])
  {
    hide StepsOf, Exec, CommitCount;
    if n > 0 {
      RunReadsVersionOnly(draw, roles, steps, run, n - 1);
      assert run[n - 1 + 1] == GameApply(draw, run[n - 1], steps[n - 1]);
      GameStepsReadNothing(draw, run[n - 1], steps[n - 1]);
      StepsReadVersionOnly(run[n - 1], StepsOf(draw, run[n - 1], steps[n - 1]));
    }
  }

  /**
    No request poisons the queue. A worker's commit is accepted exactly when its session is started
    and has polled anything, its attestor has the role and no other session has committed since it
    started: the contract never refuses a reply to a queued request, and of any concurrent sessions
    the first to commit gets through.
   */
  lemma NoPoison(draw: Draw, roles: Roles, steps: seq<GameStep>, run: seq<GameConfig>, n: nat, w: WorkerId, attestor: Address)
    requires GameRun(draw, roles, steps, run) && n <= |steps|
    ensures var wk := run[n].WorkerAt(w);
            GameApply(draw, run[n], CommitSession(w, attestor)) != run[n] <==>
              && wk.session.version.Some? && Polls(wk.trace) != []
              && (attestor, AttestorRole) in run[n].chain.roles && wk.startedAt == CommitCount(run[n].events)
  {
    hide SystemInv, Reaches, ReadsVersionOnly, GameApply, CommitCount;
    RunKeepsInv(draw, roles, steps, run, n);
    RunIsSchedule(draw, roles, steps, run, n);
    RunReadsVersionOnly(draw, roles, steps, run, n);
    CommitsInTime(draw, roles, Schedule(draw, steps, run, n), run[n], w, attestor);
  }

  lemma CommitsInTime(draw: Draw, roles: Roles, schedule: seq<Step<GameData>>, c: GameConfig, w: WorkerId, attestor: Address)
    requires Reaches(OnMessageReceived, roles, map[], NO_GAMES, schedule, c) && ReadsVersionOnly(c)
    requires SystemInv(draw, GameStart(roles).chain, c)
    ensures var wk := c.WorkerAt(w);
            GameApply(draw, c, CommitSession(w, attestor)) != c <==>
              && wk.session.version.Some? && Polls(wk.trace) != []
              && (attestor, AttestorRole) in c.chain.roles && wk.startedAt == CommitCount(c.events)
  {
    hide SystemInv, Apply, Exec, ReadsCurrent, FoldReplies, Inv, WorkersOk, StoreOk, WorkerOk, AtomicRun, QueueAfter, CommitCount,
         Snapshots.VersionHolds, Snapshots.ViewsOk, HasWork, AllAllowed;
    var start, wk := GameStart(roles).chain, c.WorkerAt(w);
    ReachedKeepsInv(OnMessageReceived, roles, map[], NO_GAMES, schedule, c);
    SingleStep(c, Commit(w, attestor));
    Guarantees.SessionHoldsReplies(OnMessageReceived, roles, map[], NO_GAMES, schedule, c, w);
    Snapshots.CommitAcceptedExactlyWhenVersionHolds(OnMessageReceived, roles, map[], NO_GAMES, schedule, c, w, attestor);
    if wk.session.version.Some? {
      Snapshots.ViewsOnSchedules(OnMessageReceived, roles, map[], NO_GAMES, schedule);
      InvParts(OnMessageReceived, start, c);
      OneWorkerOk(QueueAfter(c.events), CommitCount(c.events), c, w);
      VersionKeyIsNotQueueKey();
      Snapshots.VersionHoldsExactlyWhenNotOvertaken(c.chain.kv, QueueAfter(c.events), CommitCount(c.events), wk);
      Snapshots.CurrentExactlyWhenVersionHolds(OnMessageReceived, start, c, w);
      WorkIsPolling(draw, start, c, w);
      if (attestor, AttestorRole) in c.chain.roles && wk.startedAt == CommitCount(c.events) {
        RepliesAreAccepted(draw, start, c, w, attestor);
      }
    }
  }

  /** A session of the game has something to commit exactly when it has polled a request. */
  lemma WorkIsPolling(draw: Draw, start: Chain<GameData>, c: GameConfig, w: WorkerId)
    requires SystemInv(draw, start, c) && ReadsVersionOnly(c) && c.WorkerAt(w).session.version.Some?
    ensures HasWork(c.WorkerAt(w).trace, c.WorkerAt(w).session.actions) <==> Polls(c.WorkerAt(w).trace) != []
  {
    SystemParts(draw, start, c);
    InvParts(OnMessageReceived, start, c);
    OneWorkerOk(QueueAfter(c.events), CommitCount(c.events), c, w);
    hide SystemInv, Inv, UpdatesOf, Polls, CacheOk, PollsArePrefix, QueueAfter, CommitCount, WorkersOk, StoreOk;
    assert VersionOnly(c.WorkerAt(w).session);
    WorkerAnswers(draw, c, w);
  }

  /** The queue's messages in a run: those pushed and not yet polled by a committed session. */
  function Waiting(c: GameConfig): seq<Bytes> {
    QueueAfter(c.events).items
  }

  /** Whatever limit the worker looks up, it can answer each waiting request, and the contract takes the answer. */
  lemma WaitingRequestsAreAnswerable(draw: Draw, roles: Roles, steps: seq<GameStep>, run: seq<GameConfig>, n: nat, i: nat, maxAttempts: U32)
    requires GameRun(draw, roles, steps, run) && n <= |steps| && i < |Waiting(run[n])|
    ensures var request := DecodeRequest(Waiting(run[n])[i]);
            && request.Some?
            && var answer := ResponseTo(draw, request.value, maxAttempts);
               answer.Ok? &&
               forall data | DecodeResponse(data) == Some(answer.value) :: OnMessageReceived(run[n].chain.app, data).Ok?
  {
    hide SystemInv, DecodeResponse, DecodeRequest, QueueAfter;
    RunKeepsInv(draw, roles, steps, run, n);
    var c := run[n];
    SystemParts(draw, GameStart(roles).chain, c);
    var r := RequestsIn(Waiting(c))[i];
    assert RequestOk(c.chain.app, r);
    WaitingCanBeAnswered(draw, c.chain.app, r, maxAttempts);
  }

  // ---------- players' messages ----------

  /** A message of the contract's own as a step of the protocol. */
  lemma CallChanges(c: GameConfig, d: GameData, messages: seq<Bytes>)
    requires PushAll(c.chain.kv, messages).1.Pass?
    requires PolledBy(c.events) <= PushedBy(c.events)
    ensures var c' := Exec(OnMessageReceived, c, [CallContract(d, messages)]);
            && c' != c
            && c'.chain == c.chain.(kv := PushAll(c.chain.kv, messages).0, app := d)
            && c'.workers == c.workers
            && Waiting(c') == Waiting(c) + messages
  {
    hide PushAll, Exec, PolledBy, PushedBy, CommitCount, StartsInOrder;
    SingleStep(c, CallContract(d, messages));
    HistoryOnCall(c.events, d, messages);
  }

  lemma NothingPushed(kv: Store)
    ensures PushAll(kv, []) == (kv, Pass)
  {
  }

  /**
    At every point of every run a new game is accepted exactly for a range of two numbers or more,
    until the numbers of games are used up. It replaces its player's game by a fresh one with the
    next number, and changes nothing else.
   */
  lemma StartAcceptedExactlyWhen(
      draw: Draw, roles: Roles, steps: seq<GameStep>, run: seq<GameConfig>, n: nat, p: Address, min: U16, max: U16)
    requires GameRun(draw, roles, steps, run) && n <= |steps|
    ensures var c, c' := run[n], GameApply(draw, run[n], StartNewGame(p, min, max));
            var d := c.chain.app;
            && (c' != c <==> min < max && |d.issued| < U128_LIMIT - 1)
            && (c' != c ==>
                  && |d.issued| < U128_LIMIT
                  && c'.chain == c.chain.(app := GameData(
                       |d.issued| + 1, d.games[p := Game(|d.issued|, min, max, 0, None, None, None, false)],
                       d.issued + [NewGame(p, min, max)], d.applied))
                  && c'.workers == c.workers && Waiting(c') == Waiting(c))
  {
    hide SystemInv, Inv, GameApply, QueueAfter, StartInner, Exec, PushAll, CommitCount, GameInv;
    var c := run[n];
    RunKeepsInv(draw, roles, steps, run, n);
    SystemParts(draw, GameStart(roles).chain, c);
    PolledPrefix(GameStart(roles).chain, c);
    NumbersSoFar(draw, c.chain.app, RequestsIn(QueueAfter(c.events).items));
    StartMeaning(c.chain.app, p, min, max);
    NothingPushed(c.chain.kv);
    CallChanges(c, StartInner(c.chain.app, p, min, max).0, []);
    StartCall(draw, c, p, min, max);
    assert Waiting(c) + [] == Waiting(c);
  }

  lemma NumbersSoFar(draw: Draw, d: GameData, pending: seq<Request>)
    requires GameInv(draw, d, pending)
    ensures d.nextGameNumber == |d.issued|
  {
  }

  lemma StartCall(draw: Draw, c: GameConfig, p: Address, min: U16, max: U16)
    ensures var (d, outcome) := StartInner(c.chain.app, p, min, max);
            GameApply(draw, c, StartNewGame(p, min, max)) ==
            if outcome.Pass? then Exec(OnMessageReceived, c, [CallContract(d, [])]) else c
  {
    hide StartInner, Apply;
    assert Exec(OnMessageReceived, c, []) == c;
  }

  lemma GuessCall(draw: Draw, c: GameConfig, p: Address, guess: U16)
    ensures var (s, outcome) := GuessInner(c.chain, p, guess);
            GameApply(draw, c, MakeGuess(p, guess)) ==
            if outcome.Fail? then c else
            var g := c.chain.app.games[p];
            Exec(OnMessageReceived, c, [CallContract(s.app, [EncodeRequest(RequestFor(g, p, g.attempt + 1, guess))])])
  {
    hide Apply, EncodeRequest, MessageQueue.Push;
    assert Exec(OnMessageReceived, c, []) == c;
  }

  /** The player has a game that is not over, with an attempt left that a u32 can count, and the queue an index. */
  predicate MayGuess(c: GameConfig, p: Address) {
    var d := c.chain.app;
    && p in d.games && !d.games[p].gameOver && d.games[p].attempt < U32_LIMIT - 1
    && |PushedBy(c.events)| < U32_LIMIT - 1
  }

  /** One attempt more, without a clue yet, and its request last in the queue; nothing else changes. */
  predicate GuessLeaves(c: GameConfig, p: Address, guess: U16, c': GameConfig)
    requires MayGuess(c, p)
  {
    var d := c.chain.app;
    var g := d.games[p];
    && c'.chain == c.chain.(
         kv := c'.chain.kv,
         app := d.(games := d.games[p :=
           Game(g.gameNumber, g.minNumber, g.maxNumber, g.attempt + 1, Some(guess), None, g.maxAttempts, false)]))
    && c'.workers == c.workers
    && Waiting(c') ==
       Waiting(c) + [EncodeRequest(Request(g.gameNumber, g.minNumber, g.maxNumber, p, g.attempt + 1, guess))]
  }

  /**
    At every point of every run a guess is accepted exactly when its player has a game that is not
    over, with an attempt left that a u32 can count, and fewer than 2^32 - 1 requests were ever
    pushed. It then counts one attempt more, stands without a clue, and its request is the last in
    the queue; nothing else changes.
   */
  lemma GuessAcceptedExactlyWhen(
      draw: Draw, roles: Roles, steps: seq<GameStep>, run: seq<GameConfig>, n: nat, p: Address, guess: U16)
    requires GameRun(draw, roles, steps, run) && n <= |steps|
    ensures var c, c' := run[n], GameApply(draw, run[n], MakeGuess(p, guess));
            (c' != c <==> MayGuess(c, p)) && (c' != c ==> GuessLeaves(c, p, guess, c'))
  {
    hide SystemInv, Inv, GameApply, QueueAfter, CommitCount, MayGuess, GuessLeaves, StoreOk, PolledBy, PushedBy;
    var c := run[n];
    RunKeepsInv(draw, roles, steps, run, n);
    SystemParts(draw, GameStart(roles).chain, c);
    PolledPrefix(GameStart(roles).chain, c);
    InvParts(OnMessageReceived, GameStart(roles).chain, c);
    QueueOfRun(c);
    GuessTakes(draw, c, p, guess);
  }

  lemma GuessTakes(draw: Draw, c: GameConfig, p: Address, guess: U16)
    requires MessageQueue.Represents(c.chain.kv, QueueAfter(c.events)) && PolledBy(c.events) <= PushedBy(c.events)
    requires QueueAfter(c.events).Tail() == |PushedBy(c.events)| < U32_LIMIT
    ensures var c' := GameApply(draw, c, MakeGuess(p, guess));
            (c' != c <==> MayGuess(c, p)) && (c' != c ==> GuessLeaves(c, p, guess, c'))
  {
    hide GameApply, QueueAfter, GuessInner, Exec, PushAll, CommitCount, EncodeRequest, PolledBy, PushedBy,
         MessageQueue.Represents;
    GuessMeaning(c.chain, QueueAfter(c.events), p, guess);
    GuessCall(draw, c, p, guess);
    if GuessInner(c.chain, p, guess).1.Pass? {
      GuessPasses(c, p, guess);
      var g := c.chain.app.games[p];
      CallChanges(c, GuessInner(c.chain, p, guess).0.app, [EncodeRequest(RequestFor(g, p, g.attempt + 1, guess))]);
    }
  }

  lemma QueueOfRun(c: GameConfig)
    requires StoreOk(c.chain.kv, QueueAfter(c.events), CommitCount(c.events))
    requires PolledBy(c.events) <= PushedBy(c.events)
    ensures MessageQueue.Represents(c.chain.kv, QueueAfter(c.events))
    ensures QueueAfter(c.events).Tail() == |PushedBy(c.events)| < U32_LIMIT
  {
    hide PolledBy, PushedBy, CommitCount;
  }

  // ---------- clues ----------

  /** The message is a request for the player's current game and attempt. */
  predicate AsksFor(message: Bytes, g: Game, p: Address) {
    match DecodeRequest(message)
    case None => false
    case Some(r) => r.player == p && r.gameNumber == g.gameNumber && r.attempt == g.attempt
  }

  /** A game is without a clue exactly when nothing was guessed yet or its last guess still waits in the queue. */
  lemma PendingClueAccuracy(draw: Draw, roles: Roles, steps: seq<GameStep>, run: seq<GameConfig>, n: nat, p: Address)
    requires GameRun(draw, roles, steps, run) && n <= |steps| && p in run[n].chain.app.games
    ensures var g := run[n].chain.app.games[p];
            g.lastClue.None? <==> g.lastGuess.None? || exists i :: 0 <= i < |Waiting(run[n])| && AsksFor(Waiting(run[n])[i], g, p)
  {
    hide SystemInv, DecodeRequest, QueueAfter, HistoryOk, AppliedOk, RequestOk, Distinct;
    RunKeepsInv(draw, roles, steps, run, n);
    var c := run[n];
    SystemParts(draw, GameStart(roles).chain, c);
    var d, items := c.chain.app, Waiting(c);
    assert GameOk(d, p) && ClueOk(d, RequestsIn(items), p);
    if i :| 0 <= i < |items| && AsksFor(items[i], d.games[p], p) {
      assert Current(d, RequestsIn(items)[i]);
    }
    if IsWaiting(d, RequestsIn(items), p) {
      var i :| 0 <= i < |items| && RequestsIn(items)[i].player == p && Current(d, RequestsIn(items)[i]);
      assert AsksFor(items[i], d.games[p], p);
    }
  }

  /** What an applied reply claims is true of this target. */
  predicate TruthfulAbout(target: int, a: Applied) {
    && (a.clue == More <==> a.guess < target)
    && (a.clue == Less <==> a.guess > target)
    && (a.clue == Found <==> a.guess == target)
    && (a.target.Some? ==> a.target.value == target)
  }

  /** The number a started game is about. */
  function TargetOfGame(draw: Draw, gameNumber: U128, game: NewGame): U16
    requires game.minNumber < game.maxNumber
  {
    TargetNumber(draw, gameNumber, game.minNumber, game.maxNumber, game.player)
  }

  ghost predicate OneTarget(target: int, applied: seq<Applied>, gameNumber: nat) {
    forall i | 0 <= i < |applied| && applied[i].gameNumber == gameNumber :: TruthfulAbout(target, applied[i])
  }

  /**
    All clues ever applied to a game agree with one number within its bounds, the word drawn for the
    game's own number and player reduced to them; a reply names that number exactly when it ends the
    game, and ends it when the guess was that number.
   */
  lemma ClueConsistency(draw: Draw, roles: Roles, steps: seq<GameStep>, run: seq<GameConfig>, n: nat, gameNumber: nat)
    requires GameRun(draw, roles, steps, run) && n <= |steps|
    requires gameNumber < |run[n].chain.app.issued|
    ensures var d := run[n].chain.app;
            && gameNumber < U128_LIMIT && d.issued[gameNumber].minNumber < d.issued[gameNumber].maxNumber
            && OneTarget(TargetOfGame(draw, gameNumber, d.issued[gameNumber]), d.applied, gameNumber)
            && (forall a | a in d.applied && a.gameNumber == gameNumber ::
                  (a.gameOver <==> a.target.Some?) && (a.clue == Found ==> a.gameOver))
  {
    hide SystemInv, QueueAfter;
    RunKeepsInv(draw, roles, steps, run, n);
    var c := run[n];
    SystemParts(draw, GameStart(roles).chain, c);
    TargetsAgree(draw, c.chain.app, RequestsIn(QueueAfter(c.events).items), gameNumber);
  }

  lemma TargetsAgree(draw: Draw, d: GameData, pending: seq<Request>, gameNumber: nat)
    requires GameInv(draw, d, pending) && gameNumber < |d.issued|
    ensures gameNumber < U128_LIMIT && d.issued[gameNumber].minNumber < d.issued[gameNumber].maxNumber
    ensures OneTarget(TargetOfGame(draw, gameNumber, d.issued[gameNumber]), d.applied, gameNumber)
    ensures forall a | a in d.applied && a.gameNumber == gameNumber ::
              (a.gameOver <==> a.target.Some?) && (a.clue == Found ==> a.gameOver)
  {
    hide HistoryOk, GameOk, RequestOk, ClueOk;
    var target := TargetOf(draw, d, gameNumber);
    assert target == TargetOfGame(draw, gameNumber, d.issued[gameNumber]);
    assert OneTarget(target, d.applied, gameNumber) by {
      forall j | 0 <= j < |d.applied| && d.applied[j].gameNumber == gameNumber
        ensures TruthfulAbout(target, d.applied[j])
      {
        assert AppliedOk(draw, d, d.applied[j]);
      }
    }
  }

  /**
    What a game shows is one applied reply's word; over all replies ever applied to a game the
    attempts increase, so no attempt is answered twice, and none follows the one that ended it.
   */
  lemma CluesAreApplied(draw: Draw, roles: Roles, steps: seq<GameStep>, run: seq<GameConfig>, n: nat, p: Address)
    requires GameRun(draw, roles, steps, run) && n <= |steps| && p in run[n].chain.app.games
    requires run[n].chain.app.games[p].lastClue.Some?
    ensures var d := run[n].chain.app;
            (exists i :: 0 <= i < |d.applied| && Shows(d.applied[i], d.games[p])) && InOrder(d.applied)
  {
    hide SystemInv, QueueAfter;
    RunKeepsInv(draw, roles, steps, run, n);
    var c := run[n];
    SystemParts(draw, GameStart(roles).chain, c);
    assert ClueShown(c.chain.app, p);
  }

  /**
    A game is over exactly when its last guess has a clue that says it was right or that its attempt
    has reached the limit the game shows, which is the limit of the applied reply.
   */
  lemma GameOverExactlyWhen(draw: Draw, roles: Roles, steps: seq<GameStep>, run: seq<GameConfig>, n: nat, p: Address)
    requires GameRun(draw, roles, steps, run) && n <= |steps| && p in run[n].chain.app.games
    ensures var g := run[n].chain.app.games[p];
            && (g.lastClue.Some? ==> g.maxAttempts.Some?)
            && (g.gameOver <==> g.lastClue.Some? && (g.lastClue == Some(Found) || g.attempt >= g.maxAttempts.value))
  {
    hide SystemInv, QueueAfter;
    RunKeepsInv(draw, roles, steps, run, n);
    var c := run[n];
    SystemParts(draw, GameStart(roles).chain, c);
    OverWhenShown(draw, c.chain.app, RequestsIn(QueueAfter(c.events).items), p);
  }

  lemma OverWhenShown(draw: Draw, d: GameData, pending: seq<Request>, p: Address)
    requires GameInv(draw, d, pending) && p in d.games
    ensures var g := d.games[p];
            && (g.lastClue.Some? ==> g.maxAttempts.Some?)
            && (g.gameOver <==> g.lastClue.Some? && (g.lastClue == Some(Found) || g.attempt >= g.maxAttempts.value))
  {
    hide ClueOk, RequestOk, Distinct, TargetOf, ClueFor;
    assert GameOk(d, p) && ClueShown(d, p);
    if d.games[p].lastClue.Some? {
      var i :| 0 <= i < |d.applied| && Shows(d.applied[i], d.games[p]);
      assert AppliedOk(draw, d, d.applied[i]);
    }
  }

  // ---------- game numbers ----------

  /** Numbers are issued from 0 without a gap, each to one game, and two players never share one. */
  lemma GameNumbersAreDistinct(draw: Draw, roles: Roles, steps: seq<GameStep>, run: seq<GameConfig>, n: nat, p: Address, q: Address)
    requires GameRun(draw, roles, steps, run) && n <= |steps|
    requires p in run[n].chain.app.games && q in run[n].chain.app.games
    ensures var d := run[n].chain.app;
            var g := d.games[p];
            && d.nextGameNumber == |d.issued|
            && g.gameNumber < d.nextGameNumber
            && d.issued[g.gameNumber] == NewGame(p, g.minNumber, g.maxNumber)
            && (p != q ==> g.gameNumber != d.games[q].gameNumber)
  {
    hide SystemInv, QueueAfter;
    RunKeepsInv(draw, roles, steps, run, n);
    var c := run[n];
    SystemParts(draw, GameStart(roles).chain, c);
    assert GameOk(c.chain.app, p) && GameOk(c.chain.app, q);
  }

  // ---------- one response per request ----------

  /** The stored head counts the replies ever delivered, the stored tail the requests ever pushed. */
  lemma RepliesCountPops(draw: Draw, roles: Roles, steps: seq<GameStep>, run: seq<GameConfig>, n: nat)
    requires GameRun(draw, roles, steps, run) && n <= |steps|
    ensures MessageQueue.ReadIndex(run[n].chain.kv, MessageQueue.HEAD_KEY) == Ok(|RepliesBy(run[n].events)|)
    ensures MessageQueue.ReadIndex(run[n].chain.kv, MessageQueue.TAIL_KEY) == Ok(|PushedBy(run[n].events)|)
  {
    hide SystemInv, GameInv, DecodeRequest, Answers, MessageQueue.ReadIndex;
    RunKeepsInv(draw, roles, steps, run, n);
    SystemParts(draw, GameStart(roles).chain, run[n]);
  }

  lemma AnswerHasLimit(draw: Draw, r: Request, data: Bytes)
    requires Answers(draw, r, data)
    ensures exists limit: U32 :: AnswersUnder(draw, r, limit, data)
  {
    hide ResponseTo, EncodeResponse, AnswersUnder;
    var limit: U32 :| ResponseTo(draw, r, limit).Ok? && data == EncodeResponse(ResponseTo(draw, r, limit).value);
    ResponseMeaning(draw, r, limit);
  }

  /**
    Each request is answered exactly once, in order: the i-th reply ever delivered answers the
    i-th request ever pushed.
   */
  lemma EachRequestAnsweredOnce(draw: Draw, roles: Roles, steps: seq<GameStep>, run: seq<GameConfig>, n: nat, i: nat)
    requires GameRun(draw, roles, steps, run) && n <= |steps|
    requires i < |RepliesBy(run[n].events)|
    ensures i < |PushedBy(run[n].events)|
    ensures var request := DecodeRequest(PushedBy(run[n].events)[i]);
            request.Some? && exists limit: U32 :: AnswersUnder(draw, request.value, limit, RepliesBy(run[n].events)[i])
  {
    hide SystemInv, GameInv, DecodeRequest, Answers, AnswersUnder;
    RunKeepsInv(draw, roles, steps, run, n);
    SystemParts(draw, GameStart(roles).chain, run[n]);
    assert PolledBy(run[n].events)[i] == PushedBy(run[n].events)[i];
    AnswerHasLimit(draw, DecodeRequest(PushedBy(run[n].events)[i]).value, RepliesBy(run[n].events)[i]);
  }
}
