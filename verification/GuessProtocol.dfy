/**
  Contract, queue and workers of guess-the-number together. Each step of the game is one or
  two steps of the rollup protocol, so every run of the game is a schedule of that protocol.
 */
module GuessProtocol {
  import opened ByteCodec
  import opened KvStore
  import opened AccessControl
  import opened RollupClient
  import opened Session
  import opened SessionCache
  import opened Protocol
  import opened Serializability
  import opened GuessMessages
  import opened GuessTheNumber
  import opened GuessInvariant

  type GameConfig = Config<GameData>

  /** The worker polls and answers; maxAttempts is what its lookup returned for that answer. */
  datatype GameStep =
    | StartNewGame(player: Address, min: U16, max: U16)
    | MakeGuess(player: Address, guess: U16)
    | BeginSession(w: WorkerId)
    | DropSession(w: WorkerId)
    | PollTail(w: WorkerId)
    | PollHead(w: WorkerId)
    | PollAndAnswer(w: WorkerId, maxAttempts: U32)
    | CommitSession(w: WorkerId, attestor: Address)
    | SetAccounts(roles: Roles, nonces: Nonces)

  /** The last read of a poll, with the game's own decoder. */
  function Ask(w: WorkerId): Step<GameData> {
    AskMessage(w, IsRequest)
  }

  /** The protocol steps a poll and its answer amount to; an answer that cannot be given ends the session. */
  function PollSteps(draw: Draw, c: GameConfig, w: WorkerId, maxAttempts: U32): seq<Step<GameData>> {
    var before, after := c.WorkerAt(w).trace, Apply(OnMessageReceived, c, Ask(w)).WorkerAt(w).trace;
    if |after| <= |before| || !after[|after| - 1].Poll? then [Ask(w)] else
    match DecodeRequest(after[|after| - 1].message)
    case None => [Abandon(w)]
    case Some(r) =>
      match ResponseTo(draw, r, maxAttempts)
      case Err(_) => [Abandon(w)]
      case Ok(response) => [Ask(w), AddReply(w, EncodeResponse(response))]
  }

  function StepsOf(draw: Draw, c: GameConfig, step: GameStep): seq<Step<GameData>> {
    match step
    case StartNewGame(player, min, max) =>
      (match StartInner(c.chain.app, player, min, max)
       case (_, Fail(_)) => []
       case (d, Pass) => [CallContract(d, [])])
    case MakeGuess(player, guess) =>
      (match GuessInner(c.chain, player, guess)
       case (_, Fail(_)) => []
       case (s, Pass) =>
         var g := c.chain.app.games[player];
         [CallContract(s.app, [EncodeRequest(RequestFor(g, player, g.attempt + 1, guess))])])
    case BeginSession(w) => [Begin(w)]
    case DropSession(w) => [Abandon(w)]
    case PollTail(w) => [AskTail(w)]
    case PollHead(w) => [AskHead(w)]
    case PollAndAnswer(w, maxAttempts) => PollSteps(draw, c, w, maxAttempts)
    case CommitSession(w, attestor) => [Commit(w, attestor)]
    case SetAccounts(roles, nonces) => [ChangeAccounts(roles, nonces)]
  }

  function GameApply(draw: Draw, c: GameConfig, step: GameStep): GameConfig {
    Exec(OnMessageReceived, c, StepsOf(draw, c, step))
  }

  function GameStart(roles: Roles): GameConfig {
    Initial(roles, map[], NO_GAMES)
  }

  /**
    A run: the configurations the game passes through from deployment, one for each step and
    one more, with fewer than 2^32 sessions committed in all.
   */
  ghost predicate GameRun(draw: Draw, roles: Roles, steps: seq<GameStep>, run: seq<GameConfig>) {
    && |run| == |steps| + 1
    && run[0] == GameStart(roles)
    && (forall i {:trigger steps[i]} | 0 <= i < |steps| :: run[i + 1] == GameApply(draw, run[i], steps[i]))
    && CommitCount(run[|steps|].events) < U32_LIMIT
  }

  // ---------- the invariant ----------

  const NO_REQUEST: Request := Request(0, 0, 0, ZERO_ADDRESS, 0, 0)

  /** The requests behind the queue's messages. */
  function RequestsIn(items: seq<Bytes>): (r: seq<Request>)
    ensures |r| == |items|
    ensures forall i | 0 <= i < |items| && DecodeRequest(items[i]).Some? :: r[i] == DecodeRequest(items[i]).value
  {
    seq(|items|, i requires 0 <= i < |items| =>
      match DecodeRequest(items[i]) case Some(request) => request case None => NO_REQUEST)
  }

  ghost predicate AllRequests(items: seq<Bytes>) {
    forall i | 0 <= i < |items| :: DecodeRequest(items[i]).Some?
  }

  /** One answer for each polled message, in order. */
  ghost predicate AnswersAll(draw: Draw, messages: seq<Bytes>, replies: seq<Bytes>) {
    && |messages| == |replies|
    && forall i | 0 <= i < |messages| ::
         DecodeRequest(messages[i]).Some? && Answers(draw, DecodeRequest(messages[i]).value, replies[i])
  }

  /** All replies delivered by committed sessions, in order. */
  function RepliesBy<H>(events: seq<Event<H>>): seq<Bytes> {
    if events == [] then [] else
    var front, last := RepliesBy(events[..|events| - 1]), events[|events| - 1];
    if last.SessionCommitted? then front + last.replies else front
  }

  ghost predicate WorkersAnswer(draw: Draw, c: GameConfig) {
    forall w :: AnswersAll(draw, Polls(c.WorkerAt(w).trace), c.WorkerAt(w).session.actions)
  }

  ghost predicate GamesOk(draw: Draw, c: GameConfig) {
    var items := QueueAfter(c.events).items;
    && AllRequests(items)
    && GameInv(draw, c.chain.app, RequestsIn(items))
    && AnswersAll(draw, PolledBy(c.events), RepliesBy(c.events))
  }

  ghost predicate SystemInv(draw: Draw, start: Chain<GameData>, c: GameConfig) {
    && Inv(OnMessageReceived, start, c)
    && GamesOk(draw, c)
    && WorkersAnswer(draw, c)
  }

  // ---------- single protocol steps ----------

  lemma SingleStep(c: GameConfig, step: Step<GameData>)
    ensures Exec(OnMessageReceived, c, [step]) == Apply(OnMessageReceived, c, step)
  {
    hide Apply;
    assert [step][..0] == [];
    assert Exec(OnMessageReceived, c, []) == c;
  }

  lemma TwoSteps(c: GameConfig, one: Step<GameData>, two: Step<GameData>)
    ensures Exec(OnMessageReceived, c, [one, two]) == Apply(OnMessageReceived, Apply(OnMessageReceived, c, one), two)
  {
    hide Apply;
    assert [one, two][..1] == [one];
    SingleStep(c, one);
  }

  // ---------- the workers ----------

  /** The steps other than polling neither poll nor answer; a new session has done neither. */
  lemma QuietStep(wk: Worker, kv: Store, commits: nat, step: Step<GameData>)
    requires step.Begin? || step.Abandon? || step.AskTail? || step.AskHead?
    ensures var wk' := WorkerStep(wk, kv, commits, step);
            if step.Begin? || step.Abandon? then Polls(wk'.trace) == [] && wk'.session.actions == []
            else wk'.trace == wk.trace && wk'.session.actions == wk.session.actions
  {
    match step
    case Begin(_) => BeginsQuiet(kv);
    case Abandon(_) =>
    case AskTail(_) => hide RemoteIndex;
    case AskHead(_) => hide RemoteIndex;
  }

  lemma BeginsQuiet(kv: Store)
    ensures StartSession(kv).0.actions == []
    ensures Polls([Read(VERSION_KEY, Get(kv, VERSION_KEY))]) == []
  {
    hide DecodeU32;
    var op := Read(VERSION_KEY, Get(kv, VERSION_KEY));
    assert [] + [op] == [op];
    PollsUnchanged([], op);
  }

  lemma QuietStepAnswers(draw: Draw, c: GameConfig, step: Step<GameData>)
    requires step.Begin? || step.Abandon? || step.AskTail? || step.AskHead?
    requires WorkersAnswer(draw, c)
    ensures WorkersAnswer(draw, Apply(OnMessageReceived, c, step))
  {
    hide WorkerStep, Apply, DecodeRequest, Answers;
    var c' := Apply(OnMessageReceived, c, step);
    OwnStepEffect(OnMessageReceived, c, step);
    QuietStep(c.WorkerAt(step.w), c.chain.kv, CommitCount(c.events), step);
    forall v ensures AnswersAll(draw, Polls(c'.WorkerAt(v).trace), c'.WorkerAt(v).session.actions) {
      assert AnswersAll(draw, Polls(c.WorkerAt(v).trace), c.WorkerAt(v).session.actions);
    }
  }

  lemma OneMoreAnswer(draw: Draw, messages: seq<Bytes>, replies: seq<Bytes>, message: Bytes, reply: Bytes)
    requires AnswersAll(draw, messages, replies)
    requires DecodeRequest(message).Some? && Answers(draw, DecodeRequest(message).value, reply)
    ensures AnswersAll(draw, messages + [message], replies + [reply])
  {
    hide DecodeRequest, Answers;
  }

  lemma AnswersAppend(draw: Draw, ms: seq<Bytes>, rs: seq<Bytes>, ms': seq<Bytes>, rs': seq<Bytes>)
    requires AnswersAll(draw, ms, rs) && AnswersAll(draw, ms', rs')
    ensures AnswersAll(draw, ms + ms', rs + rs')
  {
    hide DecodeRequest, Answers;
    var all, replies := ms + ms', rs + rs';
    forall i | 0 <= i < |all|
      ensures DecodeRequest(all[i]).Some? && Answers(draw, DecodeRequest(all[i]).value, replies[i])
    {
      if i >= |ms| {
        assert all[i] == ms'[i - |ms|] && replies[i] == rs'[i - |ms|];
      }
    }
  }

  /** What asking for the message does to a worker. */
  lemma AskMessageOutcome(wk: Worker, kv: Store, commits: nat, w: WorkerId)
    ensures var wk' := WorkerStep<GameData>(wk, kv, commits, Ask(w));
            && wk'.session.actions == wk.session.actions
            && (wk'.trace == wk.trace || wk'.trace == wk.trace + [Empty] || exists m :: wk'.trace == wk.trace + [Poll(m)])
  {
  }

  /** The message was polled and this is the answer to it under the limit. */
  ghost predicate AnsweredBy(
      draw: Draw, c: GameConfig, w: WorkerId, maxAttempts: U32, m: Bytes, steps: seq<Step<GameData>>)
  {
    && Apply(OnMessageReceived, c, Ask(w)).WorkerAt(w).trace == c.WorkerAt(w).trace + [Poll(m)]
    && DecodeRequest(m).Some?
    && ResponseTo(draw, DecodeRequest(m).value, maxAttempts).Ok?
    && steps == [Ask(w), AddReply(w, EncodeResponse(ResponseTo(draw, DecodeRequest(m).value, maxAttempts).value))]
  }

  /** A poll ends the session, finds nothing, or is answered. */
  lemma PollCases(draw: Draw, c: GameConfig, w: WorkerId, maxAttempts: U32)
    ensures var steps, before := PollSteps(draw, c, w, maxAttempts), c.WorkerAt(w).trace;
            var after := Apply(OnMessageReceived, c, Ask(w)).WorkerAt(w).trace;
            || steps == [Abandon(w)]
            || (steps == [Ask(w)] && (after == before || after == before + [Empty]))
            || exists m :: AnsweredBy(draw, c, w, maxAttempts, m, steps)
  {
    hide WorkerStep, Apply, DecodeRequest, EncodeResponse, ResponseTo;
    var wk, asked := c.WorkerAt(w), Apply(OnMessageReceived, c, Ask(w)).WorkerAt(w);
    OwnStepEffect(OnMessageReceived, c, Ask(w));
    AskMessageOutcome(wk, c.chain.kv, CommitCount(c.events), w);
    if m :| asked.trace == wk.trace + [Poll(m)] {
      assert asked.trace[|asked.trace| - 1] == Poll(m);
      if PollSteps(draw, c, w, maxAttempts) != [Abandon(w)] {
        assert AnsweredBy(draw, c, w, maxAttempts, m, PollSteps(draw, c, w, maxAttempts));
      }
    }
  }

  lemma PollAndAnswerKeeps(draw: Draw, c: GameConfig, w: WorkerId, maxAttempts: U32)
    requires WorkersAnswer(draw, c)
    ensures WorkersAnswer(draw, Exec(OnMessageReceived, c, PollSteps(draw, c, w, maxAttempts)))
  {
    hide WorkerStep, Apply, Exec, DecodeRequest, EncodeResponse, ResponseTo, Answers, PollSteps, AnsweredBy, WorkersAnswer,
         CommitCount;
    var asked, steps := Apply(OnMessageReceived, c, Ask(w)), PollSteps(draw, c, w, maxAttempts);
    OwnStepEffect(OnMessageReceived, c, Ask(w));
    AskMessageOutcome(c.WorkerAt(w), c.chain.kv, CommitCount(c.events), w);
    PollCases(draw, c, w, maxAttempts);
    if steps == [Abandon(w)] {
      SingleStep(c, Abandon(w));
      QuietStepAnswers(draw, c, Abandon(w));
    } else if m :| AnsweredBy(draw, c, w, maxAttempts, m, steps) {
      AnsweredKeeps(draw, c, w, maxAttempts, m, steps);
    } else {
      SingleStep(c, Ask(w));
      PollsUnchanged(c.WorkerAt(w).trace, Empty);
      NothingPolled(draw, c, asked, w);
    }
  }

  lemma AnsweredKeeps(
      draw: Draw, c: GameConfig, w: WorkerId, maxAttempts: U32, m: Bytes, steps: seq<Step<GameData>>)
    requires WorkersAnswer(draw, c) && AnsweredBy(draw, c, w, maxAttempts, m, steps)
    ensures WorkersAnswer(draw, Exec(OnMessageReceived, c, steps))
  {
    hide WorkerStep, Apply, Exec, DecodeRequest, EncodeResponse, ResponseTo, Answers, WorkersAnswer, CommitCount;
    var asked := Apply(OnMessageReceived, c, Ask(w));
    var r := DecodeRequest(m).value;
    var reply := EncodeResponse(ResponseTo(draw, r, maxAttempts).value);
    OwnStepEffect(OnMessageReceived, c, Ask(w));
    AskMessageOutcome(c.WorkerAt(w), c.chain.kv, CommitCount(c.events), w);
    TwoSteps(c, Ask(w), AddReply(w, reply));
    AnswerGiven(draw, r, maxAttempts);
    AnsweredPoll(draw, c, asked, w, m, reply);
  }

  lemma AnswerGiven(draw: Draw, r: Request, maxAttempts: U32)
    requires ResponseTo(draw, r, maxAttempts).Ok?
    ensures Answers(draw, r, EncodeResponse(ResponseTo(draw, r, maxAttempts).value))
  {
    hide EncodeResponse, ResponseTo;
  }

  lemma NothingPolled(draw: Draw, c: GameConfig, asked: GameConfig, w: WorkerId)
    requires WorkersAnswer(draw, c)
    requires forall v | v != w :: asked.WorkerAt(v) == c.WorkerAt(v)
    requires Polls(asked.WorkerAt(w).trace) == Polls(c.WorkerAt(w).trace)
    requires asked.WorkerAt(w).session.actions == c.WorkerAt(w).session.actions
    ensures WorkersAnswer(draw, asked)
  {
    hide AnswersAll;
    forall v ensures AnswersAll(draw, Polls(asked.WorkerAt(v).trace), asked.WorkerAt(v).session.actions) {
      assert AnswersAll(draw, Polls(c.WorkerAt(v).trace), c.WorkerAt(v).session.actions);
    }
  }

  lemma AnsweredPoll(draw: Draw, c: GameConfig, asked: GameConfig, w: WorkerId, m: Bytes, reply: Bytes)
    requires WorkersAnswer(draw, c)
    requires forall v | v != w :: asked.WorkerAt(v) == c.WorkerAt(v)
    requires asked.WorkerAt(w).trace == c.WorkerAt(w).trace + [Poll(m)]
    requires asked.WorkerAt(w).session.actions == c.WorkerAt(w).session.actions
    requires DecodeRequest(m).Some? && Answers(draw, DecodeRequest(m).value, reply)
    ensures WorkersAnswer(draw, Apply(OnMessageReceived, asked, AddReply(w, reply)))
  {
    hide Apply, Answers, DecodeRequest, Polls;
    var c' := Apply(OnMessageReceived, asked, AddReply(w, reply));
    var wk := c.WorkerAt(w);
    OwnStepEffect(OnMessageReceived, asked, AddReply(w, reply));
    assert AnswersAll(draw, Polls(wk.trace), wk.session.actions);
    OneMoreAnswer(draw, Polls(wk.trace), wk.session.actions, m, reply);
    PollsOneMore(wk.trace, m);
    hide AnswersAll;
    forall v ensures AnswersAll(draw, Polls(c'.WorkerAt(v).trace), c'.WorkerAt(v).session.actions) {
      if v != w {
        assert AnswersAll(draw, Polls(c.WorkerAt(v).trace), c.WorkerAt(v).session.actions);
      }
    }
  }

  lemma PollsOneMore(trace: seq<Op>, m: Bytes)
    ensures Polls(trace + [Poll(m)]) == Polls(trace) + [m]
  {
    assert (trace + [Poll(m)])[..|trace|] == trace;
  }
}
