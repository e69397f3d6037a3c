/**
  The guess-the-number contract: games per player on top of the rollup contract, and the
  worker's answer to one request. issued and applied record what the contract emits as events:
  every game ever started, in order, and every reply that changed a game.
 */
module GuessTheNumber {
  import opened Wrappers
  import opened ByteCodec
  import opened RollupErrors
  import opened AccessControl
  import opened RollupClient
  import opened GuessMessages
  import RollupContract
  import MetaTransaction
  import Vrf
  import MessageQueue
  import KvStore

  datatype Game = Game(
    gameNumber: U128,
    minNumber: U16,
    maxNumber: U16,
    attempt: U32,
    lastGuess: Option<U16>,
    lastClue: Option<Clue>,
    maxAttempts: Option<U32>,
    gameOver: bool)

  datatype NewGame = NewGame(player: Address, minNumber: U16, maxNumber: U16)

  datatype Applied = Applied(
    gameNumber: U128, player: Address, attempt: U32, guess: U16, clue: Clue, maxAttempts: U32, gameOver: bool,
    target: Option<U16>)

  datatype GameData = GameData(
    nextGameNumber: U128, games: map<Address, Game>, issued: seq<NewGame>, applied: seq<Applied>)

  const NO_GAMES: GameData := GameData(0, map[], [], [])

  datatype GameError =
    | RollupFailure(cause: Error)
    | MinMaxIncorrect
    | GameNumberOverflow
    | AttemptOverflow
    | MissingGame
    | GameIsOver

  // ---------- the players' messages ----------

  /** The new game is stored before its number is known to leave room for the next. */
  function StartInner(d: GameData, player: Address, min: U16, max: U16): (GameData, Outcome<GameError>) {
    if min >= max then (d, Fail(MinMaxIncorrect)) else
    var stored := d.(games := d.games[player := Game(d.nextGameNumber, min, max, 0, None, None, None, false)]);
    if d.nextGameNumber + 1 >= U128_LIMIT then (stored, Fail(GameNumberOverflow))
    else (stored.(nextGameNumber := d.nextGameNumber + 1, issued := d.issued + [NewGame(player, min, max)]), Pass)
  }

  function RequestFor(g: Game, player: Address, attempt: U32, guess: U16): Request {
    Request(g.gameNumber, g.minNumber, g.maxNumber, player, attempt, guess)
  }

  /** A guess is stored, then its request is pushed; the push may still fail. */
  function GuessInner(s: Chain<GameData>, player: Address, guess: U16): (Chain<GameData>, Outcome<GameError>) {
    if player !in s.app.games then (s, Fail(MissingGame)) else
    var g := s.app.games[player];
    if g.gameOver then (s, Fail(GameIsOver))
    else if g.attempt + 1 >= U32_LIMIT then (s, Fail(AttemptOverflow))
    else
      var stored := s.app.(games := s.app.games[player :=
        g.(attempt := g.attempt + 1, lastGuess := Some(guess), lastClue := None)]);
      match MessageQueue.Push(s.kv, EncodeRequest(RequestFor(g, player, g.attempt + 1, guess)))
      case (kv, Err(e)) => (s.(kv := kv, app := stored), Fail(RollupFailure(e)))
      case (kv, Ok(_)) => (s.(kv := kv, app := stored), Pass)
  }

  // ---------- the handler of replies ----------

  /** Only a reply to the player's current game and attempt changes anything. */
  function OnMessageReceived(d: GameData, data: Bytes): Result<GameData, Error> {
    match DecodeResponse(data)
    case None => Err(FailedToDecode)
    case Some(r) =>
      if r.player !in d.games then Err(BusinessError(1)) else
      var g := d.games[r.player];
      if g.gameNumber != r.gameNumber || g.attempt != r.attempt then Ok(d) else
      var over := r.clue == Found || g.attempt >= r.maxAttempts;
      Ok(d.(games := d.games[r.player :=
              g.(maxAttempts := Some(r.maxAttempts), lastGuess := Some(r.guess), lastClue := Some(r.clue), gameOver := over)],
            applied := d.applied + [Applied(r.gameNumber, r.player, r.attempt, r.guess, r.clue, r.maxAttempts, over, r.target)]))
  }

  // ---------- the worker's answer ----------

  /** The keyed derivation of a 32-bit word from game number and player. */
  type Draw = (U128, Address) -> U32

  function Target(draw: Draw, gameNumber: U128, min: U16, max: U16, player: Address): Result<int, Vrf.VrfError> {
    Vrf.RandomNumber(draw(gameNumber, player), 36, min, max)
  }

  function ClueFor(target: int, guess: int): Clue {
    if target == guess then Found else if target > guess then More else Less
  }

  /** The answer to a request; an error when the range is empty. */
  function ResponseTo(draw: Draw, r: Request, maxAttempts: U32): Result<Response, Vrf.VrfError> {
    match Target(draw, r.gameNumber, r.minNumber, r.maxNumber, r.player)
    case Err(e) => Err(e)
    case Ok(target) =>
      var clue := ClueFor(target, r.guess);
      Ok(Response(r.gameNumber, r.player, r.attempt, r.guess, clue, maxAttempts,
                  if clue == Found || r.attempt >= maxAttempts then Some(target) else None))
  }

  /** The number a game's guesses are measured against: the word for game and player, reduced to the bounds. */
  function TargetNumber(draw: Draw, gameNumber: U128, min: U16, max: U16, player: Address): (t: U16)
    requires min < max
    ensures min <= t <= max
  {
    min + draw(gameNumber, player) % (max - min + 1)
  }

  /**
    The bytes answer a request under an attempt limit: they repeat whom and what they answer, tell
    how the guess compares with the target, carry the limit, and name the target when the game is
    won or this was the last attempt.
   */
  ghost predicate AnswersUnder(draw: Draw, r: Request, limit: U32, data: Bytes) {
    && r.minNumber < r.maxNumber
    && DecodeResponse(data).Some?
    && var a := DecodeResponse(data).value;
       var target := TargetNumber(draw, r.gameNumber, r.minNumber, r.maxNumber, r.player);
       && a.gameNumber == r.gameNumber && a.player == r.player && a.attempt == r.attempt && a.guess == r.guess
       && (a.clue == More <==> r.guess < target)
       && (a.clue == Less <==> r.guess > target)
       && a.maxAttempts == limit
       && a.target == if r.guess == target || r.attempt >= limit then Some(target) else None
  }

  /** A request can be answered exactly when its range has two numbers, and then the answer is this one. */
  lemma ResponseMeaning(draw: Draw, r: Request, limit: U32)
    ensures ResponseTo(draw, r, limit).Ok? <==> r.minNumber < r.maxNumber
    ensures ResponseTo(draw, r, limit).Ok? ==> AnswersUnder(draw, r, limit, EncodeResponse(ResponseTo(draw, r, limit).value))
  {
    hide EncodeResponse, DecodeResponse;
    if ResponseTo(draw, r, limit).Ok? {
      ResponseRoundTrip(ResponseTo(draw, r, limit).value);
    }
  }

  // ---------- what a reply does ----------

  /** Bytes that begin with no response are refused. */
  lemma UndecodableReply(d: GameData, data: Bytes)
    ensures OnMessageReceived(d, data) == Err(FailedToDecode) <==> forall r :: !(EncodeResponse(r) <= data)
  {
    hide EncodeResponse, DecodeResponse;
    forall r ensures DecodeResponse(data) == Some(r) <==> EncodeResponse(r) <= data {
      ResponseDecodesExactly(data, r);
    }
  }

  /**
    A response to a player without a game is an error; one to an earlier game or attempt changes
    nothing; one to the present attempt gives that player's game its clue and limit, ends it when
    the number was found or the limit reached, and changes nothing else.
   */
  lemma ReplyMeaning(d: GameData, data: Bytes, r: Response)
    requires EncodeResponse(r) <= data
    ensures r.player !in d.games ==> OnMessageReceived(d, data) == Err(BusinessError(1))
    ensures r.player in d.games ==>
              var g := d.games[r.player];
              var current := g.gameNumber == r.gameNumber && g.attempt == r.attempt;
              var over := r.clue == Found || r.attempt >= r.maxAttempts;
              OnMessageReceived(d, data) == Ok(
                if !current then d else
                GameData(d.nextGameNumber,
                         d.games[r.player := Game(r.gameNumber, g.minNumber, g.maxNumber, r.attempt, Some(r.guess),
                                                  Some(r.clue), Some(r.maxAttempts), over)],
                         d.issued,
                         d.applied + [Applied(r.gameNumber, r.player, r.attempt, r.guess, r.clue, r.maxAttempts, over, r.target)]))
  {
    hide EncodeResponse, DecodeResponse;
    ResponseDecodesExactly(data, r);
  }

  // ---------- which messages of players are accepted ----------

  /** A new game is refused exactly for a range without two numbers or when the numbers of games are used up. */
  lemma StartMeaning(d: GameData, player: Address, min: U16, max: U16)
    ensures var (after, outcome) := StartInner(d, player, min, max);
            && (outcome == if max <= min then Fail(MinMaxIncorrect)
                           else if d.nextGameNumber == U128_LIMIT - 1 then Fail(GameNumberOverflow) else Pass)
            && (outcome.Pass? ==>
                  after == GameData(d.nextGameNumber + 1,
                                    d.games[player := Game(d.nextGameNumber, min, max, 0, None, None, None, false)],
                                    d.issued + [NewGame(player, min, max)], d.applied))
  {
  }

  /**
    A guess is refused exactly without a game, after its end, at the last attempt a u32 can count
    or when the queue's indices are used up. Accepted, it waits at the end of the queue as the
    request for the next attempt.
   */
  lemma GuessMeaning(s: Chain<GameData>, q: MessageQueue.Queue, player: Address, guess: U16)
    requires MessageQueue.Represents(s.kv, q)
    ensures var (after, outcome) := GuessInner(s, player, guess);
            && (outcome == if player !in s.app.games then Fail(MissingGame)
                           else if s.app.games[player].gameOver then Fail(GameIsOver)
                           else if s.app.games[player].attempt == U32_LIMIT - 1 then Fail(AttemptOverflow)
                           else if q.Tail() == U32_LIMIT - 1 then Fail(RollupFailure(QueueIndexOverflow)) else Pass)
            && (outcome.Pass? ==>
                  var g := s.app.games[player];
                  var attempt := g.attempt + 1;
                  && after.app == s.app.(games := s.app.games[player :=
                       Game(g.gameNumber, g.minNumber, g.maxNumber, attempt, Some(guess), None, g.maxAttempts, false)])
                  && after == s.(kv := after.kv, app := after.app)
                  && MessageQueue.Represents(
                       after.kv,
                       MessageQueue.Queue(
                         q.head,
                         q.items + [EncodeRequest(Request(g.gameNumber, g.minNumber, g.maxNumber, player, attempt, guess))]))
                  && MessageQueue.SameOutsideQueue(s.kv, after.kv))
  {
    hide MessageQueue.Push, MessageQueue.Represents, EncodeRequest, MessageQueue.SameOutsideQueue;
    TailBelowLimit(s.kv, q);
    if player in s.app.games && s.app.games[player].attempt + 1 < U32_LIMIT {
      MessageQueue.PushAppends(
        s.kv, q, EncodeRequest(RequestFor(s.app.games[player], player, s.app.games[player].attempt + 1, guess)));
    }
  }

  lemma TailBelowLimit(kv: KvStore.Store, q: MessageQueue.Queue)
    requires MessageQueue.Represents(kv, q)
    ensures q.Tail() < U32_LIMIT
  {
  }

  // ---------- the contract as an object ----------

  class GuessTheNumberContract {
    const rollup: RollupContract.Contract<GameData>

    constructor (deployer: Address, crypto: MetaTransaction.Crypto)
      ensures fresh(rollup)
      ensures rollup.State() == Chain(map[], {(deployer, AdminRole), (deployer, AttestorRole)}, map[], NO_GAMES)
      ensures rollup.onMessageReceived == OnMessageReceived
    {
      rollup := new RollupContract.Contract<GameData>(deployer, NO_GAMES, OnMessageReceived, crypto);
    }

    method StartNewGame(caller: Address, min: U16, max: U16) returns (outcome: Outcome<GameError>)
      modifies rollup
      ensures outcome == StartInner(old(rollup.app), caller, min, max).1
      ensures rollup.State() ==
              if outcome.Pass? then old(rollup.State()).(app := StartInner(old(rollup.app), caller, min, max).0)
              else old(rollup.State())
    {
      if min >= max {
        return Fail(MinMaxIncorrect);
      }
      var saved := rollup.app;
      var number := rollup.app.nextGameNumber;
      rollup.app := rollup.app.(games := rollup.app.games[caller := Game(number, min, max, 0, None, None, None, false)]);
      if number + 1 >= U128_LIMIT {
        rollup.app := saved;
        return Fail(GameNumberOverflow);
      }
      rollup.app := rollup.app.(nextGameNumber := number + 1, issued := rollup.app.issued + [NewGame(caller, min, max)]);
      return Pass;
    }

    method Guess(caller: Address, guess: U16) returns (outcome: Outcome<GameError>)
      modifies rollup
      ensures outcome == GuessInner(old(rollup.State()), caller, guess).1
      ensures rollup.State() ==
              if outcome.Pass? then GuessInner(old(rollup.State()), caller, guess).0 else old(rollup.State())
    {
      if caller !in rollup.app.games {
        return Fail(MissingGame);
      }
      var g := rollup.app.games[caller];
      if g.gameOver {
        return Fail(GameIsOver);
      }
      if g.attempt + 1 >= U32_LIMIT {
        return Fail(AttemptOverflow);
      }
      var saved := (rollup.app, rollup.kv);
      rollup.app := rollup.app.(games := rollup.app.games[caller :=
        g.(attempt := g.attempt + 1, lastGuess := Some(guess), lastClue := None)]);
      var id := rollup.PushMessage(EncodeRequest(RequestFor(g, caller, g.attempt + 1, guess)));
      if id.Err? {
        rollup.app, rollup.kv := saved.0, saved.1;
        return Fail(RollupFailure(id.error));
      }
      return Pass;
    }

    /** on_message_received, step by step on the contract's storage; the rollup is given its specification as a function. */
    method MessageReceived(data: Bytes) returns (outcome: Outcome<Error>)
      modifies rollup
      ensures match OnMessageReceived(old(rollup.app), data)
              case Ok(d) => outcome.Pass? && rollup.State() == old(rollup.State()).(app := d)
              case Err(e) => outcome == Fail(e) && rollup.State() == old(rollup.State())
    {
      var decoded := DecodeResponse(data);
      if decoded.None? {
        return Fail(FailedToDecode);
      }
      var r := decoded.value;
      if r.player !in rollup.app.games {
        return Fail(BusinessError(1));
      }
      var g := rollup.app.games[r.player];
      if g.gameNumber == r.gameNumber && g.attempt == r.attempt {
        var win := r.clue == Found;
        var gameOver := win || g.attempt >= r.maxAttempts;
        var reply := Applied(r.gameNumber, r.player, r.attempt, r.guess, r.clue, r.maxAttempts, gameOver, r.target);
        rollup.app := rollup.app.(
          games := rollup.app.games[r.player :=
            g.(maxAttempts := Some(r.maxAttempts), lastGuess := Some(r.guess), lastClue := Some(r.clue), gameOver := gameOver)],
          applied := rollup.app.applied + [reply]);
      }
      return Pass;
    }
  }
}
