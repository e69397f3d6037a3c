/**
  The invariant that ties the games to the requests still waiting in the queue, and what each
  message of the contract does to it.
 */
module GuessInvariant {
  import opened Wrappers
  import opened ByteCodec
  import opened AccessControl
  import opened RollupClient
  import opened GuessMessages
  import opened GuessTheNumber

  /** The game with this number was started by this player with these bounds. */
  ghost predicate IssuedAs(d: GameData, gameNumber: nat, player: Address, min: U16, max: U16) {
    gameNumber < |d.issued| && d.issued[gameNumber] == NewGame(player, min, max) && min < max
  }

  ghost predicate GameOk(d: GameData, p: Address)
    requires p in d.games
  {
    var g := d.games[p];
    && IssuedAs(d, g.gameNumber, p, g.minNumber, g.maxNumber)
    && (g.attempt == 0 <==> g.lastGuess.None?)
    && (g.gameOver ==> g.lastClue.Some?)
  }

  /** The request is for its player's current game and attempt. */
  predicate Current(d: GameData, r: Request) {
    && r.player in d.games
    && d.games[r.player].gameNumber == r.gameNumber
    && d.games[r.player].attempt == r.attempt
  }

  ghost predicate RequestOk(d: GameData, r: Request) {
    && IssuedAs(d, r.gameNumber, r.player, r.minNumber, r.maxNumber)
    && r.attempt > 0
    && r.player in d.games
    && (d.games[r.player].gameNumber == r.gameNumber ==> r.attempt <= d.games[r.player].attempt)
    && (Current(d, r) ==> d.games[r.player].lastGuess == Some(r.guess))
  }

  /** No two waiting requests are for the same attempt of the same game. */
  ghost predicate Distinct(pending: seq<Request>) {
    forall i, j | 0 <= i < j < |pending| ::
      pending[i].gameNumber != pending[j].gameNumber || pending[i].attempt != pending[j].attempt
  }

  ghost predicate IsWaiting(d: GameData, pending: seq<Request>, p: Address) {
    exists i :: 0 <= i < |pending| && pending[i].player == p && Current(d, pending[i])
  }

  /** A clue is missing exactly while there is no guess yet or the current one's request waits. */
  ghost predicate ClueOk(d: GameData, pending: seq<Request>, p: Address)
    requires p in d.games
  {
    d.games[p].lastClue.None? <==> d.games[p].attempt == 0 || IsWaiting(d, pending, p)
  }

  /** The one target of a started game. */
  function TargetOf(draw: Draw, d: GameData, gameNumber: nat): (t: int)
    requires gameNumber < |d.issued| && gameNumber < U128_LIMIT
    requires d.issued[gameNumber].minNumber < d.issued[gameNumber].maxNumber
    ensures d.issued[gameNumber].minNumber <= t <= d.issued[gameNumber].maxNumber
  {
    var g := d.issued[gameNumber];
    Target(draw, gameNumber, g.minNumber, g.maxNumber, g.player).value
  }

  /** An applied reply told the truth about its game's target, and named it exactly when the game ended. */
  ghost predicate AppliedOk(draw: Draw, d: GameData, a: Applied) {
    && a.gameNumber < |d.issued|
    && d.issued[a.gameNumber].player == a.player
    && d.issued[a.gameNumber].minNumber < d.issued[a.gameNumber].maxNumber
    && var target := TargetOf(draw, d, a.gameNumber);
       && a.clue == ClueFor(target, a.guess)
       && (a.gameOver <==> a.target.Some?)
       && (a.gameOver <==> a.clue == Found || a.attempt >= a.maxAttempts)
       && (a.target.Some? ==> a.target.value == target)
       && (a.clue == Found ==> a.gameOver && a.guess == target)
  }

  /** The reply behind the clue a game shows. */
  predicate Shows(a: Applied, g: Game) {
    && a.gameNumber == g.gameNumber && a.attempt == g.attempt
    && g.lastGuess == Some(a.guess) && g.lastClue == Some(a.clue) && g.maxAttempts == Some(a.maxAttempts)
    && g.gameOver == a.gameOver
  }

  ghost predicate ClueShown(d: GameData, p: Address)
    requires p in d.games
  {
    d.games[p].lastClue.Some? ==> exists i :: 0 <= i < |d.applied| && Shows(d.applied[i], d.games[p])
  }

  /** An applied reply to the game its player still has was to this attempt, or an earlier one. */
  predicate AppliedPast(d: GameData, a: Applied) {
    && a.player in d.games
    && var g := d.games[a.player];
       g.gameNumber == a.gameNumber ==>
         a.attempt <= g.attempt && (a.attempt == g.attempt ==> g.lastClue.Some?) && (a.gameOver ==> g.gameOver)
  }

  /** Of two applied replies to one game, the second is to a later attempt and the first did not end the game. */
  ghost predicate InOrder(applied: seq<Applied>) {
    forall i, j | 0 <= i < j < |applied| && applied[i].gameNumber == applied[j].gameNumber ::
      applied[i].attempt < applied[j].attempt && !applied[i].gameOver
  }

  ghost predicate HistoryOk(d: GameData) {
    && (forall p | p in d.games :: ClueShown(d, p))
    && (forall i | 0 <= i < |d.applied| :: AppliedPast(d, d.applied[i]))
    && InOrder(d.applied)
  }

  ghost predicate GameInv(draw: Draw, d: GameData, pending: seq<Request>) {
    && d.nextGameNumber == |d.issued|
    && (forall n | 0 <= n < |d.issued| :: d.issued[n].minNumber < d.issued[n].maxNumber)
    && (forall p | p in d.games :: GameOk(d, p))
    && (forall i | 0 <= i < |pending| :: RequestOk(d, pending[i]))
    && Distinct(pending)
    && (forall p | p in d.games :: ClueOk(d, pending, p))
    && (forall i | 0 <= i < |d.applied| :: AppliedOk(draw, d, d.applied[i]))
    && HistoryOk(d)
  }

  lemma NoGamesInv(draw: Draw)
    ensures GameInv(draw, NO_GAMES, [])
  {
  }

  // ---------- start_new_game ----------

  lemma StartKeepsInv(draw: Draw, d: GameData, pending: seq<Request>, player: Address, min: U16, max: U16)
    requires GameInv(draw, d, pending) && StartInner(d, player, min, max).1.Pass?
    ensures GameInv(draw, StartInner(d, player, min, max).0, pending)
  {
    var d' := StartInner(d, player, min, max).0;
    StartKeepsRequests(draw, d, pending, player, min, max);
    StartKeepsHistory(draw, d, pending, player, min, max);
    hide HistoryOk;
    forall p | p in d'.games ensures GameOk(d', p) && ClueOk(d', pending, p) {
      if p != player {
        assert GameOk(d, p) && ClueOk(d, pending, p);
        assert IsWaiting(d', pending, p) <==> IsWaiting(d, pending, p);
      }
    }
    forall i | 0 <= i < |d'.applied| ensures AppliedOk(draw, d', d'.applied[i]) {
      assert AppliedOk(draw, d, d.applied[i]);
    }
  }

  lemma StartKeepsHistory(draw: Draw, d: GameData, pending: seq<Request>, player: Address, min: U16, max: U16)
    requires GameInv(draw, d, pending) && StartInner(d, player, min, max).1.Pass?
    ensures HistoryOk(StartInner(d, player, min, max).0)
  {
    hide TargetOf, ClueFor, GameOk, RequestOk, Distinct, ClueOk, Shows;
    var d' := StartInner(d, player, min, max).0;
    forall i | 0 <= i < |d.applied| ensures AppliedPast(d', d.applied[i]) {
      assert AppliedPast(d, d.applied[i]) && AppliedOk(draw, d, d.applied[i]);
    }
    forall p | p in d'.games ensures ClueShown(d', p) {
      if p != player {
        assert ClueShown(d, p);
      }
    }
  }

  lemma StartKeepsRequests(draw: Draw, d: GameData, pending: seq<Request>, player: Address, min: U16, max: U16)
    requires GameInv(draw, d, pending) && StartInner(d, player, min, max).1.Pass?
    ensures forall i | 0 <= i < |pending| :: RequestOk(StartInner(d, player, min, max).0, pending[i])
    ensures forall i | 0 <= i < |pending| ::
              Current(StartInner(d, player, min, max).0, pending[i]) <==> Current(d, pending[i]) && pending[i].player != player
  {
    forall i | 0 <= i < |pending|
      ensures RequestOk(StartInner(d, player, min, max).0, pending[i])
      ensures Current(StartInner(d, player, min, max).0, pending[i]) <==> Current(d, pending[i]) && pending[i].player != player
    {
      assert RequestOk(d, pending[i]);
    }
  }

  // ---------- guess ----------

  /** The games after an accepted guess, without the queue. */
  function Guessed(d: GameData, player: Address, guess: U16): GameData
    requires player in d.games && d.games[player].attempt + 1 < U32_LIMIT
  {
    d.(games := d.games[player :=
      d.games[player].(attempt := d.games[player].attempt + 1, lastGuess := Some(guess), lastClue := None)])
  }

  lemma GuessKeepsInv(draw: Draw, d: GameData, pending: seq<Request>, player: Address, guess: U16)
    requires GameInv(draw, d, pending) && player in d.games
    requires !d.games[player].gameOver && d.games[player].attempt + 1 < U32_LIMIT
    ensures GameInv(draw, Guessed(d, player, guess),
                    pending + [RequestFor(d.games[player], player, d.games[player].attempt + 1, guess)])
  {
    var d' := Guessed(d, player, guess);
    var r := RequestFor(d.games[player], player, d.games[player].attempt + 1, guess);
    hide HistoryOk, RequestOk, Distinct, ClueOk, GameOk, AppliedOk, Current;
    GuessKeepsRequests(draw, d, pending, player, guess);
    GuessKeepsHistory(d, player, guess);
    GuessKeepsClues(draw, d, pending, player, guess);
    SameApplied(draw, d, d');
  }

  lemma SameApplied(draw: Draw, d: GameData, d': GameData)
    requires forall i | 0 <= i < |d.applied| :: AppliedOk(draw, d, d.applied[i])
    requires d'.applied == d.applied && d'.issued == d.issued
    ensures forall i | 0 <= i < |d'.applied| :: AppliedOk(draw, d', d'.applied[i])
  {
    hide ClueFor;
    forall i | 0 <= i < |d'.applied| ensures AppliedOk(draw, d', d'.applied[i]) {
      assert AppliedOk(draw, d, d.applied[i]);
    }
  }

  lemma GuessKeepsClues(draw: Draw, d: GameData, pending: seq<Request>, player: Address, guess: U16)
    requires GameInv(draw, d, pending) && player in d.games
    requires !d.games[player].gameOver && d.games[player].attempt + 1 < U32_LIMIT
    ensures var d' := Guessed(d, player, guess);
            var pending' := pending + [RequestFor(d.games[player], player, d.games[player].attempt + 1, guess)];
            forall p | p in d'.games :: GameOk(d', p) && ClueOk(d', pending', p)
  {
    hide HistoryOk, RequestOk, Distinct, AppliedOk;
    var d' := Guessed(d, player, guess);
    var r := RequestFor(d.games[player], player, d.games[player].attempt + 1, guess);
    assert (pending + [r])[|pending|] == r;
    forall p | p in d'.games ensures GameOk(d', p) && ClueOk(d', pending + [r], p) {
      assert GameOk(d, p) && ClueOk(d, pending, p);
      if p != player {
        WaitingElsewhere(d, d', pending, r, p);
      }
    }
  }

  lemma GuessKeepsRequests(draw: Draw, d: GameData, pending: seq<Request>, player: Address, guess: U16)
    requires GameInv(draw, d, pending) && player in d.games
    requires !d.games[player].gameOver && d.games[player].attempt + 1 < U32_LIMIT
    ensures var r := RequestFor(d.games[player], player, d.games[player].attempt + 1, guess);
            var d', pending' := Guessed(d, player, guess), pending + [r];
            && (forall i | 0 <= i < |pending'| :: RequestOk(d', pending'[i]))
            && Current(d', r)
            && Distinct(pending')
  {
    hide HistoryOk, AppliedOk, ClueOk;
    var d' := Guessed(d, player, guess);
    var r := RequestFor(d.games[player], player, d.games[player].attempt + 1, guess);
    var pending' := pending + [r];
    assert GameOk(d, player);
    forall i | 0 <= i < |pending|
      ensures RequestOk(d', pending[i])
      ensures pending[i].gameNumber != r.gameNumber || pending[i].attempt != r.attempt
    {
      assert RequestOk(d, pending[i]);
    }
    forall i | 0 <= i < |pending'| ensures RequestOk(d', pending'[i]) {
      if i < |pending| {
        assert pending'[i] == pending[i];
      }
    }
  }

  lemma GuessKeepsHistory(d: GameData, player: Address, guess: U16)
    requires HistoryOk(d) && player in d.games
    requires !d.games[player].gameOver && d.games[player].attempt + 1 < U32_LIMIT
    ensures HistoryOk(Guessed(d, player, guess))
  {
    hide Shows;
    var d' := Guessed(d, player, guess);
    forall i | 0 <= i < |d.applied| ensures AppliedPast(d', d.applied[i]) {
      assert AppliedPast(d, d.applied[i]);
    }
    forall p | p in d'.games ensures ClueShown(d', p) {
      assert ClueShown(d, p);
    }
  }

  lemma WaitingElsewhere(d: GameData, d': GameData, pending: seq<Request>, r: Request, p: Address)
    requires r.player != p
    requires p in d.games && p in d'.games && d.games[p] == d'.games[p]
    ensures IsWaiting(d', pending + [r], p) <==> IsWaiting(d, pending, p)
  {
    var pending' := pending + [r];
    if IsWaiting(d', pending', p) {
      var i :| 0 <= i < |pending'| && pending'[i].player == p && Current(d', pending'[i]);
      assert pending[i] == pending'[i] && Current(d, pending[i]);
    }
    if IsWaiting(d, pending, p) {
      var i :| 0 <= i < |pending| && pending[i].player == p && Current(d, pending[i]);
      assert pending[i] == pending'[i] && Current(d', pending'[i]);
    }
  }

  // ---------- a reply ----------

  /** The bytes are the worker's answer to a request, for some limit the worker looked up. */
  ghost predicate Answers(draw: Draw, r: Request, data: Bytes) {
    exists maxAttempts: U32 ::
      ResponseTo(draw, r, maxAttempts).Ok? && data == EncodeResponse(ResponseTo(draw, r, maxAttempts).value)
  }

  /** What an answer to a waiting request does to the games. */
  function Answered(d: GameData, r: Request, response: Response): GameData
    requires r.player in d.games
  {
    if !Current(d, r) then d else
    var g := d.games[r.player];
    var over := response.clue == Found || g.attempt >= response.maxAttempts;
    d.(games := d.games[r.player :=
         g.(maxAttempts := Some(response.maxAttempts), lastGuess := Some(r.guess), lastClue := Some(response.clue), gameOver := over)],
       applied := d.applied + [Applied(r.gameNumber, r.player, r.attempt, r.guess, response.clue, response.maxAttempts, over, response.target)])
  }

  lemma AnswerIsHandled(draw: Draw, d: GameData, r: Request, maxAttempts: U32)
    requires RequestOk(d, r) && ResponseTo(draw, r, maxAttempts).Ok?
    ensures OnMessageReceived(d, EncodeResponse(ResponseTo(draw, r, maxAttempts).value)) ==
            Ok(Answered(d, r, ResponseTo(draw, r, maxAttempts).value))
  {
    hide EncodeResponse, DecodeResponse, Target, ClueFor;
    ResponseRoundTrip(ResponseTo(draw, r, maxAttempts).value);
  }

  lemma AnsweredKeepsRequests(d: GameData, first: Request, rest: seq<Request>, response: Response)
    requires RequestOk(d, first)
    requires forall i | 0 <= i < |rest| :: RequestOk(d, rest[i])
    requires Distinct([first] + rest)
    ensures var d' := Answered(d, first, response);
            forall i | 0 <= i < |rest| :: RequestOk(d', rest[i]) && (Current(d', rest[i]) <==> Current(d, rest[i]))
  {
    var all := [first] + rest;
    forall i | 0 <= i < |rest|
      ensures var d' := Answered(d, first, response);
              RequestOk(d', rest[i]) && (Current(d', rest[i]) <==> Current(d, rest[i]))
    {
      assert RequestOk(d, rest[i]);
      assert all[0] == first && all[i + 1] == rest[i];
    }
  }

  lemma AnsweredClues(d: GameData, first: Request, rest: seq<Request>, response: Response, p: Address)
    requires RequestOk(d, first) && Distinct([first] + rest)
    requires forall i | 0 <= i < |rest| :: RequestOk(d, rest[i])
    requires p in d.games && ClueOk(d, [first] + rest, p)
    ensures ClueOk(Answered(d, first, response), rest, p)
  {
    var d', all := Answered(d, first, response), [first] + rest;
    AnsweredKeepsRequests(d, first, rest, response);
    assert all[0] == first && all[1..] == rest;
    if IsWaiting(d', rest, p) {
      var i :| 0 <= i < |rest| && rest[i].player == p && Current(d', rest[i]);
      assert all[i + 1] == rest[i];
      assert IsWaiting(d, all, p);
      assert !(Current(d, first) && first.player == p);
    }
    if IsWaiting(d, all, p) && !(Current(d, first) && first.player == p) {
      var i :| 0 <= i < |all| && all[i].player == p && Current(d, all[i]);
      assert rest[i - 1] == all[i] && Current(d', rest[i - 1]);
    }
  }

  /** The reply to a current request joins the applied ones truthfully. */
  lemma AnsweredTruthfully(draw: Draw, d: GameData, r: Request, maxAttempts: U32)
    requires RequestOk(d, r) && Current(d, r) && GameOk(d, r.player)
    requires ResponseTo(draw, r, maxAttempts).Ok?
    requires forall i | 0 <= i < |d.applied| :: AppliedOk(draw, d, d.applied[i])
    ensures var d' := Answered(d, r, ResponseTo(draw, r, maxAttempts).value);
            forall i | 0 <= i < |d'.applied| :: AppliedOk(draw, d', d'.applied[i])
  {
    var d' := Answered(d, r, ResponseTo(draw, r, maxAttempts).value);
    forall i | 0 <= i < |d'.applied| ensures AppliedOk(draw, d', d'.applied[i]) {
      if i < |d.applied| {
        assert AppliedOk(draw, d, d.applied[i]) && d'.applied[i] == d.applied[i];
      }
    }
  }

  /** The reply joins the history as the last, and so far only, one for its attempt. */
  lemma AnsweredKeepsHistory(draw: Draw, d: GameData, r: Request, response: Response)
    requires RequestOk(d, r) && Current(d, r) && HistoryOk(d)
    requires d.games[r.player].lastClue.None? && !d.games[r.player].gameOver
    requires forall i | 0 <= i < |d.applied| :: AppliedOk(draw, d, d.applied[i])
    ensures HistoryOk(Answered(d, r, response))
  {
    hide TargetOf, ClueFor, Distinct;
    var d' := Answered(d, r, response);
    var n := |d.applied|;
    forall i | 0 <= i < n
      ensures AppliedPast(d', d.applied[i])
      ensures d.applied[i].gameNumber == r.gameNumber ==> d.applied[i].attempt < r.attempt && !d.applied[i].gameOver
    {
      assert AppliedPast(d, d.applied[i]) && AppliedOk(draw, d, d.applied[i]);
    }
    assert d'.applied[n].gameNumber == r.gameNumber;
    assert InOrder(d'.applied);
    forall p | p in d'.games ensures ClueShown(d', p) {
      assert ClueShown(d, p);
      if p == r.player {
        assert Shows(d'.applied[n], d'.games[p]);
      } else if d.games[p].lastClue.Some? {
        var i :| 0 <= i < n && Shows(d.applied[i], d.games[p]);
        assert Shows(d'.applied[i], d'.games[p]);
      }
    }
  }

  lemma AnsweredKeepsInv(draw: Draw, d: GameData, first: Request, rest: seq<Request>, maxAttempts: U32)
    requires GameInv(draw, d, [first] + rest) && ResponseTo(draw, first, maxAttempts).Ok?
    ensures RequestOk(d, first)
    ensures GameInv(draw, Answered(d, first, ResponseTo(draw, first, maxAttempts).value), rest)
  {
    var all := [first] + rest;
    assert all[0] == first && all[1..] == rest && RequestOk(d, all[0]);
    forall i | 0 <= i < |rest| ensures RequestOk(d, rest[i]) {
      assert RequestOk(d, all[i + 1]);
    }
    var response := ResponseTo(draw, first, maxAttempts).value;
    var d' := Answered(d, first, response);
    AnsweredKeepsRequests(d, first, rest, response);
    assert GameOk(d, first.player);
    if Current(d, first) {
      AnsweredTruthfully(draw, d, first, maxAttempts);
      FirstIsWaiting(d, all, first.player);
      assert ClueOk(d, all, first.player);
      AnsweredKeepsHistory(draw, d, first, response);
    }
    hide HistoryOk;
    forall p | p in d'.games ensures GameOk(d', p) && ClueOk(d', rest, p) {
      assert GameOk(d, p) && ClueOk(d, all, p);
      AnsweredClues(d, first, rest, response, p);
    }
    forall i, j | 0 <= i < j < |rest|
      ensures rest[i].gameNumber != rest[j].gameNumber || rest[i].attempt != rest[j].attempt
    {
      assert all[i + 1] == rest[i] && all[j + 1] == rest[j];
    }
  }

  /** A game that already has its clue is not touched by an answer to a waiting request. */
  lemma AnsweredKeepsClued(draw: Draw, d: GameData, first: Request, rest: seq<Request>, response: Response, p: Address)
    requires GameInv(draw, d, [first] + rest) && p in d.games && d.games[p].lastClue.Some?
    ensures first.player in d.games
    ensures p in Answered(d, first, response).games && Answered(d, first, response).games[p] == d.games[p]
  {
    var all := [first] + rest;
    assert all[0] == first && RequestOk(d, all[0]) && ClueOk(d, all, p);
    if Current(d, first) && first.player == p {
      FirstIsWaiting(d, all, p);
    }
  }

  lemma FirstIsWaiting(d: GameData, pending: seq<Request>, p: Address)
    requires pending != [] && pending[0].player == p && Current(d, pending[0])
    ensures IsWaiting(d, pending, p)
  {
  }

  /** A request the queue holds can always be answered. */
  lemma WaitingCanBeAnswered(draw: Draw, d: GameData, r: Request, maxAttempts: U32)
    requires RequestOk(d, r)
    ensures ResponseTo(draw, r, maxAttempts).Ok?
  {
  }

  /** Answers to the first waiting requests, folded in order, are all accepted and keep the invariant. */
  lemma {:induction false} AnswersFold(draw: Draw, d: GameData, pending: seq<Request>, replies: seq<Bytes>)
    requires GameInv(draw, d, pending) && |replies| <= |pending|
    requires forall i | 0 <= i < |replies| :: Answers(draw, pending[i], replies[i])
    ensures var folded := FoldReplies(OnMessageReceived, d, replies);
            && folded.Ok?
            && GameInv(draw, folded.value, pending[|replies|..])
            && folded.value.issued == d.issued
            && folded.value.games.Keys == d.games.Keys
            && forall p | p in d.games && d.games[p].lastClue.Some? :: folded.value.games[p] == d.games[p]
  {
    hide GameInv, OnMessageReceived, Answers;
    if replies == [] {
      assert pending[0..] == pending;
    } else {
      var n := |replies| - 1;
      AnswersFold(draw, d, pending, replies[..n]);
      var mid := FoldReplies(OnMessageReceived, d, replies[..n]).value;
      var first, rest := pending[n], pending[n + 1..];
      assert pending[n..] == [first] + rest;
      assert Answers(draw, first, replies[n]);
      AnswerStep(draw, mid, first, rest, replies[n]);
    }
  }

  lemma AnswerStep(draw: Draw, d: GameData, first: Request, rest: seq<Request>, data: Bytes)
    requires GameInv(draw, d, [first] + rest) && Answers(draw, first, data)
    ensures var after := OnMessageReceived(d, data);
            && after.Ok?
            && GameInv(draw, after.value, rest)
            && after.value.issued == d.issued
            && after.value.games.Keys == d.games.Keys
            && forall p | p in d.games && d.games[p].lastClue.Some? :: after.value.games[p] == d.games[p]
  {
    var maxAttempts: U32 :|
      ResponseTo(draw, first, maxAttempts).Ok? && data == EncodeResponse(ResponseTo(draw, first, maxAttempts).value);
    AnswerStepWith(draw, d, first, rest, maxAttempts);
  }

  lemma AnswerStepWith(draw: Draw, d: GameData, first: Request, rest: seq<Request>, maxAttempts: U32)
    requires GameInv(draw, d, [first] + rest) && ResponseTo(draw, first, maxAttempts).Ok?
    ensures var after := OnMessageReceived(d, EncodeResponse(ResponseTo(draw, first, maxAttempts).value));
            && after.Ok?
            && GameInv(draw, after.value, rest)
            && after.value.issued == d.issued
            && after.value.games.Keys == d.games.Keys
            && forall p | p in d.games && d.games[p].lastClue.Some? :: after.value.games[p] == d.games[p]
  {
    hide EncodeResponse, OnMessageReceived, ResponseTo, GameInv, RequestOk, Current;
    var response := ResponseTo(draw, first, maxAttempts).value;
    AnsweredKeepsInv(draw, d, first, rest, maxAttempts);
    AnswerIsHandled(draw, d, first, maxAttempts);
    PlayerHasGame(d, first);
    forall p | p in d.games && d.games[p].lastClue.Some?
      ensures Answered(d, first, response).games[p] == d.games[p]
    {
      AnsweredKeepsClued(draw, d, first, rest, response, p);
    }
  }

  lemma PlayerHasGame(d: GameData, r: Request)
    requires RequestOk(d, r)
    ensures r.player in d.games
  {
  }
}
