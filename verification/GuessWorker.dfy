/**
  The guess-the-number worker as an object: one round starts a session, polls and answers
  until the queue gives no more, and commits.
 */
module GuessWorker {
  import opened Wrappers
  import opened ByteCodec
  import opened KvStore
  import opened AccessControl
  import opened RollupClient
  import opened Session
  import opened GuessMessages
  import opened GuessTheNumber
  import opened GuessInvariant
  import GuessProtocol
  import Serializability
  import Client
  import MessageQueue
  import RollupContract
  import Vrf

  const DEFAULT_MAX_ATTEMPTS: U32 := 3

  /** How a round ended: with its commit, or on something thrown before it. */
  datatype Round = NothingWaiting | Stopped | Committed(result: Client.CommitResult)

  datatype Polling = Answered | Exhausted | Threw

  /** Some remote read was answered by a store that holds this message at this index. */
  ghost predicate WasQueued(remote: nat -> Store, index: nat, message: Bytes) {
    exists n :: Get(remote(n), MessageQueue.MessageKey(index)) == Some(message)
  }

  /** Some remote read gave this as the head. */
  ghost predicate HeadRead(remote: nat -> Store, head: nat) {
    exists n :: RemoteIndex(remote(n), MessageQueue.HEAD_KEY) == Ok(head)
  }

  /** Some remote read gave this as the version. */
  ghost predicate VersionRead(remote: nat -> Store, version: Option<Value>) {
    exists n :: Get(remote(n), VERSION_KEY) == version
  }

  /** Some remote read gave a tail that this index has reached. */
  ghost predicate TailReached(remote: nat -> Store, index: nat) {
    exists n :: TailAtMost(remote(n), index)
  }

  predicate TailAtMost(kv: Store, index: nat) {
    RemoteIndex(kv, MessageQueue.TAIL_KEY).Ok? && RemoteIndex(kv, MessageQueue.TAIL_KEY).value <= index
  }

  /** The limit that goes with an answer of the indexer. */
  function LimitOf(answer: Option<U32>): U32 {
    answer.GetOr(DEFAULT_MAX_ATTEMPTS)
  }

  /** Each reply answers its message under a limit the indexer gave. */
  ghost predicate UnderLimits(draw: Draw, indexer: nat -> Option<U32>, messages: seq<Bytes>, replies: seq<Bytes>) {
    && |messages| == |replies|
    && forall i | 0 <= i < |messages| :: UnderSomeLimit(draw, indexer, messages[i], replies[i])
  }

  ghost predicate UnderSomeLimit(draw: Draw, indexer: nat -> Option<U32>, message: Bytes, reply: Bytes) {
    && DecodeRequest(message).Some?
    && exists n :: AnswersUnder(draw, DecodeRequest(message).value, LimitOf(indexer(n)), reply)
  }

  lemma OneMoreLimit(
      draw: Draw, indexer: nat -> Option<U32>, messages: seq<Bytes>, replies: seq<Bytes>, message: Bytes, reply: Bytes, n: nat)
    requires UnderLimits(draw, indexer, messages, replies) && DecodeRequest(message).Some?
    requires AnswersUnder(draw, DecodeRequest(message).value, LimitOf(indexer(n)), reply)
    ensures UnderLimits(draw, indexer, messages + [message], replies + [reply])
  {
    hide AnswersUnder, DecodeRequest, LimitOf;
    assert UnderSomeLimit(draw, indexer, message, reply);
    hide UnderSomeLimit;
  }

  /**
    A session that has read the version alone, polled these messages from index first on, and
    holds one answer to each, in order.
   */
  ghost predicate Answering(
      draw: Draw, remote: nat -> Store, s: SessionState, version: Option<Value>, polled: seq<Bytes>, first: nat)
  {
    && s.version.Some?
    && VersionRead(remote, version) && s.values == EMPTY_MAP.Put(VERSION_KEY, version)
    && s.updates == EMPTY_MAP
    && (s.indexUpdated <==> polled != [])
    && (s.currentIndex.None? ==> polled == [])
    && (s.currentIndex.Some? ==> s.currentIndex.value == first + |polled| && HeadRead(remote, first))
    && GuessProtocol.AnswersAll(draw, polled, s.actions)
    && forall i | 0 <= i < |polled| :: WasQueued(remote, first + i, polled[i])
  }

  /** What such a session sends: the version as its only condition, one head move, one reply per message. */
  lemma AnsweringSends(
      draw: Draw, remote: nat -> Store, s: SessionState, version: Option<Value>, polled: seq<Bytes>, first: nat)
    requires Answering(draw, remote, s, version, polled, first)
    ensures CommitParams(s) ==
            if polled == [] then Ok(None) else
            Ok(Some(RollupParams(
              [(VERSION_KEY, version)],
              [VersionUpdate(BumpVersion(s).value)],
              [SetQueueHead(first + |polled|)] + AsReplies(s.actions))))
    ensures |s.actions| == |polled|
    ensures s.currentIndex.Some? ==> s.currentIndex.value == first + |polled|
  {
    hide DecodeRequest, Answers, WasQueued, VersionUpdate, HeadRead, VersionRead;
    assert |polled| == |s.actions|;
    assert s.values.Pairs() == [(VERSION_KEY, version)];
    assert [VersionUpdate(BumpVersion(s).value)] + s.updates.Pairs() == [VersionUpdate(BumpVersion(s).value)];
  }

  lemma StartedAnswers(draw: Draw, remote: nat -> Store, n: nat, first: nat)
    requires StartSession(remote(n)).1.Pass?
    ensures Answering(draw, remote, StartSession(remote(n)).0, Get(remote(n), VERSION_KEY), [], first)
  {
  }

  lemma NoLimitsYet(draw: Draw, indexer: nat -> Option<U32>, kv: Store)
    ensures UnderLimits(draw, indexer, [], StartSession(kv).0.actions)
  {
  }

  /** A poll that gives a message took it from the index before the one it leaves. */
  lemma PollGives(s: SessionState, atTail: Store, atHead: Store, atItem: Store, decodes: Bytes -> bool)
    requires PollMessage(s, atTail, atHead, atItem, decodes).1.Ok?
    ensures var (s', r) := PollMessage(s, atTail, atHead, atItem, decodes);
            && s'.currentIndex.Some?
            && (r.value.Some? || s.currentIndex.None? ==> s'.currentIndex.value < U32_LIMIT)
            && s' == s.(currentIndex := s'.currentIndex, indexUpdated := s.indexUpdated || r.value.Some?)
            && (s.currentIndex.Some? ==>
                  s'.currentIndex.value == s.currentIndex.value + (if r.value.Some? then 1 else 0))
            && (s.currentIndex.None? ==>
                  RemoteIndex(atHead, MessageQueue.HEAD_KEY).Ok? &&
                  s'.currentIndex.value == RemoteIndex(atHead, MessageQueue.HEAD_KEY).value + (if r.value.Some? then 1 else 0))
            && (r.value.None? ==> TailAtMost(atTail, s'.currentIndex.value))
            && (r.value.Some? ==>
                  s'.currentIndex.value > 0 &&
                  Get(atItem, MessageQueue.MessageKey(s'.currentIndex.value - 1)) == r.value &&
                  decodes(r.value.value))
  {
    IndexBound(atTail, MessageQueue.TAIL_KEY);
    IndexBound(atHead, MessageQueue.HEAD_KEY);
    hide RemoteIndex;
  }

  lemma IndexBound(kv: Store, key: Key)
    ensures RemoteIndex(kv, key).Ok? ==> RemoteIndex(kv, key).value < U32_LIMIT
  {
    hide DecodeU32;
    if Get(kv, key).Some? {
      DecodeU32Bound(Get(kv, key).value);
    }
  }

  /** The index of a session's first poll: known once the session has an index, less what was taken by then. */
  function FirstIndex(s: SessionState, s': SessionState, first: nat, taken: nat): nat {
    if s.currentIndex.None? && s'.currentIndex.GetOr(0) >= taken then s'.currentIndex.GetOr(0) - taken else first
  }

  lemma FoundQueued(remote: nat -> Store, n: nat, index: nat, message: Bytes)
    requires Get(remote(n), MessageQueue.MessageKey(index)) == Some(message)
    ensures WasQueued(remote, index, message)
  {
  }

  lemma PolledNothing(
      draw: Draw, remote: nat -> Store, s: SessionState, version: Option<Value>, polled: seq<Bytes>, first: nat,
      tail: nat, head: nat, atItem: Store, decodes: Bytes -> bool)
    requires Answering(draw, remote, s, version, polled, first)
    requires PollMessage(s, remote(tail), remote(head), atItem, decodes).1 == Ok(None)
    ensures var s' := PollMessage(s, remote(tail), remote(head), atItem, decodes).0;
            Answering(draw, remote, s', version, polled, FirstIndex(s, s', first, 0)) && TailReached(remote, s'.currentIndex.GetOr(0))
  {
    hide PollMessage, WasQueued, RemoteIndex, VersionRead;
    PollGives(s, remote(tail), remote(head), atItem, decodes);
    if s.currentIndex.None? {
      HeadWasRead(remote, head);
    }
    hide TailAtMost, HeadRead;
  }

  lemma HeadWasRead(remote: nat -> Store, n: nat)
    requires RemoteIndex(remote(n), MessageQueue.HEAD_KEY).Ok?
    ensures HeadRead(remote, RemoteIndex(remote(n), MessageQueue.HEAD_KEY).value)
  {
  }

  /** Polling once more and answering keeps the session one that answers all it polled. */
  lemma PolledAndAnswered(
      draw: Draw, remote: nat -> Store, s: SessionState, version: Option<Value>, polled: seq<Bytes>, first: nat,
      atTail: Store, head: nat, n: nat, decodes: Bytes -> bool, reply: Bytes)
    requires Answering(draw, remote, s, version, polled, first)
    requires PollMessage(s, atTail, remote(head), remote(n), decodes).1.Ok?
             && PollMessage(s, atTail, remote(head), remote(n), decodes).1.value.Some?
    requires var m := PollMessage(s, atTail, remote(head), remote(n), decodes).1.value.value;
             DecodeRequest(m).Some? && Answers(draw, DecodeRequest(m).value, reply)
    ensures var (s', m) := PollMessage(s, atTail, remote(head), remote(n), decodes);
            Answering(draw, remote, AddAction(s', reply), version, polled + [m.value.value], FirstIndex(s, s', first, 1))
  {
    hide PollMessage, DecodeRequest, Answers, WasQueued, RemoteIndex, TailAtMost, VersionRead;
    var m := PollMessage(s, atTail, remote(head), remote(n), decodes).1.value.value;
    PollGives(s, atTail, remote(head), remote(n), decodes);
    if s.currentIndex.None? {
      HeadWasRead(remote, head);
    }
    hide HeadRead;
    GuessProtocol.OneMoreAnswer(draw, polled, s.actions, m, reply);
    var (s', _) := PollMessage(s, atTail, remote(head), remote(n), decodes);
    var polled', at := polled + [m], FirstIndex(s, s', first, 1);
    assert s'.currentIndex.value == at + |polled'|;
    FoundQueued(remote, n, at + |polled|, m);
    hide GuessProtocol.AnswersAll;
    forall i | 0 <= i < |polled'| ensures WasQueued(remote, at + i, polled'[i]) {
    }
  }

  // ---------- why a round stops ----------

  /** The index is between a head and a tail that were read. */
  ghost predicate Pending(remote: nat -> Store, head: nat, tail: nat, index: nat) {
    && HeadRead(remote, head)
    && RemoteIndex(remote(tail), MessageQueue.TAIL_KEY).Ok?
    && head <= index < RemoteIndex(remote(tail), MessageQueue.TAIL_KEY).value
  }

  /** No message, no request, or one for an empty range. */
  predicate Unanswerable(kv: Store, index: nat) {
    match Get(kv, MessageQueue.MessageKey(index))
    case None => true
    case Some(m) =>
      match DecodeRequest(m)
      case None => true
      case Some(r) => r.minNumber >= r.maxNumber
  }

  /** Some read of the contract is of the kind that throws. */
  ghost predicate SomethingThrows(remote: nat -> Store) {
    || (exists n :: MessageQueue.HasMessage(remote(n)).Err?)
    || (exists n :: StartSession(remote(n)).1.Fail?)
    || (exists n :: RemoteIndex(remote(n), MessageQueue.TAIL_KEY).Err?)
    || (exists n :: RemoteIndex(remote(n), MessageQueue.HEAD_KEY).Err?)
    || (exists head, tail, index, n :: Pending(remote, head, tail, index) && Unanswerable(remote(n), index))
  }

  lemma EntryThrows(remote: nat -> Store, n: nat)
    requires MessageQueue.HasMessage(remote(n)).Err? || StartSession(remote(n)).1.Fail?
    ensures SomethingThrows(remote)
  {
    hide MessageQueue.HasMessage, StartSession, Pending, Unanswerable, RemoteIndex;
  }

  /** A poll throws only for such a reason. */
  lemma PollThrows(
      draw: Draw, remote: nat -> Store, s: SessionState, version: Option<Value>, polled: seq<Bytes>, first: nat,
      tail: nat, head: nat, n: nat, decodes: Bytes -> bool)
    requires Answering(draw, remote, s, version, polled, first)
    requires forall m :: decodes(m) <==> IsRequest(m)
    requires PollMessage(s, remote(tail), remote(head), remote(n), decodes).1.Err?
    ensures SomethingThrows(remote)
  {
    hide DecodeRequest, Answers, WasQueued, MessageQueue.MessageKey, StartSession, MessageQueue.HasMessage, GuessProtocol.AnswersAll,
         VersionRead;
    PollByParts(s, remote(tail), remote(head), remote(n), decodes);
    if RemoteIndex(remote(tail), MessageQueue.TAIL_KEY).Ok? && PollHead(s, remote(head)).Ok? {
      if s.currentIndex.None? {
        HeadWasRead(remote, head);
      }
      hide RemoteIndex, HeadRead;
      var index := PollHead(s, remote(head)).value.currentIndex.value;
      var from := if s.currentIndex.None? then index else first;
      assert Pending(remote, from, tail, index) && Unanswerable(remote(n), index);
    }
  }

  /** So does the answer to a message. */
  lemma AnswerThrows(
      draw: Draw, remote: nat -> Store, s: SessionState, version: Option<Value>, polled: seq<Bytes>, first: nat,
      tail: nat, head: nat, n: nat, decodes: Bytes -> bool)
    requires Answering(draw, remote, s, version, polled, first)
    requires var r := PollMessage(s, remote(tail), remote(head), remote(n), decodes).1;
             && r.Ok? && r.value.Some? && DecodeRequest(r.value.value).Some?
             && DecodeRequest(r.value.value).value.minNumber >= DecodeRequest(r.value.value).value.maxNumber
    ensures SomethingThrows(remote)
  {
    hide DecodeRequest, Answers, WasQueued, MessageQueue.MessageKey, StartSession, MessageQueue.HasMessage, GuessProtocol.AnswersAll,
         VersionRead;
    PollByParts(s, remote(tail), remote(head), remote(n), decodes);
    if s.currentIndex.None? {
      HeadWasRead(remote, head);
    }
    hide RemoteIndex, HeadRead;
    var index := PollHead(s, remote(head)).value.currentIndex.value;
    var from := if s.currentIndex.None? then index else first;
    assert Pending(remote, from, tail, index) && Unanswerable(remote(n), index);
  }

  // ---------- a quiet round ----------

  /** The contract does not change while the round runs; its queue is well formed and its requests can be answered. */
  ghost predicate Quiet(remote: nat -> Store, kv: Store, q: MessageQueue.Queue) {
    && (forall n :: remote(n) == kv)
    && MessageQueue.Represents(kv, q)
    && StartSession(kv).1.Pass?
    && forall i | 0 <= i < |q.items| ::
         DecodeRequest(q.items[i]).Some? && DecodeRequest(q.items[i]).value.minNumber < DecodeRequest(q.items[i]).value.maxNumber
  }

  /** Then nothing throws. */
  lemma NothingThrows(remote: nat -> Store, kv: Store, q: MessageQueue.Queue)
    requires Quiet(remote, kv, q)
    ensures !SomethingThrows(remote)
  {
    hide DecodeRequest, StartSession, MessageQueue.MessageKey;
    forall head: nat, tail: nat, index: nat, n: nat | Pending(remote, head, tail, index)
      ensures !Unanswerable(remote(n), index)
    {
      assert Get(kv, MessageQueue.MessageKey(index)) == Some(q.items[index - q.head]);
    }
  }

  /** A session that has polled until nothing came has polled the whole queue. */
  lemma PolledAll(
      draw: Draw, remote: nat -> Store, s: SessionState, version: Option<Value>, polled: seq<Bytes>, first: nat,
      kv: Store, q: MessageQueue.Queue)
    requires Quiet(remote, kv, q) && Answering(draw, remote, s, version, polled, first)
    requires s.currentIndex.Some? && TailReached(remote, first + |polled|) && first + |polled| < U32_LIMIT
    ensures polled == q.items && first == q.head
  {
    hide DecodeRequest, Answers, StartSession, MessageQueue.MessageKey, GuessProtocol.AnswersAll, VersionRead;
    assert first == q.head;
    var n :| TailAtMost(remote(n), first + |polled|);
    assert q.Tail() <= first + |polled|;
    forall i | 0 <= i < |polled| ensures first + i < q.Tail() && polled[i] == q.items[first + i - q.head] {
      assert WasQueued(remote, first + i, polled[i]);
    }
    if polled != [] {
      assert WasQueued(remote, first + (|polled| - 1), polled[|polled| - 1]);
      assert first + (|polled| - 1) < q.Tail();
    }
    assert |polled| == |q.items|;
  }

  /** What it sends then empties the queue, unless the contract refuses a reply. */
  lemma QuietRoundEmptiesQueue<H>(
      draw: Draw, remote: nat -> Store, s: SessionState, version: Option<Value>, polled: seq<Bytes>, first: nat,
      handler: Handler<H>, chain: Chain<H>, q: MessageQueue.Queue, attestor: Address)
    requires Quiet(remote, chain.kv, q) && Answering(draw, remote, s, version, polled, first) && q.items != []
    requires s.currentIndex.Some? && TailReached(remote, first + |polled|) && first + |polled| < U32_LIMIT
    requires (attestor, AttestorRole) in chain.roles
    ensures CommitParams(s).Ok? && CommitParams(s).value.Some?
    ensures var (after, outcome) := Rollup(handler, chain, attestor, CommitParams(s).value.value);
            && (outcome.Pass? <==> FoldReplies(handler, chain.app, s.actions).Ok?)
            && (outcome.Pass? ==>
                  MessageQueue.Represents(after.kv, MessageQueue.Queue(q.Tail(), [])) && |s.actions| == |q.items|)
  {
    hide Quiet, Answering, TailReached, CommitParams, HandleActions, FoldReplies, VersionUpdate, AsReplies, ApplyUpdates,
         MessageQueue.Represents, ConditionsMet, BumpVersion;
    PolledAll(draw, remote, s, version, polled, first, chain.kv, q);
    AnsweringSends(draw, remote, s, version, polled, first);
    ReadVersion(draw, remote, s, version, polled, first, chain.kv, q);
    QuietQueue(remote, chain.kv, q);
    BumpOf(draw, remote, s, version, polled, first);
    HeadThenReplies(handler, chain, q, VersionUpdate(BumpVersion(s).value), s.actions);
  }

  /** The version, the head moved to the tail, and the replies. */
  lemma HeadThenReplies<H>(handler: Handler<H>, chain: Chain<H>, q: MessageQueue.Queue, update: KeyValue, replies: seq<Bytes>)
    requires MessageQueue.Represents(chain.kv, q) && update.0 == VERSION_KEY
    ensures var (after, outcome) := HandleActions(
              handler, chain.(kv := ApplyUpdates(chain.kv, [update])), [SetQueueHead(q.Tail())] + AsReplies(replies));
            && (outcome.Pass? <==> FoldReplies(handler, chain.app, replies).Ok?)
            && (outcome.Pass? ==> MessageQueue.Represents(after.kv, MessageQueue.Queue(q.Tail(), [])))
  {
    hide HandleActions, FoldReplies, MessageQueue.PopTo, AsReplies, MessageQueue.Represents, ApplyUpdates;
    var updated := chain.(kv := ApplyUpdates(chain.kv, [update]));
    VersionUpdated(chain.kv, q, update);
    MessageQueue.PopToDrops(updated.kv, q, q.Tail());
    HeadMoved(handler, updated, q.Tail());
    assert q.items[|q.items|..] == [];
    Serializability.RepliesFold(handler, updated, [SetQueueHead(q.Tail())], replies);
  }

  lemma BumpOf(
      draw: Draw, remote: nat -> Store, s: SessionState, version: Option<Value>, polled: seq<Bytes>, first: nat)
    requires Answering(draw, remote, s, version, polled, first)
    ensures BumpVersion(s).Ok? && VersionUpdate(BumpVersion(s).value).0 == VERSION_KEY
  {
  }

  lemma QuietQueue(remote: nat -> Store, kv: Store, q: MessageQueue.Queue)
    requires Quiet(remote, kv, q)
    ensures MessageQueue.Represents(kv, q)
  {
  }

  lemma ReadVersion(
      draw: Draw, remote: nat -> Store, s: SessionState, version: Option<Value>, polled: seq<Bytes>, first: nat,
      kv: Store, q: MessageQueue.Queue)
    requires Quiet(remote, kv, q) && Answering(draw, remote, s, version, polled, first)
    ensures ConditionsMet(kv, [(VERSION_KEY, version)])
  {
  }

  lemma VersionUpdated(kv: Store, q: MessageQueue.Queue, update: KeyValue)
    requires MessageQueue.Represents(kv, q) && update.0 == VERSION_KEY
    ensures MessageQueue.Represents(ApplyUpdates(kv, [update]), q)
  {
    hide MessageQueue.Represents;
    Serializability.VersionKeyIsNotQueueKey();
    var none: seq<KeyValue> := [];
    assert [update][..0] == none && ApplyUpdates(kv, none) == kv;
    MessageQueue.RepresentsFrame(kv, ApplyUpdates(kv, [update]), q);
  }

  lemma HeadMoved<H>(handler: Handler<H>, s: Chain<H>, target: nat)
    ensures var (kv, outcome) := MessageQueue.PopTo(s.kv, target);
            HandleActions(handler, s, [SetQueueHead(target)]) == (s.(kv := kv), outcome)
  {
    hide MessageQueue.PopTo;
    var none: seq<Action> := [];
    assert [SetQueueHead(target)][..0] == none;
  }

  class Worker {
    const client: Client.WorkerClient
    const draw: Draw
    /** What the indexer answers to the n-th query: nothing when it fails or knows no limit. */
    const indexer: nat -> Option<U32>
    var queries: nat

    /** The client decodes requests. */
    ghost predicate Valid() {
      forall m :: client.decodes(m) <==> IsRequest(m)
    }

    constructor (
        remote: nat -> Store, nonces: nat -> Nonces, signer: Option<Client.Signer>, draw: Draw, indexer: nat -> Option<U32>)
      ensures Valid() && fresh(client) && fresh(client.currentSession)
      ensures client.remote == remote && client.nonces == nonces && client.signer == signer && client.asked == 0
      ensures client.currentSession.View() == NEW_SESSION
      ensures this.draw == draw && this.indexer == indexer && queries == 0
    {
      this.client := new Client.WorkerClient(remote, nonces, IsRequest, signer);
      this.draw, this.indexer, this.queries := draw, indexer, 0;
    }

    method GetMaxAttempts() returns (maxAttempts: U32)
      modifies this`queries
      ensures queries == old(queries) + 1
      ensures maxAttempts == LimitOf(indexer(old(queries)))
      ensures indexer(old(queries)).None? ==> maxAttempts == 3
    {
      maxAttempts := indexer(queries).GetOr(DEFAULT_MAX_ATTEMPTS);
      queries := queries + 1;
    }

    /** The target is drawn before the limit is looked up. */
    method GetResponse(r: Request) returns (response: Result<Response, Vrf.VrfError>)
      modifies this`queries
      ensures response == ResponseTo(draw, r, LimitOf(indexer(old(queries))))
    {
      var target := Target(draw, r.gameNumber, r.minNumber, r.maxNumber, r.player);
      if target.Err? {
        return Err(target.error);
      }
      var maxAttempts := GetMaxAttempts();
      var clue := if target.value == r.guess then Found else if target.value > r.guess then More else Less;
      var named := None;
      if clue == Found || r.attempt >= maxAttempts {
        named := Some(target.value);
      }
      return Ok(Response(r.gameNumber, r.player, r.attempt, r.guess, clue, maxAttempts, named));
    }

    /** Answers one request, under the limit the indexer gives now; false when drawing its target throws. */
    method HandleMessage(request: Request) returns (handled: bool, ghost reply: Bytes)
      modifies this`queries, client.currentSession
      ensures handled <==> request.minNumber < request.maxNumber
      ensures handled ==>
                && Answers(draw, request, reply) && AnswersUnder(draw, request, LimitOf(indexer(old(queries))), reply)
                && client.currentSession.View() == AddAction(old(client.currentSession.View()), reply)
      ensures !handled ==> client.currentSession.View() == old(client.currentSession.View())
    {
      reply := [];
      ResponseMeaning(draw, request, LimitOf(indexer(queries)));
      hide AnswersUnder, ResponseTo, LimitOf, EncodeResponse;
      var response := GetResponse(request);
      if response.Err? {
        return false, reply;
      }
      client.AddReply(EncodeResponse(response.value));
      return true, EncodeResponse(response.value);
    }

    /** The body of the polling loop: one poll, and the answer to what it gives. */
    method PollAndAnswer(ghost version: Option<Value>, ghost polled: seq<Bytes>, ghost first: nat)
      returns (polling: Polling, ghost polled': seq<Bytes>, ghost first': nat)
      requires Valid() && Answering(draw, client.remote, client.currentSession.View(), version, polled, first)
      requires UnderLimits(draw, indexer, polled, client.currentSession.actions)
      modifies this`queries, client`asked, client.currentSession
      ensures polling.Threw? ==> SomethingThrows(client.remote)
      ensures polling.Exhausted? ==> TailReached(client.remote, client.currentSession.currentIndex.GetOr(0))
      ensures !polling.Threw? ==>
                && Answering(draw, client.remote, client.currentSession.View(), version, polled', first')
                && UnderLimits(draw, indexer, polled', client.currentSession.actions)
                && client.currentSession.currentIndex.Some?
      ensures polling.Answered? ==>
                && client.currentSession.currentIndex.value < U32_LIMIT
                && (old(client.currentSession.currentIndex).Some? ==>
                      client.currentSession.currentIndex.value == old(client.currentSession.currentIndex).value + 1)
    {
      hide Answering, PollMessage, Answers, AnswersUnder, DecodeRequest, Get, FirstIndex, MessageQueue.HasMessage, Target,
           EncodeResponse, MessageQueue.MessageKey, UnderLimits, SomethingThrows, TailReached, TailAtMost, RemoteIndex, LimitOf;
      polled', first' := polled, first;
      ghost var before, asked, query := client.currentSession.View(), client.asked, queries;
      ghost var last := if before.currentIndex.None? then asked + 2 else asked + 1;
      var message := client.Poll();
      if message.Err? {
        PollThrows(draw, client.remote, before, version, polled, first, asked, asked + 1, last, client.decodes);
        return Threw, polled', first';
      }
      ghost var after := client.currentSession.View();
      ghost var atTail, atHead := client.remote(asked), client.remote(asked + 1);
      PollGives(before, atTail, atHead, client.remote(last), client.decodes);
      match message.value
      case None =>
        PolledNothing(draw, client.remote, before, version, polled, first, asked, asked + 1, client.remote(last), client.decodes);
        return Exhausted, polled, FirstIndex(before, after, first, 0);
      case Some(m) =>
        assert IsRequest(m);
        var handled;
        ghost var reply;
        handled, reply := HandleMessage(DecodeRequest(m).value);
        if !handled {
          AnswerThrows(draw, client.remote, before, version, polled, first, asked, asked + 1, last, client.decodes);
          return Threw, polled', first';
        }
        PolledAndAnswered(draw, client.remote, before, version, polled, first, atTail, asked + 1, last, client.decodes, reply);
        OneMoreLimit(draw, indexer, polled, before.actions, m, reply, query);
        return Answered, polled + [m], FirstIndex(before, after, first, 1);
    }

    /**
      One round. It does nothing while the contract has no message, and stops only where a read
      throws. Otherwise it polls until the index has reached the tail and commits: sent is the
      session it committed, and at is the moment its nonce was asked for if it was signed. The
      session answers all messages it polled, each under a limit the indexer gave, and the contract
      moves as that one transaction says; otherwise the contract stays.
     */
    method PollMessages(contract: RollupContract.Contract<GameData>, attestor: Address)
      returns (
        round: Round, ghost sent: SessionState, ghost version: Option<Value>, ghost polled: seq<Bytes>, ghost first: nat,
        ghost at: nat)
      requires Valid()
      modifies this`queries, client, contract
      ensures round.NothingWaiting? <==> MessageQueue.HasMessage(client.remote(old(client.asked))) == Ok(false)
      ensures MessageQueue.HasMessage(client.remote(old(client.asked))).Err? ==> round.Stopped?
      ensures round.Stopped? ==> SomethingThrows(client.remote)
      ensures round.Committed? ==>
                && Answering(draw, client.remote, sent, version, polled, first)
                && UnderLimits(draw, indexer, polled, sent.actions)
                && sent.currentIndex == Some(first + |polled|) && TailReached(client.remote, first + |polled|)
      ensures round.Committed? ==> (round.result.NothingToCommit? <==> polled == [])
      ensures round.Committed? && polled != [] ==>
                && CommitParams(sent).Ok? && CommitParams(sent).value.Some?
                && var (after, outcome) := Client.Submit(
                     contract.onMessageReceived, contract.crypto, old(contract.State()), attestor, client.signer,
                     client.nonces(at), CommitParams(sent).value.value);
                   match outcome
                   case Pass => round.result.Accepted() && contract.State() == after
                   case Fail(e) => round.result == Client.Rejected(e)
      ensures !(round.Committed? && round.result.Accepted()) ==> contract.State() == old(contract.State())
    {
      hide Answering, StartSession, CommitParams, Client.Submit, Get, MessageQueue.HasMessage, TailReached, UnderLimits,
           SomethingThrows, BumpVersion, AsReplies, VersionUpdate, PollMessage, RemoteIndex, DecodeRequest;
      polled, first, sent, version, at := [], 0, NEW_SESSION, None, 0;
      ghost var entry := client.asked;
      var hasMessage := client.QueryHasMessage();
      if hasMessage.Err? {
        EntryThrows(client.remote, entry);
        return Stopped, sent, version, polled, first, at;
      }
      if !hasMessage.value {
        return NothingWaiting, sent, version, polled, first, at;
      }
      ghost var began := client.asked;
      version := Get(client.remote(began), VERSION_KEY);
      var started := client.Start();
      if started.Fail? {
        EntryThrows(client.remote, began);
        return Stopped, sent, version, polled, first, at;
      }
      StartedAnswers(draw, client.remote, began, first);
      NoLimitsYet(draw, indexer, client.remote(began));
      var polling := Answered;
      while polling.Answered?
        invariant !polling.Threw? && fresh(client.currentSession)
        invariant contract.State() == old(contract.State())
        invariant Answering(draw, client.remote, client.currentSession.View(), version, polled, first)
        invariant UnderLimits(draw, indexer, polled, client.currentSession.actions)
        invariant polling.Exhausted? ==>
                    && client.currentSession.currentIndex.Some?
                    && TailReached(client.remote, client.currentSession.currentIndex.value)
        invariant polling.Answered? && client.currentSession.currentIndex.Some? ==>
                    client.currentSession.currentIndex.value < U32_LIMIT
        decreases polling.Answered?,
                  if polling.Answered? then U32_LIMIT - client.currentSession.currentIndex.GetOr(0) else 0,
                  client.currentSession.currentIndex.None?
      {
        polling, polled, first := PollAndAnswer(version, polled, first);
        if polling.Threw? {
          return Stopped, sent, version, polled, first, at;
        }
      }
      sent := client.currentSession.View();
      AnsweringSends(draw, client.remote, sent, version, polled, first);
      at := client.asked;
      var result := client.Commit(contract, attestor);
      return Committed(result), sent, version, polled, first, at;
    }
  }
}
