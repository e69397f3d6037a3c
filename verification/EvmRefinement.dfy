/**
  The Solidity anchor beside the ink! contract: the same pushes and the same client transactions,
  each in its contract's own encoding.
 */
module EvmRefinement {
  import opened Wrappers
  import opened ByteCodec
  import opened KvStore
  import opened AccessControl
  import RollupClient
  import MessageQueue
  import Session
  import EvmAnchor
  import EvmQueue

  type Handler<!H> = RollupClient.Handler<H>

  /** What a client sends: its conditions and updates, the head it moves to if it polled, and its replies. */
  datatype Sent = Sent(
    attestor: Address,
    conditions: seq<RollupClient.KeyValue>,
    updates: seq<RollupClient.KeyValue>,
    head: Option<nat>,
    replies: seq<Bytes>)

  /** A push of the contract's own, or a client's transaction. */
  datatype Call = Push(data: Bytes) | Transact(sent: Sent)

  // ---------- the two encodings ----------

  function InkParams(sent: Sent): RollupClient.RollupParams {
    RollupClient.RollupParams(
      sent.conditions, sent.updates,
      (match sent.head case None => [] case Some(index) => [RollupClient.SetQueueHead(index)])
        + Session.AsReplies(sent.replies))
  }

  function EncodeReplies(replies: seq<Bytes>): (r: seq<Bytes>)
    ensures |r| == |replies| && forall i | 0 <= i < |r| :: r[i] == EvmAnchor.EncodeReply(replies[i])
  {
    seq(|replies|, i requires 0 <= i < |replies| => EvmAnchor.EncodeReply(replies[i]))
  }

  function EvmParamsOf(sent: Sent): EvmAnchor.EvmParams {
    EvmAnchor.EvmParams(
      EvmAnchor.KeysOf(sent.conditions), EvmAnchor.ValuesOf(sent.conditions),
      EvmAnchor.KeysOf(sent.updates), EvmAnchor.ValuesOf(sent.updates),
      (match sent.head case None => [] case Some(index) => [EvmAnchor.EncodeSetQueueHead(index)])
        + EncodeReplies(sent.replies))
  }

  /** The same business logic: an error is a revert. */
  function EvmHandlerOf<H>(handler: Handler<H>): EvmAnchor.EvmHandler<H> {
    (app, data) => match handler(app, data) case Ok(next) => Some(next) case Err(_) => None
  }

  // ---------- the relation ----------

  /** Both hold the same queue, roles and business state, and at every other key the same value, none of them empty. */
  ghost predicate Twins<H>(ink: RollupClient.Chain<H>, evm: EvmAnchor.Anchor<H>, q: MessageQueue.Queue) {
    && StoresTwins(ink.kv, evm.kv, q)
    && (forall a :: (a, AttestorRole) in ink.roles <==> a in evm.attestors)
    && ink.app == evm.app
  }

  ghost predicate StoresTwins(ink: Store, evm: Store, q: MessageQueue.Queue) {
    && MessageQueue.Represents(ink, q) && EvmQueue.Represents(evm, q)
    && forall k | !MessageQueue.IsQueueKey(k) :: EvmAnchor.Load(evm, k) == Get(ink, k).GetOr([]) && Get(ink, k) != Some([])
  }

  /**
    A transaction as a client may send it: no reserved key of the queue, no empty value, not in
    the contract's own name, and a head move, if any, that is not below the head unless the
    conditions fail. A session's is not: see Guarantees.NoWastedPop.
   */
  ghost predicate Sendable(self: Address, ink: Store, q: MessageQueue.Queue, sent: Sent) {
    && sent.attestor != self
    && NoEmptyUserEntries(sent.conditions) && NoEmptyUserEntries(sent.updates)
    && (sent.head.Some? && RollupClient.ConditionsMet(ink, sent.conditions) ==> q.head <= sent.head.value < U256_LIMIT)
  }

  predicate NoEmptyUserEntries(entries: seq<RollupClient.KeyValue>) {
    forall i | 0 <= i < |entries| :: !MessageQueue.IsQueueKey(entries[i].0) && entries[i].1 != Some([])
  }

  // ---------- one transaction ----------

  lemma UpdatesKeepTwins(ink: Store, evm: Store, q: MessageQueue.Queue, updates: seq<RollupClient.KeyValue>)
    requires StoresTwins(ink, evm, q) && NoEmptyUserEntries(updates)
    ensures StoresTwins(RollupClient.ApplyUpdates(ink, updates),
                        EvmAnchor.ApplyWrites(evm, EvmAnchor.KeysOf(updates), EvmAnchor.ValuesOf(updates)), q)
  {
    hide EvmAnchor.Load, Get, MessageQueue.Represents, EvmQueue.Represents, MessageQueue.IsQueueKey, EvmQueue.IsQueueKey;
    var ink' := RollupClient.ApplyUpdates(ink, updates);
    var evm' := EvmAnchor.ApplyWrites(evm, EvmAnchor.KeysOf(updates), EvmAnchor.ValuesOf(updates));
    forall k | MessageQueue.IsQueueKey(k)
      ensures Get(ink', k) == Get(ink, k) && EvmAnchor.Load(evm', k) == EvmAnchor.Load(evm, k)
    {
      RollupClient.NoUpdateNoChange(ink, updates, k);
      NoWriteNoChange(evm, EvmAnchor.KeysOf(updates), EvmAnchor.ValuesOf(updates), k);
    }
    MessageQueue.RepresentsFrame(ink, ink', q);
    SameQueueKeys();
    EvmQueue.RepresentsFrame(evm, evm', q);
    forall k | !MessageQueue.IsQueueKey(k)
      ensures EvmAnchor.Load(evm', k) == Get(ink', k).GetOr([]) && Get(ink', k) != Some([])
    {
      EvmAnchor.UpdatesAgreeAt(evm, ink, updates, k);
      EvmAnchor.UpdatesKeepNoEmptyValue(ink, updates, k);
    }
  }

  lemma SameQueueKeys()
    ensures forall k :: EvmQueue.IsQueueKey(k) <==> MessageQueue.IsQueueKey(k)
  {
  }

  lemma {:induction false} NoWriteNoChange(kv: Store, keys: seq<Bytes>, values: seq<Bytes>, key: Key)
    requires |keys| == |values| && key !in keys
    ensures EvmAnchor.Load(EvmAnchor.ApplyWrites(kv, keys, values), key) == EvmAnchor.Load(kv, key)
  {
    if keys != [] {
      var n := |keys| - 1;
      assert keys[n] in keys;
      NoWriteNoChange(kv, keys[..n], values[..n], key);
    }
  }

  lemma ConditionsOfTwins(ink: Store, evm: Store, q: MessageQueue.Queue, conditions: seq<RollupClient.KeyValue>)
    requires StoresTwins(ink, evm, q) && NoEmptyUserEntries(conditions)
    ensures EvmAnchor.FirstUnmet(evm, EvmAnchor.KeysOf(conditions), EvmAnchor.ValuesOf(conditions)) == None <==>
            RollupClient.ConditionsMet(ink, conditions)
  {
    hide EvmAnchor.Load, Get, MessageQueue.Represents, EvmQueue.Represents, MessageQueue.IsQueueKey;
    EvmAnchor.ConditionsAgreeWithoutEmpty(evm, ink, conditions);
  }

  /** The head move: both drop the same messages, or both refuse. */
  lemma HeadsOfTwins(ink: Store, evm: Store, q: MessageQueue.Queue, index: nat)
    requires StoresTwins(ink, evm, q) && q.head <= index < U256_LIMIT
    ensures MessageQueue.PopTo(ink, index).1.Pass? <==> index <= q.Tail()
    ensures EvmAnchor.PopTo(evm, index).1.Pass? <==> index <= q.Tail()
    ensures index <= q.Tail() ==>
              StoresTwins(MessageQueue.PopTo(ink, index).0, EvmAnchor.PopTo(evm, index).0,
                          MessageQueue.Queue(index, q.items[index - q.head..]))
  {
    hide EvmAnchor.Load, Get, MessageQueue.Represents, EvmQueue.Represents, MessageQueue.IsQueueKey, EvmQueue.IsQueueKey,
         MessageQueue.PopTo, EvmAnchor.PopTo;
    SameQueueKeys();
    MessageQueue.PopToDrops(ink, q, index);
    EvmQueue.PopToDrops(evm, q, index);
  }

  lemma OneMoreReply<H>(
      handler: Handler<H>, ink: RollupClient.Chain<H>, evm: EvmAnchor.Anchor<H>,
      inkFront: seq<RollupClient.Action>, evmFront: seq<Bytes>, data: Bytes)
    ensures RollupClient.HandleActions(handler, ink, inkFront + [RollupClient.Reply(data)]) ==
            (match RollupClient.HandleActions(handler, ink, inkFront)
             case (mid, Fail(e)) => (mid, Fail(e))
             case (mid, Pass) =>
               match handler(mid.app, data)
               case Ok(app) => (mid.(app := app), Pass)
               case Err(e) => (mid, Fail(e)))
    ensures EvmAnchor.HandleActions(EvmHandlerOf(handler), evm, evmFront + [EvmAnchor.EncodeReply(data)]) ==
            (match EvmAnchor.HandleActions(EvmHandlerOf(handler), evm, evmFront)
             case (mid, Fail(e)) => (mid, Fail(e))
             case (mid, Pass) =>
               match handler(mid.app, data)
               case Ok(app) => (mid.(app := app), Pass)
               case Err(_) => (mid, Fail(EvmAnchor.HandlerReverted)))
  {
    hide EvmAnchor.PopTo, MessageQueue.PopTo, EvmAnchor.DecodeAction, EvmAnchor.EncodeReply;
    EvmAnchor.ActionsRecovered(data, 0);
    assert (inkFront + [RollupClient.Reply(data)])[..|inkFront|] == inkFront;
    assert (evmFront + [EvmAnchor.EncodeReply(data)])[..|evmFront|] == evmFront;
  }

  lemma {:induction false} RepliesOfTwins<H>(
      handler: Handler<H>, ink: RollupClient.Chain<H>, evm: EvmAnchor.Anchor<H>,
      inkFront: seq<RollupClient.Action>, evmFront: seq<Bytes>, replies: seq<Bytes>)
    requires var (i, e) := (RollupClient.HandleActions(handler, ink, inkFront),
                            EvmAnchor.HandleActions(EvmHandlerOf(handler), evm, evmFront));
             (i.1.Pass? <==> e.1.Pass?) && (i.1.Pass? ==> i.0.app == e.0.app)
    ensures var i0 := RollupClient.HandleActions(handler, ink, inkFront);
            var e0 := EvmAnchor.HandleActions(EvmHandlerOf(handler), evm, evmFront).0;
            var (i, e) := (RollupClient.HandleActions(handler, ink, inkFront + Session.AsReplies(replies)),
                           EvmAnchor.HandleActions(EvmHandlerOf(handler), evm, evmFront + EncodeReplies(replies)));
            && (i.1.Pass? <==> e.1.Pass?)
            && (i.1.Pass? ==> i0.1.Pass? && i.0 == i0.0.(app := i.0.app) && e.0 == e0.(app := i.0.app))
  {
    hide RollupClient.HandleActions, EvmAnchor.HandleActions, EvmHandlerOf, EvmAnchor.EncodeReply;
    if replies == [] {
      assert inkFront + Session.AsReplies(replies) == inkFront && evmFront + EncodeReplies(replies) == evmFront;
    } else {
      var n := |replies| - 1;
      var inkMid, evmMid := inkFront + Session.AsReplies(replies[..n]), evmFront + EncodeReplies(replies[..n]);
      RepliesOfTwins(handler, ink, evm, inkFront, evmFront, replies[..n]);
      OneMoreReply(handler, ink, evm, inkMid, evmMid, replies[n]);
      assert inkFront + Session.AsReplies(replies) == inkMid + [RollupClient.Reply(replies[n])];
      assert evmFront + EncodeReplies(replies) == evmMid + [EvmAnchor.EncodeReply(replies[n])];
    }
  }

  /** Handling a client's actions: the head move, if any, and the replies. */
  lemma ActionsOfTwins<H>(
      handler: Handler<H>, ink: RollupClient.Chain<H>, evm: EvmAnchor.Anchor<H>, q: MessageQueue.Queue, sent: Sent)
    requires Twins(ink, evm, q) && (sent.head.Some? ==> q.head <= sent.head.value < U256_LIMIT)
    ensures var (i, e) := (RollupClient.HandleActions(handler, ink, InkParams(sent).actions),
                           EvmAnchor.HandleActions(EvmHandlerOf(handler), evm, EvmParamsOf(sent).actions));
            && (i.1.Pass? <==> e.1.Pass?)
            && (i.1.Pass? ==> Twins(i.0, e.0, QueueAfter(q, sent)))
  {
    hide EvmAnchor.Load, Get, StoresTwins, EvmAnchor.PopTo, MessageQueue.PopTo, EvmAnchor.DecodeAction, EvmAnchor.EncodeSetQueueHead,
         EvmHandlerOf;
    match sent.head
    case None =>
      RepliesOfTwins(handler, ink, evm, [], [], sent.replies);
    case Some(index) =>
      HeadsOfTwins(ink.kv, evm.kv, q, index);
      EvmAnchor.ActionsRecovered([], index);
      OneAction(handler, ink, evm, index);
      RepliesOfTwins(handler, ink, evm, [RollupClient.SetQueueHead(index)], [EvmAnchor.EncodeSetQueueHead(index)], sent.replies);
  }

  lemma OneAction<H>(handler: Handler<H>, ink: RollupClient.Chain<H>, evm: EvmAnchor.Anchor<H>, index: nat)
    requires EvmAnchor.DecodeAction(EvmAnchor.EncodeSetQueueHead(index)) == Ok(EvmAnchor.SetQueueHead(index))
    ensures var (kv, outcome) := MessageQueue.PopTo(ink.kv, index);
            RollupClient.HandleActions(handler, ink, [RollupClient.SetQueueHead(index)]) == (ink.(kv := kv), outcome)
    ensures var (kv, outcome) := EvmAnchor.PopTo(evm.kv, index);
            EvmAnchor.HandleActions(EvmHandlerOf(handler), evm, [EvmAnchor.EncodeSetQueueHead(index)]) == (evm.(kv := kv), outcome)
  {
    hide MessageQueue.PopTo, EvmAnchor.PopTo, EvmAnchor.DecodeAction, EvmAnchor.EncodeSetQueueHead;
    var none: seq<RollupClient.Action>, empty: seq<Bytes> := [], [];
    assert [RollupClient.SetQueueHead(index)][..0] == none && [EvmAnchor.EncodeSetQueueHead(index)][..0] == empty;
  }

  /** The queue after a transaction that passes. */
  function QueueAfter(q: MessageQueue.Queue, sent: Sent): MessageQueue.Queue {
    if sent.head.Some? && q.head <= sent.head.value <= q.Tail()
    then MessageQueue.Queue(sent.head.value, q.items[sent.head.value - q.head..]) else q
  }

  /** One transaction, encoded for each contract, is accepted by both or by neither, and leaves them twins. */
  lemma TransactionsAgree<H>(
      handler: Handler<H>, self: Address, ink: RollupClient.Chain<H>, evm: EvmAnchor.Anchor<H>, q: MessageQueue.Queue, sent: Sent)
    requires Twins(ink, evm, q) && Sendable(self, ink.kv, q, sent)
    ensures var (i, e) := (RollupClient.Rollup(handler, ink, sent.attestor, InkParams(sent)),
                           EvmAnchor.Rollup(EvmHandlerOf(handler), self, evm, sent.attestor, EvmParamsOf(sent)));
            && (i.1.Pass? <==> e.1.Pass?)
            && Twins(i.0, e.0, if i.1.Pass? then QueueAfter(q, sent) else q)
  {
    hide StoresTwins, RollupClient.ConditionsMet, EvmAnchor.FirstUnmet, RollupClient.ApplyUpdates, EvmAnchor.ApplyWrites,
         RollupClient.HandleActions, EvmAnchor.HandleActions, QueueAfter;
    ConditionsOfTwins(ink.kv, evm.kv, q, sent.conditions);
    UpdatesKeepTwins(ink.kv, evm.kv, q, sent.updates);
    var ink' := ink.(kv := RollupClient.ApplyUpdates(ink.kv, sent.updates));
    var evm' := evm.(kv := EvmAnchor.ApplyWrites(evm.kv, EvmAnchor.KeysOf(sent.updates), EvmAnchor.ValuesOf(sent.updates)));
    if RollupClient.ConditionsMet(ink.kv, sent.conditions) {
      ActionsOfTwins(handler, ink', evm', q, sent);
    }
  }

  lemma PushesAgree(ink: Store, evm: Store, q: MessageQueue.Queue, data: Bytes)
    requires StoresTwins(ink, evm, q) && q.Tail() + 1 < U32_LIMIT
    ensures MessageQueue.Push(ink, data).1.Ok? && EvmAnchor.Push(evm, data).1.Ok?
    ensures StoresTwins(MessageQueue.Push(ink, data).0, EvmAnchor.Push(evm, data).0, MessageQueue.Queue(q.head, q.items + [data]))
  {
    hide EvmAnchor.Load, Get, MessageQueue.Represents, EvmQueue.Represents, MessageQueue.IsQueueKey, EvmQueue.IsQueueKey,
         MessageQueue.Push, EvmAnchor.Push;
    SameQueueKeys();
    assert U32_LIMIT < U256_LIMIT;
    MessageQueue.PushAppends(ink, q, data);
    EvmQueue.PushAppends(evm, q, data);
  }

  // ---------- whole runs ----------

  /** One call on the ink! contract, and whether it passed. */
  function InkCall<H>(handler: Handler<H>, s: RollupClient.Chain<H>, call: Call): (RollupClient.Chain<H>, bool) {
    match call
    case Push(data) =>
      var (kv, id) := MessageQueue.Push(s.kv, data);
      if id.Ok? then (s.(kv := kv), true) else (s, false)
    case Transact(sent) =>
      var (after, outcome) := RollupClient.Rollup(handler, s, sent.attestor, InkParams(sent));
      (after, outcome.Pass?)
  }

  /** The same call on the Solidity anchor. */
  function EvmCall<H>(handler: Handler<H>, self: Address, s: EvmAnchor.Anchor<H>, call: Call): (EvmAnchor.Anchor<H>, bool) {
    match call
    case Push(data) =>
      var (kv, id) := EvmAnchor.Push(s.kv, data);
      if id.Ok? then (s.(kv := kv), true) else (s, false)
    case Transact(sent) =>
      var (after, outcome) := EvmAnchor.Rollup(EvmHandlerOf(handler), self, s, sent.attestor, EvmParamsOf(sent));
      (after, outcome.Pass?)
  }

  function QueueStep(q: MessageQueue.Queue, call: Call, passed: bool): MessageQueue.Queue {
    if !passed then q else
    match call
    case Push(data) => MessageQueue.Queue(q.head, q.items + [data])
    case Transact(sent) => QueueAfter(q, sent)
  }

  /** A state of both contracts, the queue they hold, and the outcomes so far on each. */
  datatype Pair<H> = Pair(
    ink: RollupClient.Chain<H>, evm: EvmAnchor.Anchor<H>, q: MessageQueue.Queue, inkPassed: seq<bool>, evmPassed: seq<bool>)

  function PairStep<H>(handler: Handler<H>, self: Address, p: Pair<H>, call: Call): Pair<H> {
    var (ink, a) := InkCall(handler, p.ink, call);
    var (evm, b) := EvmCall(handler, self, p.evm, call);
    Pair(ink, evm, QueueStep(p.q, call, a), p.inkPassed + [a], p.evmPassed + [b])
  }

  ghost predicate Permitted(self: Address, ink: Store, q: MessageQueue.Queue, call: Call) {
    match call
    case Push(_) => q.Tail() + 1 < U32_LIMIT
    case Transact(sent) => Sendable(self, ink, q, sent)
  }

  /** A run: the pairs passed through from a pair of twins, each call permitted when its turn comes. */
  ghost predicate TwinRun<H>(handler: Handler<H>, self: Address, calls: seq<Call>, run: seq<Pair<H>>) {
    && |run| == |calls| + 1
    && Twins(run[0].ink, run[0].evm, run[0].q) && run[0].inkPassed == run[0].evmPassed
    && forall i {:trigger calls[i]} | 0 <= i < |calls| ::
         Permitted(self, run[i].ink.kv, run[i].q, calls[i]) && run[i + 1] == PairStep(handler, self, run[i], calls[i])
  }

  /**
    At every point of every run of pushes and client transactions the two contracts have accepted
    and refused the same calls and are twins: same queue, same roles and business state, same values.
   */
  lemma {:induction false} RunsAgree<H>(handler: Handler<H>, self: Address, calls: seq<Call>, run: seq<Pair<H>>, n: nat)
    requires TwinRun(handler, self, calls, run) && n <= |calls|
    ensures run[n].inkPassed == run[n].evmPassed
    ensures Twins(run[n].ink, run[n].evm, run[n].q)
  {
    hide Twins, PairStep, Permitted;
    if n > 0 {
      RunsAgree(handler, self, calls, run, n - 1);
      assert run[n - 1 + 1] == PairStep(handler, self, run[n - 1], calls[n - 1]);
      StepAgrees(handler, self, run[n - 1], calls[n - 1]);
    }
  }

  lemma StepAgrees<H>(handler: Handler<H>, self: Address, p: Pair<H>, call: Call)
    requires Twins(p.ink, p.evm, p.q) && p.inkPassed == p.evmPassed && Permitted(self, p.ink.kv, p.q, call)
    ensures var after := PairStep(handler, self, p, call);
            Twins(after.ink, after.evm, after.q) && after.inkPassed == after.evmPassed
  {
    hide StoresTwins, RollupClient.Rollup, EvmAnchor.Rollup, MessageQueue.Push, EvmAnchor.Push, Sendable, QueueAfter, InkParams,
         EvmParamsOf;
    match call
    case Push(data) => PushesAgree(p.ink.kv, p.evm.kv, p.q, data);
    case Transact(sent) => TransactionsAgree(handler, self, p.ink, p.evm, p.q, sent);
  }

  /** Freshly deployed, with the same attestors, they are twins. */
  lemma TwinsAtFirst<H>(roles: Roles, attestors: set<Address>, app: H)
    requires forall a :: (a, AttestorRole) in roles <==> a in attestors
    ensures Twins(RollupClient.Chain(map[], roles, map[], app), EvmAnchor.Anchor(map[], attestors, map[], app),
                  MessageQueue.Queue(0, []))
  {
  }
}
