/**
  The protocol with the Solidity anchor in place of the ink! contract, and the proof that the two
  run in lockstep: whatever schedule, the same answers, the same commits, the same history.
 */
module EvmProtocol {
  import opened Wrappers
  import opened ByteCodec
  import opened KvStore
  import opened AccessControl
  import opened MessageQueue
  import opened RollupClient
  import opened Session
  import opened SessionCache
  import opened Protocol
  import opened Serializability
  import opened EvmSession
  import EvmAnchor
  import EvmRefinement

  datatype EvmConfig<H> = EvmConfig(anchor: EvmAnchor.Anchor<H>, workers: map<WorkerId, Worker>, events: seq<Event<H>>) {
    function WorkerAt(w: WorkerId): Worker {
      if w in workers then workers[w] else FRESH_WORKER
    }
  }

  function EvmPushAll(kv: Store, messages: seq<Bytes>): (Store, Outcome<EvmAnchor.Revert>) {
    if messages == [] then (kv, Pass) else
    match EvmPushAll(kv, messages[..|messages| - 1])
    case (mid, Fail(e)) => (mid, Fail(e))
    case (mid, Pass) =>
      match EvmAnchor.Push(mid, messages[|messages| - 1])
      case (after, Ok(_)) => (after, Pass)
      case (after, Err(e)) => (after, Fail(e))
  }

  function AttestorsOf(roles: Roles): set<Address> {
    set r | r in roles && r.1 == AttestorRole :: r.0
  }

  /** One step, as in the protocol with the ink! contract. */
  function EvmApply<H>(handler: Handler<H>, self: Address, e: EvmConfig<H>, step: Step<H>): EvmConfig<H> {
    match step
    case CallContract(app, messages) =>
      (match EvmPushAll(e.anchor.kv, messages)
       case (_, Fail(_)) => e
       case (kv, Pass) =>
         e.(anchor := e.anchor.(kv := kv, app := app), events := e.events + [ContractCalled(app, messages)]))
    case ChangeAccounts(roles, nonces) =>
      e.(anchor := e.anchor.(attestors := AttestorsOf(roles), nonces := nonces),
         events := e.events + [AccountsChanged(roles, nonces)])
    case Commit(w, attestor) =>
      var wk := e.WorkerAt(w);
      (match SentBy(wk.session, attestor)
       case Err(_) => e
       case Ok(None) => e
       case Ok(Some(sent)) =>
         match EvmAnchor.Rollup(EvmRefinement.EvmHandlerOf(handler), self, e.anchor, attestor, EvmRefinement.EvmParamsOf(sent))
         case (_, Fail(_)) => e
         case (anchor, Pass) =>
           e.(anchor := anchor,
              events := e.events + [SessionCommitted(attestor, wk.startedAt, wk.trace, wk.session.actions)]))
    case _ =>
      e.(workers := e.workers[step.w := StepOf(e.WorkerAt(step.w), e.anchor.kv, CommitCount(e.events), step)])
  }

  /** A freshly deployed anchor and no session yet. */
  function EvmInitial<H>(roles: Roles, nonces: Nonces, app: H): EvmConfig<H> {
    EvmConfig(EvmAnchor.Anchor(map[], AttestorsOf(roles), nonces, app), map[], [])
  }

  // ---------- the same history ----------

  function RecodeEvent<H>(event: Event<H>): Event<H> {
    match event
    case SessionCommitted(attestor, startedAt, trace, replies) =>
      SessionCommitted(attestor, startedAt, RecodeTrace(trace), replies)
    case other => other
  }

  function RecodeEvents<H>(events: seq<Event<H>>): (r: seq<Event<H>>)
    ensures |r| == |events| && forall i | 0 <= i < |r| :: r[i] == RecodeEvent(events[i])
  {
    seq(|events|, i requires 0 <= i < |events| => RecodeEvent(events[i]))
  }

  lemma {:induction false} RecodedPolls(trace: seq<Op>)
    ensures Polls(RecodeTrace(trace)) == Polls(trace)
  {
    if trace != [] {
      var n := |trace| - 1;
      RecodedPolls(trace[..n]);
      assert RecodeTrace(trace)[..n] == RecodeTrace(trace[..n]);
    }
  }

  lemma {:induction false} RecodedHistory<H>(events: seq<Event<H>>)
    ensures CommitCount(RecodeEvents(events)) == CommitCount(events)
    ensures PolledBy(RecodeEvents(events)) == PolledBy(events)
    ensures PushedBy(RecodeEvents(events)) == PushedBy(events)
  {
    if events != [] {
      var n := |events| - 1;
      RecodedHistory(events[..n]);
      assert RecodeEvents(events)[..n] == RecodeEvents(events[..n]);
      if events[n].SessionCommitted? {
        RecodedPolls(events[n].trace);
      }
    }
  }

  lemma EventsSnoc<H>(events: seq<Event<H>>, event: Event<H>)
    ensures RecodeEvents(events + [event]) == RecodeEvents(events) + [RecodeEvent(event)]
  {
  }

  // ---------- the relation ----------

  /** The two systems say the same, each in its encoding. */
  ghost predicate Matches<H>(c: Config<H>, e: EvmConfig<H>) {
    && StoresMatch(c.chain.kv, e.anchor.kv, QueueAfter(c.events))
    && e.anchor.attestors == AttestorsOf(c.chain.roles)
    && e.anchor.app == c.chain.app
    && e.events == RecodeEvents(c.events)
    && WorkersMatch(c, e)
  }

  ghost predicate WorkersMatch<H>(c: Config<H>, e: EvmConfig<H>) {
    forall w :: e.WorkerAt(w) == RecodeWorker(c.WorkerAt(w)) && SafeWorker(c.WorkerAt(w))
  }

  lemma OneWorkerMatches<H>(c: Config<H>, e: EvmConfig<H>, w: WorkerId)
    requires WorkersMatch(c, e)
    ensures e.WorkerAt(w) == RecodeWorker(c.WorkerAt(w)) && SafeWorker(c.WorkerAt(w))
  {
    hide SafeWorker, RecodeWorker;
  }

  // ---------- the contract's calls ----------

  lemma RecodeKeepsQueueKeys(kv: Store)
    ensures forall k | IsQueueKey(k) :: Get(RecodeStore(kv), k) == Get(kv, k)
  {
    VersionKeyIsNotQueueKey();
    hide IsQueueKey, RecodeVersion;
  }

  lemma RecodePush(kv: Store, m: Bytes)
    ensures Push(RecodeStore(kv), m) == (RecodeStore(Push(kv, m).0), Push(kv, m).1)
  {
    hide RecodeVersion, IsQueueKey, MessageKey, ReadIndex, EncodeU32, IndexOf, RecodeStore, Get;
    VersionKeyIsNotQueueKey();
    QueueKeysDistinct();
    RecodeKeepsIndices(kv);
    forall k ensures Get(Push(RecodeStore(kv), m).0, k) == Get(RecodeStore(Push(kv, m).0), k) {
      RecodedPushReads(kv, m, k);
    }
    SameReads(Push(RecodeStore(kv), m).0, RecodeStore(Push(kv, m).0));
  }

  lemma RecodeKeepsIndices(kv: Store)
    ensures ReadIndex(RecodeStore(kv), TAIL_KEY) == ReadIndex(kv, TAIL_KEY)
    ensures ReadIndex(RecodeStore(kv), HEAD_KEY) == ReadIndex(kv, HEAD_KEY)
  {
    QueueKeysDistinct();
    RecodeKeepsQueueKeys(kv);
    hide RecodeStore, IsQueueKey, DecodeU32, Get;
  }

  lemma RecodedPushReads(kv: Store, m: Bytes, k: Key)
    requires ReadIndex(RecodeStore(kv), TAIL_KEY) == ReadIndex(kv, TAIL_KEY)
    ensures Get(Push(RecodeStore(kv), m).0, k) == Get(RecodeStore(Push(kv, m).0), k)
  {
    VersionKeyIsNotQueueKey();
    QueueKeysDistinct();
    assert Get(RecodeStore(kv), k) == Recode(k, Get(kv, k));
    hide RecodeVersion, IsQueueKey, MessageKey, ReadIndex, EncodeU32, IndexOf, RecodeStore;
  }

  lemma RecodePop(kv: Store, target: nat)
    ensures PopTo(RecodeStore(kv), target) == (RecodeStore(PopTo(kv, target).0), PopTo(kv, target).1)
  {
    VersionKeyIsNotQueueKey();
    QueueKeysDistinct();
    RecodeKeepsIndices(kv);
    hide RecodeVersion, IsQueueKey, MessageKey, ReadIndex, EncodeU32, IndexOf, RecodeStore;
    forall k ensures Get(PopTo(RecodeStore(kv), target).0, k) == Get(RecodeStore(PopTo(kv, target).0), k) {
      assert Get(RecodeStore(kv), k) == Recode(k, Get(kv, k));
    }
    SameReads(PopTo(RecodeStore(kv), target).0, RecodeStore(PopTo(kv, target).0));
  }

  lemma PushMatches(ink: Store, evm: Store, q: Queue, m: Bytes)
    requires StoresMatch(ink, evm, q) && m != [] && q.Tail() + 1 < U32_LIMIT
    ensures Push(ink, m).1.Ok? && EvmAnchor.Push(evm, m).1.Ok?
    ensures StoresMatch(Push(ink, m).0, EvmAnchor.Push(evm, m).0, Queue(q.head, q.items + [m]))
  {
    hide Push, EvmAnchor.Push, Represents, RecodeStore, IsQueueKey, EvmRefinement.StoresTwins, VersionForm, Get;
    RecodePush(ink, m);
    PushAppends(ink, q, m);
    VersionKeyIsNotQueueKey();
    EvmRefinement.PushesAgree(RecodeStore(ink), evm, q, m);
  }

  lemma {:induction false} PushAllMatches(ink: Store, evm: Store, q: Queue, messages: seq<Bytes>)
    requires StoresMatch(ink, evm, q) && q.Tail() + |messages| < U32_LIMIT && forall m | m in messages :: m != []
    ensures PushAll(ink, messages).1.Pass? && EvmPushAll(evm, messages).1.Pass?
    ensures StoresMatch(PushAll(ink, messages).0, EvmPushAll(evm, messages).0, Queue(q.head, q.items + messages))
  {
    hide StoresMatch, Push, EvmAnchor.Push;
    if messages == [] {
      assert q.items + messages == q.items;
    } else {
      var n := |messages| - 1;
      forall m | m in messages[..n] ensures m != [] {
        assert m in messages;
      }
      assert messages[n] in messages;
      PushAllMatches(ink, evm, q, messages[..n]);
      PushMatches(PushAll(ink, messages[..n]).0, EvmPushAll(evm, messages[..n]).0, Queue(q.head, q.items + messages[..n]), messages[n]);
      assert q.items + messages[..n] + [messages[n]] == q.items + messages;
    }
  }

  // ---------- the transaction of a commit ----------

  lemma RecodedConditions(kv: Store, values: InsertionMap)
    requires VersionForm(Get(kv, VERSION_KEY)) && SafeValues(values.entries)
    ensures ConditionsMet(RecodeStore(kv), RecodeMap(values).Pairs()) <==> ConditionsMet(kv, values.Pairs())
  {
    ConditionsAreReads(kv, values);
    ConditionsAreReads(RecodeStore(kv), RecodeMap(values));
    hide ConditionsMet, OrderedMap.Valid, RecodeVersion, VersionForm, RecodeStore, RecodeMap, IsQueueKey, SafeValues, Get;
    forall k ensures k in RecodeMap(values).entries <==> k in values.entries {
      RecodedEntry(values, k);
    }
    forall k | k in values.entries
      ensures Get(RecodeStore(kv), k) == RecodeMap(values).entries[k] <==> Get(kv, k) == values.entries[k]
    {
      RecodedCondition(kv, values, k);
    }
  }

  lemma RecodedCondition(kv: Store, values: InsertionMap, k: Key)
    requires VersionForm(Get(kv, VERSION_KEY)) && SafeValues(values.entries) && k in values.entries
    ensures k in RecodeMap(values).entries
    ensures Get(RecodeStore(kv), k) == RecodeMap(values).entries[k] <==> Get(kv, k) == values.entries[k]
  {
    hide OrderedMap.Valid, RecodeVersion, VersionForm, RecodeStore, RecodeMap, IsQueueKey, Get;
    RecodedEntry(values, k);
    if k == VERSION_KEY && RecodeVersion(Get(kv, k)) == RecodeVersion(values.entries[k]) {
      RecodeVersionInjective(Get(kv, k), values.entries[k]);
    }
  }

  lemma RecodedUpdates(kv: Store, version: nat, updates: InsertionMap)
    requires version < U32_LIMIT && SafeUpdates(updates.entries)
    ensures ApplyUpdates(RecodeStore(kv), [(VERSION_KEY, Some(EvmAnchor.EncodeUint(version)))] + updates.Pairs()) ==
            RecodeStore(ApplyUpdates(kv, [VersionUpdate(version)] + updates.Pairs()))
  {
    hide ApplyUpdates, OrderedMap.Valid, RecodeVersion, RecodeStore, SafeUpdates, Set, Overlay, EncodeU32, EvmAnchor.EncodeUint;
    FirstThenWrites(kv, VersionUpdate(version), updates);
    FirstThenWrites(RecodeStore(kv), (VERSION_KEY, Some(EvmAnchor.EncodeUint(version))), updates);
    var a := Overlay(Set(RecodeStore(kv), VERSION_KEY, Some(EvmAnchor.EncodeUint(version))), updates.entries);
    var b := RecodeStore(Overlay(Set(kv, VERSION_KEY, Some(EncodeU32(version))), updates.entries));
    forall k ensures Get(a, k) == Get(b, k) {
      RecodedUpdateAt(kv, version, updates, k);
    }
    SameReads(a, b);
  }

  lemma RecodedUpdateAt(kv: Store, version: nat, updates: InsertionMap, k: Key)
    requires version < U32_LIMIT && SafeUpdates(updates.entries)
    ensures Get(Overlay(Set(RecodeStore(kv), VERSION_KEY, Some(EvmAnchor.EncodeUint(version))), updates.entries), k) ==
            Get(RecodeStore(Overlay(Set(kv, VERSION_KEY, Some(EncodeU32(version))), updates.entries)), k)
  {
    RecodedNumber(version);
    hide OrderedMap.Valid, RecodeVersion, RecodeStore, IsQueueKey, Set, Overlay, EncodeU32, EvmAnchor.EncodeUint, Get;
  }

  lemma {:induction false} RecodedActions<H>(handler: Handler<H>, s: Chain<H>, actions: seq<Action>)
    ensures var (after, outcome) := HandleActions(handler, s, actions);
            HandleActions(handler, s.(kv := RecodeStore(s.kv)), actions) == (after.(kv := RecodeStore(after.kv)), outcome)
  {
    hide PopTo, RecodeStore, GrantUnchecked, RevokeUnchecked;
    if actions != [] {
      var n := |actions| - 1;
      RecodedActions(handler, s, actions[..n]);
      if actions[n].SetQueueHead? {
        RecodePop(HandleActions(handler, s, actions[..n]).0.kv, actions[n].index);
      }
    }
  }

  /** The session's transaction does to the recoded store what it does to the store. */
  lemma RecodedRollup<H>(handler: Handler<H>, chain: Chain<H>, s: SessionState, attestor: Address, version: nat)
    requires VersionForm(Get(chain.kv, VERSION_KEY)) && version < U32_LIMIT
    requires SafeValues(s.values.entries) && SafeUpdates(s.updates.entries)
    ensures var (after, outcome) := Rollup(handler, chain, attestor, ParamsOf(s, version));
            Rollup(handler, chain.(kv := RecodeStore(chain.kv)), attestor,
                   EvmRefinement.InkParams(SentWith(RecodeSession(s), attestor, version))) ==
            (after.(kv := RecodeStore(after.kv)), outcome)
  {
    RecodedConditions(chain.kv, s.values);
    RecodedUpdates(chain.kv, version, s.updates);
    var params := ParamsOf(s, version);
    RecodedActions(handler, chain.(kv := ApplyUpdates(chain.kv, params.updates)), params.actions);
    SameActions(s, attestor, version);
    hide ConditionsMet, ApplyUpdates, HandleActions, RecodeStore, RecodeMap, VersionForm, SafeValues, SafeUpdates, OrderedMap.Valid,
         HeadMove, AsReplies;
  }

  lemma SameActions(s: SessionState, attestor: Address, version: nat)
    ensures EvmRefinement.InkParams(SentWith(RecodeSession(s), attestor, version)).actions == ParamsOf(s, version).actions
  {
    hide OrderedMap.Valid, RecodeMap;
  }

  /** It is one the two contracts agree about. */
  lemma SessionSendable(
      self: Address, kv: Store, q: Queue, commits: nat, wk: Worker, attestor: Address, version: nat)
    requires StoreOk(kv, q, commits) && commits < U32_LIMIT && WorkerOk(q, commits, wk) && wk.session.version.Some?
    requires SafeWorker(wk) && VersionForm(Get(kv, VERSION_KEY)) && attestor != self
    ensures EvmRefinement.Sendable(self, RecodeStore(kv), q, SentWith(RecodeSession(wk.session), attestor, version))
  {
    var s := wk.session;
    var sent := SentWith(RecodeSession(s), attestor, version);
    RecodedConditions(kv, s.values);
    PlainPairs(s, attestor, version);
    hide StoreOk, WorkerOk, RecodeStore, RecodeMap, ConditionsMet, EvmRefinement.NoEmptyUserEntries, VersionForm, SafeValues,
         SafeUpdates, OrderedMap.Valid;
    if ConditionsMet(kv, s.values.Pairs()) {
      HeadInRange(kv, q, commits, wk);
    }
  }

  lemma HeadInRange(kv: Store, q: Queue, commits: nat, wk: Worker)
    requires StoreOk(kv, q, commits) && commits < U32_LIMIT && WorkerOk(q, commits, wk) && wk.session.version.Some?
    requires ConditionsMet(kv, wk.session.values.Pairs())
    ensures wk.session.currentIndex.Some? ==> q.head <= wk.session.currentIndex.value < U256_LIMIT
  {
    NotOvertaken(kv, q, commits, wk);
    assert U32_LIMIT < U256_LIMIT;
    hide WorkerOk, ConditionsMet, Polls, MatchesTrace, ReadIndex, Get;
  }

  lemma PlainPairs(s: SessionState, attestor: Address, version: nat)
    requires SafeValues(s.values.entries) && SafeUpdates(s.updates.entries)
    ensures var sent := SentWith(RecodeSession(s), attestor, version);
            EvmRefinement.NoEmptyUserEntries(sent.conditions) && EvmRefinement.NoEmptyUserEntries(sent.updates)
  {
    var sent := SentWith(RecodeSession(s), attestor, version);
    VersionKeyIsNotQueueKey();
    forall i | 0 <= i < |sent.conditions|
      ensures !IsQueueKey(sent.conditions[i].0) && sent.conditions[i].1 != Some([])
    {
      var k := s.values.keys[i];
      assert k in s.values.entries && sent.conditions[i] == (k, Recode(k, s.values.entries[k]));
    }
    forall i | 0 <= i < |sent.updates| ensures !IsQueueKey(sent.updates[i].0) && sent.updates[i].1 != Some([]) {
      if i > 0 {
        assert sent.updates[i] == s.updates.Pairs()[i - 1];
        assert s.updates.keys[i - 1] in s.updates.entries;
      }
    }
  }

  /** Keys and queue determine each other. */
  lemma UniqueQueue(kv: Store, a: Queue, b: Queue)
    requires Represents(kv, a) && Represents(kv, b)
    ensures a == b
  {
    hide ReadIndex, MessageKey;
    forall i | 0 <= i < |a.items| ensures a.items[i] == b.items[i] {
      assert Get(kv, MessageKey(a.head + i)) == Some(a.items[i]);
    }
  }

  lemma RecodedQueue(kv: Store, q: Queue)
    requires Represents(kv, q)
    ensures Represents(RecodeStore(kv), q)
  {
    RecodeKeepsQueueKeys(kv);
    hide RecodeStore, Represents, IsQueueKey;
    RepresentsFrame(kv, RecodeStore(kv), q);
  }

  // ---------- lockstep ----------

  /** A safe step, and no transaction in the anchor's own name. */
  predicate EvmSafe<H>(self: Address, step: Step<H>) {
    SafeStep(step) && (step.Commit? ==> step.attestor != self)
  }

  lemma AttestorsTwin<H>(chain: Chain<H>, anchor: EvmAnchor.Anchor<H>)
    ensures anchor.attestors == AttestorsOf(chain.roles) <==>
            forall a :: (a, AttestorRole) in chain.roles <==> a in anchor.attestors
  {
  }

  lemma TransactionsTwin<H>(
      handler: Handler<H>, self: Address, chain: Chain<H>, anchor: EvmAnchor.Anchor<H>, q: Queue, commits: nat, wk: Worker,
      attestor: Address, version: nat)
    requires StoresMatch(chain.kv, anchor.kv, q) && StoreOk(chain.kv, q, commits) && commits < U32_LIMIT
    requires WorkerOk(q, commits, wk) && wk.session.version.Some? && SafeWorker(wk)
    requires anchor.attestors == AttestorsOf(chain.roles) && anchor.app == chain.app
    requires attestor != self && version < U32_LIMIT
    ensures var sent := SentWith(RecodeSession(wk.session), attestor, version);
            var i := Rollup(handler, chain, attestor, ParamsOf(wk.session, version));
            var e := EvmAnchor.Rollup(EvmRefinement.EvmHandlerOf(handler), self, anchor, attestor, EvmRefinement.EvmParamsOf(sent));
            && (i.1.Pass? <==> e.1.Pass?)
            && e.0.attestors == AttestorsOf(i.0.roles) && e.0.app == i.0.app
            && exists q' :: EvmRefinement.StoresTwins(RecodeStore(i.0.kv), e.0.kv, q')
  {
    var sent := SentWith(RecodeSession(wk.session), attestor, version);
    var recoded := chain.(kv := RecodeStore(chain.kv));
    SessionSendable(self, chain.kv, q, commits, wk, attestor, version);
    RecodedRollup(handler, chain, wk.session, attestor, version);
    AttestorsTwin(recoded, anchor);
    hide StoreOk, WorkerOk, Represents, RecodeStore, VersionForm, SentWith, RecodeSession, Rollup, EvmAnchor.Rollup, ParamsOf,
         EvmRefinement.Sendable, EvmRefinement.InkParams, EvmRefinement.EvmParamsOf, EvmRefinement.StoresTwins, SafeValues,
         SafeUpdates, AttestorsOf, EvmRefinement.QueueAfter;
    EvmRefinement.TransactionsAgree(handler, self, recoded, anchor, q, sent);
    var i := Rollup(handler, recoded, attestor, EvmRefinement.InkParams(sent)).0;
    var e := EvmAnchor.Rollup(EvmRefinement.EvmHandlerOf(handler), self, anchor, attestor, EvmRefinement.EvmParamsOf(sent)).0;
    AttestorsTwin(i, e);
  }

  /** Stores that are twins for some queue match for the one the history says. */
  lemma TwinsMatch(ink: Store, evm: Store, q: Queue, q': Queue, commits: nat)
    requires EvmRefinement.StoresTwins(RecodeStore(ink), evm, q') && StoreOk(ink, q, commits)
    requires forall m | m in q.items :: m != []
    ensures StoresMatch(ink, evm, q)
  {
    RecodedQueue(ink, q);
    hide Represents, RecodeStore;
    UniqueQueue(RecodeStore(ink), q, q');
  }

  lemma SameSent(s: SessionState, attestor: Address)
    ensures RecodeSession(s).HasUpdates() == s.HasUpdates() && BumpVersion(RecodeSession(s)) == BumpVersion(s)
  {
    hide RecodeMap;
  }

  lemma TakenCommitMatches<H>(
      handler: Handler<H>, self: Address, start: Chain<H>, c: Config<H>, e: EvmConfig<H>, w: WorkerId, attestor: Address)
    requires Inv(handler, start, c) && Matches(c, e) && CommitCount(c.events) < U32_LIMIT
    requires var c', e' := Apply(handler, c, Commit(w, attestor)), EvmApply(handler, self, e, Commit(w, attestor));
             && c' != c
             && e'.workers == e.workers
             && e'.events == e.events + [SessionCommitted(attestor, e.WorkerAt(w).startedAt, e.WorkerAt(w).trace,
                                                          e.WorkerAt(w).session.actions)]
             && e'.anchor.attestors == AttestorsOf(c'.chain.roles) && e'.anchor.app == c'.chain.app
             && exists q' :: EvmRefinement.StoresTwins(RecodeStore(c'.chain.kv), e'.anchor.kv, q')
    ensures Matches(Apply(handler, c, Commit(w, attestor)), EvmApply(handler, self, e, Commit(w, attestor)))
  {
    hide Inv, Apply, EvmApply, StoresMatch, StoreOk, EvmRefinement.StoresTwins, RecodeStore, AtomicRun, AtomicSession,
         FoldReplies, QueueAfter, PushedBy, PolledBy, PollsArePrefix, WorkersOk, CommitCount, SafeWorker, AttestorsOf, StartsInOrder;
    var c', e' := Apply(handler, c, Commit(w, attestor)), EvmApply(handler, self, e, Commit(w, attestor));
    var wk, q, n := c.WorkerAt(w), QueueAfter(c.events), CommitCount(c.events);
    InvParts(handler, start, c);
    OneWorkerMatches(c, e, w);
    CommitApplies(handler, start, c, w, attestor);
    HistoryOnCommit(c.events, attestor, wk.trace, wk.session.actions);
    EventsSnoc(c.events, SessionCommitted(attestor, n, wk.trace, wk.session.actions));
    ItemsNotEmpty(c.chain.kv, e.anchor.kv, q);
    forall m | m in QueueAfter(c'.events).items ensures m != [] {
      assert m in q.items;
    }
    var q' :| EvmRefinement.StoresTwins(RecodeStore(c'.chain.kv), e'.anchor.kv, q');
    TwinsMatch(c'.chain.kv, e'.anchor.kv, QueueAfter(c'.events), q', n + 1);
    SameWorkers(c, e, c', e');
  }

  lemma ItemsNotEmpty(ink: Store, evm: Store, q: Queue)
    requires StoresMatch(ink, evm, q)
    ensures forall m | m in q.items :: m != []
  {
  }

  lemma SameWorkers<H>(c: Config<H>, e: EvmConfig<H>, c': Config<H>, e': EvmConfig<H>)
    requires WorkersMatch(c, e) && c'.workers == c.workers && e'.workers == e.workers
    ensures WorkersMatch(c', e')
  {
    hide SafeWorker, RecodeWorker;
    forall w ensures e'.WorkerAt(w) == RecodeWorker(c'.WorkerAt(w)) && SafeWorker(c'.WorkerAt(w)) {
      OneWorkerMatches(c, e, w);
    }
  }

  /** What a commit does on each side, once it is known what it sends. */
  lemma InkCommitEffect<H>(handler: Handler<H>, c: Config<H>, w: WorkerId, attestor: Address)
    ensures var wk := c.WorkerAt(w);
            var c' := Apply(handler, c, Commit(w, attestor));
            if !wk.session.HasUpdates() || BumpVersion(wk.session).Err? then c' == c
            else
              var (chain, outcome) := Rollup(handler, c.chain, attestor, ParamsOf(wk.session, BumpVersion(wk.session).value));
              if outcome.Fail? then c' == c
              else
                && c' == c.(chain := chain,
                            events := c.events + [SessionCommitted(attestor, wk.startedAt, wk.trace, wk.session.actions)])
                && c' != c
  {
    hide Rollup, ParamsOf;
  }

  lemma EvmCommitEffect<H>(handler: Handler<H>, self: Address, e: EvmConfig<H>, w: WorkerId, attestor: Address)
    ensures var wk := e.WorkerAt(w);
            var e' := EvmApply(handler, self, e, Commit(w, attestor));
            if !wk.session.HasUpdates() || BumpVersion(wk.session).Err? then e' == e
            else
              var sent := SentWith(wk.session, attestor, BumpVersion(wk.session).value);
              var (anchor, outcome) :=
                EvmAnchor.Rollup(EvmRefinement.EvmHandlerOf(handler), self, e.anchor, attestor, EvmRefinement.EvmParamsOf(sent));
              if outcome.Fail? then e' == e
              else e' == e.(anchor := anchor,
                            events := e.events + [SessionCommitted(attestor, wk.startedAt, wk.trace, wk.session.actions)])
  {
    hide EvmAnchor.Rollup, SentWith, EvmRefinement.EvmParamsOf;
  }

  lemma CommitMatches<H>(
      handler: Handler<H>, self: Address, start: Chain<H>, c: Config<H>, e: EvmConfig<H>, w: WorkerId, attestor: Address)
    requires Inv(handler, start, c) && Matches(c, e) && CommitCount(c.events) + 1 < U32_LIMIT && attestor != self
    ensures Matches(Apply(handler, c, Commit(w, attestor)), EvmApply(handler, self, e, Commit(w, attestor)))
  {
    hide Inv, Apply, EvmApply, StoresMatch, StoreOk, WorkersOk, QueueAfter, PushedBy, PolledBy, AtomicRun, StartsInOrder,
         CommitCount, Rollup, EvmAnchor.Rollup, ParamsOf, SentWith, RecodeSession, SafeWorker, EvmRefinement.EvmParamsOf,
         EvmRefinement.StoresTwins, RecodeStore, AttestorsOf, RecodeTrace, RecodeEvents;
    var wk, q, n := c.WorkerAt(w), QueueAfter(c.events), CommitCount(c.events);
    InvParts(handler, start, c);
    OneWorkerOk(q, n, c, w);
    OneWorkerMatches(c, e, w);
    InkCommitEffect(handler, c, w, attestor);
    EvmCommitEffect(handler, self, e, w, attestor);
    SameSent(wk.session, attestor);
    if wk.session.HasUpdates() && BumpVersion(wk.session).Ok? {
      VersionBelow(q, n, wk);
      TransactionsTwin(handler, self, c.chain, e.anchor, q, n, wk, attestor, BumpVersion(wk.session).value);
      if Apply(handler, c, Commit(w, attestor)) != c {
        TakenCommitMatches(handler, self, start, c, e, w, attestor);
      }
    }
  }

  lemma VersionBelow(q: Queue, commits: nat, wk: Worker)
    requires WorkerOk(q, commits, wk) && commits + 1 < U32_LIMIT && BumpVersion(wk.session).Ok?
    ensures wk.session.version.Some? && BumpVersion(wk.session).value < U32_LIMIT
  {
    hide MatchesTrace, PollsArePrefix;
  }

  lemma OwnStepMatches<H>(handler: Handler<H>, self: Address, c: Config<H>, e: EvmConfig<H>, step: Step<H>)
    requires Matches(c, e) && OwnStep(step) && SafeStep(step)
    ensures Matches(Apply(handler, c, step), EvmApply(handler, self, e, step))
  {
    hide Apply, StoresMatch, QueueAfter, CommitCount, SafeWorker, AttestorsOf, WorkerStep, StepOf, RecodeWorker, SafeStep, RecodeEvents;
    var c', e' := Apply(handler, c, step), EvmApply(handler, self, e, step);
    OwnStepEffect(handler, c, step);
    RecodedHistory(c.events);
    OneWorkerMatches(c, e, step.w);
    StepMatches(c.WorkerAt(step.w), c.chain.kv, e.anchor.kv, QueueAfter(c.events), CommitCount(c.events), step);
    forall w ensures e'.WorkerAt(w) == RecodeWorker(c'.WorkerAt(w)) && SafeWorker(c'.WorkerAt(w)) {
      OneWorkerMatches(c, e, w);
    }
  }

  /** The messages of a call still have indices below 2^32. */
  predicate FitsQueue<H>(events: seq<Event<H>>, step: Step<H>) {
    step.CallContract? ==> |PushedBy(events)| + |step.messages| < U32_LIMIT
  }

  lemma CallMatches<H>(
      handler: Handler<H>, self: Address, start: Chain<H>, c: Config<H>, e: EvmConfig<H>, app: H, messages: seq<Bytes>)
    requires Inv(handler, start, c) && Matches(c, e)
    requires SafeStep<H>(CallContract(app, messages)) && FitsQueue(e.events, CallContract(app, messages))
    ensures Matches(Apply(handler, c, CallContract(app, messages)), EvmApply(handler, self, e, CallContract(app, messages)))
  {
    hide Inv, StoresMatch, StoreOk, WorkersOk, QueueAfter, PushedBy, PolledBy, AtomicRun, StartsInOrder, CommitCount, PushAll,
         EvmPushAll, AttestorsOf, RecodeEvents, WorkersMatch;
    var c', e' := Apply(handler, c, CallContract(app, messages)), EvmApply(handler, self, e, CallContract(app, messages));
    InvParts(handler, start, c);
    RecodedHistory(c.events);
    TailIsPushed(c.events);
    PushAllMatches(c.chain.kv, e.anchor.kv, QueueAfter(c.events), messages);
    HistoryOnCall(c.events, app, messages);
    EventsSnoc(c.events, ContractCalled(app, messages));
    SameWorkers(c, e, c', e');
  }

  lemma TailIsPushed<H>(events: seq<Event<H>>)
    requires PolledBy(events) <= PushedBy(events)
    ensures QueueAfter(events).Tail() == |PushedBy(events)|
  {
    hide PolledBy, PushedBy;
  }

  lemma AccountsMatch<H>(
      handler: Handler<H>, self: Address, start: Chain<H>, c: Config<H>, e: EvmConfig<H>, roles: Roles, nonces: Nonces)
    requires Inv(handler, start, c) && Matches(c, e)
    ensures Matches(Apply(handler, c, ChangeAccounts(roles, nonces)), EvmApply(handler, self, e, ChangeAccounts(roles, nonces)))
  {
    hide Inv, StoresMatch, StoreOk, WorkersOk, QueueAfter, PushedBy, PolledBy, AtomicRun, StartsInOrder, CommitCount, AttestorsOf,
         RecodeEvents, WorkersMatch;
    InvParts(handler, start, c);
    HistoryOnAccounts(c.events, roles, nonces);
    EventsSnoc(c.events, AccountsChanged(roles, nonces));
    SameWorkers(c, e, Apply(handler, c, ChangeAccounts(roles, nonces)), EvmApply(handler, self, e, ChangeAccounts(roles, nonces)));
  }

  /** One step of both, in lockstep. */
  lemma StepLockstep<H>(handler: Handler<H>, self: Address, start: Chain<H>, c: Config<H>, e: EvmConfig<H>, step: Step<H>)
    requires Inv(handler, start, c) && Matches(c, e) && CommitCount(e.events) + 1 < U32_LIMIT
    requires EvmSafe(self, step) && FitsQueue(e.events, step)
    ensures Matches(Apply(handler, c, step), EvmApply(handler, self, e, step))
  {
    CommitsMatch(c, e);
    hide Inv, Matches, Apply, EvmApply, FitsQueue, SafeStep, CommitCount;
    match step
    case Commit(w, attestor) => CommitMatches(handler, self, start, c, e, w, attestor);
    case CallContract(app, messages) => CallMatches(handler, self, start, c, e, app, messages);
    case ChangeAccounts(roles, nonces) => AccountsMatch(handler, self, start, c, e, roles, nonces);
    case _ => OwnStepMatches(handler, self, c, e, step);
  }

  lemma CommitsMatch<H>(c: Config<H>, e: EvmConfig<H>)
    requires Matches(c, e)
    ensures CommitCount(e.events) == CommitCount(c.events)
    ensures PolledBy(e.events) == PolledBy(c.events) && PushedBy(e.events) == PushedBy(c.events)
  {
    hide StoresMatch, WorkersMatch, CommitCount, PolledBy, PushedBy, RecodeEvents, AttestorsOf;
    RecodedHistory(c.events);
  }

  // ---------- whole runs ----------

  /**
    A run of the protocol with the anchor, as the configurations it passes through: safe steps
    from deployment, with fewer than 2^32 - 1 commits in all and all message indices below 2^32.
   */
  ghost predicate EvmRun<H>(
      handler: Handler<H>, self: Address, roles: Roles, nonces: Nonces, app: H, steps: seq<Step<H>>, run: seq<EvmConfig<H>>)
  {
    && |run| == |steps| + 1
    && run[0] == EvmInitial(roles, nonces, app)
    && (forall i {:trigger steps[i]} | 0 <= i < |steps| ::
          && EvmSafe(self, steps[i]) && FitsQueue(run[i].events, steps[i])
          && run[i + 1] == EvmApply(handler, self, run[i], steps[i]))
    && CommitCount(run[|steps|].events) + 1 < U32_LIMIT
  }

  lemma EvmCommitsGrow<H>(handler: Handler<H>, self: Address, e: EvmConfig<H>, step: Step<H>)
    ensures CommitCount(e.events) <= CommitCount(EvmApply(handler, self, e, step).events)
  {
    hide EvmPushAll, EvmAnchor.Rollup, StepOf, SentBy;
    var e' := EvmApply(handler, self, e, step);
    if e'.events != e.events {
      assert e'.events[..|e'.events| - 1] == e.events;
    }
  }

  lemma {:induction false} FewCommitsSoFar<H>(
      handler: Handler<H>, self: Address, roles: Roles, nonces: Nonces, app: H, steps: seq<Step<H>>, run: seq<EvmConfig<H>>, n: nat)
    requires EvmRun(handler, self, roles, nonces, app, steps, run) && n <= |steps|
    ensures CommitCount(run[n].events) + 1 < U32_LIMIT
    decreases |steps| - n
  {
    hide EvmApply, CommitCount, EvmSafe, FitsQueue;
    if n < |steps| {
      FewCommitsSoFar(handler, self, roles, nonces, app, steps, run, n + 1);
      assert run[n + 1] == EvmApply(handler, self, run[n], steps[n]);
      EvmCommitsGrow(handler, self, run[n], steps[n]);
    }
  }

  lemma InitialMatches<H>(roles: Roles, nonces: Nonces, app: H)
    ensures Matches(Initial(roles, nonces, app), EvmInitial(roles, nonces, app))
  {
    EmptyStoreRepresentsEmptyQueue();
    EmptyStoresMatch();
    NothingToRecode();
    hide StoresMatch, AttestorsOf;
  }

  lemma EmptyStoresMatch()
    ensures StoresMatch(map[], map[], Queue(0, []))
  {
    EmptyStoreRepresentsEmptyQueue();
    SameReads(RecodeStore(map[]), map[]);
  }

  /** The run of the protocol with the ink! contract by the same steps says the same at every point. */
  lemma {:induction false} Lockstep<H>(
      handler: Handler<H>, self: Address, roles: Roles, nonces: Nonces, app: H, steps: seq<Step<H>>, run: seq<EvmConfig<H>>, n: nat)
    requires EvmRun(handler, self, roles, nonces, app, steps, run) && n <= |steps|
    ensures var c := Exec(handler, Initial(roles, nonces, app), steps[..n]);
            Reaches(handler, roles, nonces, app, steps[..n], c) && Matches(c, run[n])
  {
    hide EvmApply, Apply, CommitCount, Matches, Inv;
    var c := Exec(handler, Initial(roles, nonces, app), steps[..n]);
    FewCommitsSoFar(handler, self, roles, nonces, app, steps, run, n);
    if n == 0 {
      InitialMatches(roles, nonces, app);
    } else {
      var before := Exec(handler, Initial(roles, nonces, app), steps[..n - 1]);
      Lockstep(handler, self, roles, nonces, app, steps, run, n - 1);
      FewCommitsSoFar(handler, self, roles, nonces, app, steps, run, n - 1);
      assert steps[..n][..n - 1] == steps[..n - 1];
      assert run[n - 1 + 1] == EvmApply(handler, self, run[n - 1], steps[n - 1]);
      ReachedKeepsInv(handler, roles, nonces, app, steps[..n - 1], before);
      StepLockstep(handler, self, Initial(roles, nonces, app).chain, before, run[n - 1], steps[n - 1]);
    }
    CommitsMatch(c, run[n]);
  }
}
