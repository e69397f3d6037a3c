/**
  Every schedule of the protocol has the effect of running the committed sessions one at a
  time, in commit order, each seeing exactly the values its reads returned and polling exactly
  the messages its polls returned. What a poll that found nothing says is judged in EmptyPolls.
 */
module Serializability {
  import opened Wrappers
  import opened ByteCodec
  import opened KvStore
  import opened AccessControl
  import opened MessageQueue
  import opened RollupClient
  import opened Session
  import opened SessionCache
  import opened Protocol

  // ---------- the invariant ----------

  /** What the version key holds after n committed sessions. */
  function VersionValue(n: nat): Option<Value> {
    if n == 0 then None else Some(EncodeU32(n))
  }

  /** The queue after some events: what was pushed, less what committed sessions polled. */
  function QueueAfter<H>(events: seq<Event<H>>): Queue {
    var popped := |PolledBy(events)|;
    if popped <= |PushedBy(events)| then Queue(popped, PushedBy(events)[popped..]) else Queue(popped, [])
  }

  /** A session nobody has overtaken has polled a prefix of the queue as it still is. */
  ghost predicate PollsArePrefix(q: Queue, wk: Worker) {
    var polls := Polls(wk.trace);
    && (wk.phase.HasTail? ==> q.head + |polls| <= wk.phase.tail <= q.Tail())
    && (wk.session.indexUpdated <==> polls != [])
    && (wk.session.currentIndex.None? ==> polls == [] && Empty !in wk.trace)
    && (wk.session.currentIndex.Some? ==> wk.session.currentIndex.value == q.head + |polls|)
    && polls <= q.items
  }

  ghost predicate WorkerOk(q: Queue, commits: nat, wk: Worker) {
    wk.session.version.Some? ==>
      && MatchesTrace(wk.session, wk.trace)
      && wk.startedAt <= commits
      && wk.session.version == Some(if wk.startedAt == 0 then None else Some(wk.startedAt))
      && VERSION_KEY in wk.session.values.entries
      && wk.session.values.entries[VERSION_KEY] == VersionValue(wk.startedAt)
      && (forall k | k in wk.session.updates.entries :: UserKey(k))
      && (wk.startedAt == commits ==> PollsArePrefix(q, wk))
  }

  ghost predicate WorkersOk<H>(q: Queue, commits: nat, c: Config<H>) {
    forall w :: WorkerOk(q, commits, c.WorkerAt(w))
  }

  /** The store is that of the history: its queue and its version. */
  ghost predicate StoreOk(kv: Store, q: Queue, commits: nat) {
    && Represents(kv, q)
    && Get(kv, VERSION_KEY) == VersionValue(commits)
  }

  ghost predicate Inv<H>(handler: Handler<H>, start: Chain<H>, c: Config<H>) {
    && PolledBy(c.events) <= PushedBy(c.events)
    && StoreOk(c.chain.kv, QueueAfter(c.events), CommitCount(c.events))
    && StartsInOrder(c.events)
    && AtomicRun(handler, start, c.events) == Some(c.chain)
    && WorkersOk(QueueAfter(c.events), CommitCount(c.events), c)
  }

  // ---------- small facts ----------

  lemma VersionKeyIsNotQueueKey()
    ensures !IsQueueKey(VERSION_KEY)
  {
    assert VERSION_KEY[0] != QUEUE_PREFIX[0];
  }

  lemma VersionValueInjective(a: nat, b: nat)
    requires a < U32_LIMIT && b < U32_LIMIT && VersionValue(a) == VersionValue(b)
    ensures a == b
  {
    DecodeEncodeU32(a);
    DecodeEncodeU32(b);
  }

  lemma VersionReadsBack(kv: Store, n: nat)
    requires n < U32_LIMIT && Get(kv, VERSION_KEY) == VersionValue(n)
    ensures ReadIndex(kv, VERSION_KEY) == Ok(n)
  {
    DecodeEncodeU32(n);
  }

  lemma {:induction false} PushAllAppends(kv: Store, q: Queue, commits: nat, messages: seq<Bytes>)
    requires StoreOk(kv, q, commits) && PushAll(kv, messages).1.Pass?
    ensures StoreOk(PushAll(kv, messages).0, Queue(q.head, q.items + messages), commits)
  {
    hide StoreOk, Push;
    if messages == [] {
      assert q.items + messages == q.items;
    } else {
      var front, last := messages[..|messages| - 1], messages[|messages| - 1];
      PushAllAppends(kv, q, commits, front);
      PushKeepsStoreOk(PushAll(kv, front).0, Queue(q.head, q.items + front), commits, last);
      assert q.items + messages == q.items + front + [last];
    }
  }

  lemma PushKeepsStoreOk(kv: Store, q: Queue, commits: nat, message: Bytes)
    requires StoreOk(kv, q, commits) && Push(kv, message).1.Ok?
    ensures StoreOk(Push(kv, message).0, Queue(q.head, q.items + [message]), commits)
  {
    PushAppends(kv, q, message);
    VersionKeyIsNotQueueKey();
  }

  /** Running replies after other actions is folding them over the business state those left. */
  lemma {:induction false} RepliesFold<H>(handler: Handler<H>, s: Chain<H>, first: seq<Action>, replies: seq<Bytes>)
    requires HandleActions(handler, s, first).1.Pass?
    ensures var mid := HandleActions(handler, s, first).0;
            var (after, outcome) := HandleActions(handler, s, first + AsReplies(replies));
            match FoldReplies(handler, mid.app, replies)
            case Ok(app) => outcome.Pass? && after == mid.(app := app)
            case Err(e) => outcome == Fail(e)
  {
    var all := first + AsReplies(replies);
    if replies == [] {
      assert all == first;
    } else {
      var n := |replies| - 1;
      RepliesFold(handler, s, first, replies[..n]);
      assert all[..|all| - 1] == first + AsReplies(replies[..n]);
      assert all[|all| - 1] == Reply(replies[n]);
    }
  }

  // ---------- one session, run atomically ----------

  /** Every read the session sent to the store is still the store's value. */
  ghost predicate ReadsCurrent(kv: Store, trace: seq<Op>) {
    forall k | k in ReadsOf(trace) :: Get(kv, k) == ReadsOf(trace)[k]
  }

  /** The atomic session after a trace: its writes laid over the store, its polls counted. */
  function LocalAfter(kv: Store, trace: seq<Op>): Local {
    Local(Overlay(kv, UpdatesOf(trace)), |Polls(trace)|)
  }

  lemma LastOpReplays(kv: Store, q: Queue, trace: seq<Op>)
    requires trace != [] && Represents(kv, q) && CacheOk(trace) && ReadsCurrent(kv, trace) && Polls(trace) <= q.items
    requires !trace[|trace| - 1].Empty?
    ensures var front := trace[..|trace| - 1];
            AtomicOp(kv, LocalAfter(kv, front), trace[|trace| - 1]) == Some(LocalAfter(kv, trace))
  {
    hide Represents, CacheOk, ReadsCurrent, Overlay, Set;
    var front, last := trace[..|trace| - 1], trace[|trace| - 1];
    match last
    case Read(key, result) => ReadReplays(kv, trace);
    case Write(key, value) => OverlayWrite(kv, UpdatesOf(front), key, value);
    case Poll(message) => PollReplays(kv, q, trace);
  }

  lemma PollReplays(kv: Store, q: Queue, trace: seq<Op>)
    requires trace != [] && trace[|trace| - 1].Poll? && Represents(kv, q) && Polls(trace) <= q.items
    ensures var front := trace[..|trace| - 1];
            AtomicOp(kv, LocalAfter(kv, front), trace[|trace| - 1]) == Some(LocalAfter(kv, trace))
  {
    hide Overlay, ReadIndex;
    var front, last := trace[..|trace| - 1], trace[|trace| - 1];
    assert Polls(trace) == Polls(front) + [last.message];
    assert q.items[|Polls(front)|] == Polls(trace)[|Polls(front)|];
    assert Get(kv, MessageKey(q.head + |Polls(front)|)) == Some(last.message);
  }

  lemma ReadReplays(kv: Store, trace: seq<Op>)
    requires trace != [] && trace[|trace| - 1].Read? && CacheOk(trace) && ReadsCurrent(kv, trace)
    ensures Get(Overlay(kv, UpdatesOf(trace[..|trace| - 1])), trace[|trace| - 1].key) == trace[|trace| - 1].result
  {
    var front, last := trace[..|trace| - 1], trace[|trace| - 1];
    if last.key !in UpdatesOf(front) {
      assert last.key in ReadsOf(trace) && ReadsOf(trace)[last.key] == last.result;
    }
  }

  /**
    If every cached read is still the store's value and the polled messages are at the front
    of its queue, the session's reads, writes and polled messages replay directly against it.
   */
  lemma {:induction false} TraceReplays(kv: Store, q: Queue, trace: seq<Op>)
    requires Represents(kv, q) && CacheOk(trace) && ReadsCurrent(kv, trace) && Polls(trace) <= q.items
    ensures AtomicOps(kv, WithoutEmpty(trace)) == Some(LocalAfter(kv, trace))
  {
    if trace == [] {
      SameReads(kv, Overlay(kv, map[]));
    } else {
      var front, last := trace[..|trace| - 1], trace[|trace| - 1];
      ReadsCurrentFront(kv, trace);
      TraceReplays(kv, q, front);
      if !last.Empty? {
        LastOpReplays(kv, q, trace);
        AtomicSnoc(kv, WithoutEmpty(front), last);
      }
    }
  }

  lemma AtomicSnoc(entry: Store, trace: seq<Op>, op: Op)
    ensures AtomicOps(entry, trace + [op]) ==
            match AtomicOps(entry, trace)
            case None => None
            case Some(local) => AtomicOp(entry, local, op)
  {
    hide AtomicOp;
    assert (trace + [op])[..|trace|] == trace;
  }

  lemma ReadsCurrentFront(kv: Store, trace: seq<Op>)
    requires trace != [] && ReadsCurrent(kv, trace)
    ensures ReadsCurrent(kv, trace[..|trace| - 1])
  {
    var front := trace[..|trace| - 1];
    forall k | k in ReadsOf(front) ensures Get(kv, k) == ReadsOf(front)[k] {
      assert k in ReadsOf(trace);
    }
  }

  /** Writes to user keys and the version leave the queue as it is. */
  lemma WritesKeepQueue(kv: Store, q: Queue, writes: map<Key, Option<Value>>, version: Option<Value>)
    requires Represents(kv, q)
    requires forall k | k in writes :: UserKey(k)
    ensures Represents(Set(Overlay(kv, writes), VERSION_KEY, version), q)
  {
    VersionKeyIsNotQueueKey();
    RepresentsFrame(kv, Set(Overlay(kv, writes), VERSION_KEY, version), q);
  }

  /** The store a committing session leaves, before its pops. */
  function WrittenStore(kv: Store, wk: Worker, version: nat): Store {
    Set(Overlay(kv, wk.session.updates.entries), VERSION_KEY, Some(EncodeU32(version)))
  }

  /** The store it leaves after them. */
  function CommittedStore(kv: Store, q: Queue, wk: Worker, version: nat): Store {
    var written, polled := WrittenStore(kv, wk, version), |Polls(wk.trace)|;
    if polled == 0 then written else PopTo(written, q.head + polled).0
  }

  /** The pops of a session nobody has overtaken are never refused and take exactly its polled messages. */
  lemma PopsPolled<H>(handler: Handler<H>, s: Chain<H>, q: Queue, wk: Worker)
    requires Represents(s.kv, q) && PollsArePrefix(q, wk)
    ensures var polled := |Polls(wk.trace)|;
            && HandleActions(handler, s, HeadMove(wk.session)) ==
               (if polled == 0 then s else s.(kv := PopTo(s.kv, q.head + polled).0), Pass)
  {
    hide Represents;
    var polled := |Polls(wk.trace)|;
    var moves := HeadMove(wk.session);
    if polled == 0 {
      assert moves == [];
    } else {
      assert moves == [SetQueueHead(q.head + polled)];
      assert moves[..0] == [];
      PopToDrops(s.kv, q, q.head + polled);
    }
  }

  lemma CommittedStoreOk(kv: Store, q: Queue, commits: nat, wk: Worker)
    requires Represents(kv, q) && PollsArePrefix(q, wk)
    requires forall k | k in wk.session.updates.entries :: UserKey(k)
    ensures var polled, version := |Polls(wk.trace)|, commits + 1;
            StoreOk(CommittedStore(kv, q, wk, version), Queue(q.head + polled, q.items[polled..]), version)
  {
    hide Represents, PopTo, Overlay;
    var polled := |Polls(wk.trace)|;
    WritesKeepQueue(kv, q, wk.session.updates.entries, Some(EncodeU32(commits + 1)));
    VersionKeyIsNotQueueKey();
    if polled == 0 {
      assert q.items[0..] == q.items;
    } else {
      PopToDrops(WrittenStore(kv, wk, commits + 1), q, q.head + polled);
    }
  }

  lemma CommittedByPop(kv: Store, q: Queue, version: nat, wk: Worker)
    requires Represents(kv, q) && PollsArePrefix(q, wk)
    requires forall k | k in wk.session.updates.entries :: UserKey(k)
    ensures AtomicPop(kv, WrittenStore(kv, wk, version), |Polls(wk.trace)|) == Some(CommittedStore(kv, q, wk, version))
  {
    hide PopTo, Overlay, Set;
    WritesKeepQueue(kv, q, wk.session.updates.entries, Some(EncodeU32(version)));
    PopToDrops(WrittenStore(kv, wk, version), q, q.head + |Polls(wk.trace)|);
  }

  /** A started session whose conditions hold has not been overtaken. */
  lemma ConditionsMeanCurrent(kv: Store, q: Queue, commits: nat, wk: Worker)
    requires StoreOk(kv, q, commits) && commits < U32_LIMIT && WorkerOk(q, commits, wk)
    requires wk.session.version.Some? && ConditionsMet(kv, wk.session.values.Pairs())
    ensures wk.startedAt == commits && ReadsCurrent(kv, wk.trace)
  {
    ConditionsAreReads(kv, wk.session.values);
    VersionValueInjective(wk.startedAt, commits);
  }

  /** What the transaction of such a session does on chain. */
  lemma CommitOnChain<H>(handler: Handler<H>, s: Chain<H>, q: Queue, commits: nat, wk: Worker, attestor: Address)
    requires Represents(s.kv, q) && PollsArePrefix(q, wk)
    requires forall k | k in wk.session.updates.entries :: UserKey(k)
    requires (attestor, AttestorRole) in s.roles && ConditionsMet(s.kv, wk.session.values.Pairs())
    ensures var (after, outcome) := RollupInner(handler, s, attestor, ParamsOf(wk.session, commits + 1));
            match FoldReplies(handler, s.app, wk.session.actions)
            case Err(e) => outcome == Fail(e)
            case Ok(app) => outcome.Pass? && after == s.(kv := CommittedStore(s.kv, q, wk, commits + 1), app := app)
  {
    hide Represents, PollsArePrefix, ConditionsMet, PopTo, HandleActions, FoldReplies, Overlay, Set, ApplyUpdates, HeadMove, AsReplies;
    var session := wk.session;
    var written := s.(kv := WrittenStore(s.kv, wk, commits + 1));
    UpdatesAreWrites(s.kv, commits + 1, session.updates);
    OverlayCommutes(s.kv, session.updates.entries, VERSION_KEY, Some(EncodeU32(commits + 1)));
    WritesKeepQueue(s.kv, q, session.updates.entries, Some(EncodeU32(commits + 1)));
    PopsPolled(handler, written, q, wk);
    RepliesFold(handler, written, HeadMove(session), session.actions);
  }

  /**
    The heart of the protocol. A started session whose conditions hold has not been overtaken,
    and its transaction does exactly what the session does when run atomically; the only
    thing left that can refuse it is the business logic's answer to its replies.
   */
  lemma CommitIsAtomic<H>(handler: Handler<H>, s: Chain<H>, q: Queue, commits: nat, wk: Worker, attestor: Address)
    requires StoreOk(s.kv, q, commits) && commits < U32_LIMIT && WorkerOk(q, commits, wk)
    requires wk.session.version.Some?
    requires (attestor, AttestorRole) in s.roles && ConditionsMet(s.kv, wk.session.values.Pairs())
    ensures wk.startedAt == commits && BumpVersion(wk.session) == Ok(commits + 1)
    ensures PollsArePrefix(q, wk)
    ensures var (after, outcome) := RollupInner(handler, s, attestor, ParamsOf(wk.session, commits + 1));
            match FoldReplies(handler, s.app, wk.session.actions)
            case Err(e) => outcome == Fail(e)
            case Ok(app) =>
              && outcome.Pass?
              && AtomicSession(handler, s, attestor, WithoutEmpty(wk.trace), wk.session.actions) == Some(after)
              && after == s.(kv := after.kv, app := app)
              && StoreOk(after.kv, Queue(q.head + |Polls(wk.trace)|, q.items[|Polls(wk.trace)|..]), commits + 1)
  {
    NotOvertaken(s.kv, q, commits, wk);
    hide Represents, ConditionsMet, RollupInner, FoldReplies, ParamsOf, CommittedStore, ReadsCurrent, PollsArePrefix,
         WorkerOk, AtomicSession, UserKey, BumpVersion, Polls, MatchesTrace;
    CommitOnChain(handler, s, q, commits, wk, attestor);
    CommittedStoreOk(s.kv, q, commits, wk);
    ReplaysAtomically(handler, s, q, commits, wk, attestor);
  }

  /** A started session whose conditions hold has not been overtaken. */
  lemma NotOvertaken(kv: Store, q: Queue, commits: nat, wk: Worker)
    requires StoreOk(kv, q, commits) && commits < U32_LIMIT && WorkerOk(q, commits, wk)
    requires wk.session.version.Some? && ConditionsMet(kv, wk.session.values.Pairs())
    ensures wk.startedAt == commits && BumpVersion(wk.session) == Ok(commits + 1)
    ensures PollsArePrefix(q, wk) && Polls(wk.trace) <= q.items && CacheOk(wk.trace) && ReadsCurrent(kv, wk.trace)
    ensures forall k | k in wk.session.updates.entries :: UserKey(k)
    ensures wk.session.updates.entries == UpdatesOf(wk.trace)
  {
    hide ConditionsMet, Represents, CacheOk, ReadsCurrent, Polls, UserKey;
    ConditionsMeanCurrent(kv, q, commits, wk);
  }

  /** Run atomically, such a session reads what it read, pops what it polled and leaves the committed store. */
  lemma ReplaysAtomically<H>(handler: Handler<H>, s: Chain<H>, q: Queue, commits: nat, wk: Worker, attestor: Address)
    requires StoreOk(s.kv, q, commits) && commits < U32_LIMIT && (attestor, AttestorRole) in s.roles
    requires PollsArePrefix(q, wk) && Polls(wk.trace) <= q.items && CacheOk(wk.trace) && ReadsCurrent(s.kv, wk.trace)
    requires forall k | k in wk.session.updates.entries :: UserKey(k)
    requires wk.session.updates.entries == UpdatesOf(wk.trace)
    ensures match FoldReplies(handler, s.app, wk.session.actions)
            case Err(_) => true
            case Ok(app) =>
              AtomicSession(handler, s, attestor, WithoutEmpty(wk.trace), wk.session.actions) ==
              Some(s.(kv := CommittedStore(s.kv, q, wk, commits + 1), app := app))
  {
    VersionReadsBack(s.kv, commits);
    CommittedByPop(s.kv, q, commits + 1, wk);
    TraceReplays(s.kv, q, wk.trace);
    hide *;
    AtomicSessionOf(handler, s, attestor, WithoutEmpty(wk.trace), wk.session.actions, LocalAfter(s.kv, wk.trace), commits,
                    CommittedStore(s.kv, q, wk, commits + 1));
  }

  /** What an atomic session comes to, from its parts. */
  lemma AtomicSessionOf<H>(
      handler: Handler<H>, s: Chain<H>, attestor: Address, trace: seq<Op>, replies: seq<Bytes>,
      local: Local, version: nat, kv: Store)
    requires (attestor, AttestorRole) in s.roles
    requires AtomicOps(s.kv, trace) == Some(local) && ReadIndex(s.kv, VERSION_KEY) == Ok(version)
    requires AtomicPop(s.kv, Set(local.kv, VERSION_KEY, Some(EncodeU32(version + 1))), local.polled) == Some(kv)
    ensures match FoldReplies(handler, s.app, replies)
            case Err(_) => true
            case Ok(app) => AtomicSession(handler, s, attestor, trace, replies) == Some(s.(kv := kv, app := app))
  {
    hide AtomicOps, AtomicPop, ReadIndex, FoldReplies, Set, EncodeU32;
  }

  // ---------- a worker's own steps ----------

  lemma BeginOk(kv: Store, q: Queue, commits: nat)
    requires StoreOk(kv, q, commits) && commits < U32_LIMIT
    ensures WorkerOk(q, commits,
                     Worker(StartSession(kv).0, Idle, [Read(VERSION_KEY, Get(kv, VERSION_KEY))], commits))
  {
    hide Represents;
    DecodeEncodeU32(commits);
    var value := Get(kv, VERSION_KEY);
    ReadKeepsTrace(NEW_SESSION, [], VERSION_KEY, kv);
    PollsUnchanged([], Read(VERSION_KEY, value));
    assert [] + [Read(VERSION_KEY, value)] == [Read(VERSION_KEY, value)];
  }

  lemma PollsUnchanged(trace: seq<Op>, op: Op)
    requires !op.Poll?
    ensures Polls(trace + [op]) == Polls(trace)
  {
    assert (trace + [op])[..|trace|] == trace;
  }

  lemma ReadOk(kv: Store, q: Queue, commits: nat, wk: Worker, key: Key)
    requires WorkerOk(q, commits, wk)
    ensures var (session, result) := GetValue(wk.session, key, kv);
            WorkerOk(q, commits, wk.(session := session, trace := wk.trace + [Read(key, result)]))
  {
    hide Polls, VersionValue, UserKey;
    if wk.session.version.Some? {
      hide MatchesTrace;
      assert MatchesTrace(wk.session, wk.trace);
      ReadKeepsTrace(wk.session, wk.trace, key, kv);
      PollsUnchanged(wk.trace, Read(key, GetValue(wk.session, key, kv).1));
    }
  }

  lemma WriteOk(q: Queue, commits: nat, wk: Worker, key: Key, value: Option<Value>)
    requires WorkerOk(q, commits, wk) && UserKey(key)
    ensures WorkerOk(q, commits,
                     wk.(session := SetValue(wk.session, key, value), trace := wk.trace + [Write(key, value)]))
  {
    if wk.session.version.Some? {
      hide MatchesTrace;
      assert MatchesTrace(wk.session, wk.trace);
      WriteKeepsTrace(wk.session, wk.trace, key, value);
      PollsUnchanged(wk.trace, Write(key, value));
    }
  }

  lemma AskMessageOk<H>(kv: Store, q: Queue, commits: nat, wk: Worker, step: Step<H>)
    requires StoreOk(kv, q, commits) && WorkerOk(q, commits, wk) && step.AskMessage?
    ensures WorkerOk(q, commits, WorkerStep(wk, kv, commits, step))
  {
    hide Represents, MatchesTrace, ReadIndex, Polls, MessageKey, Get;
    if wk.session.version.Some? && wk.phase.HasTail? && wk.session.currentIndex.Some? {
      match PollItem(wk.session, wk.phase.tail, kv, step.decodes)
      case Ok((session, Some(m))) => PolledOk(kv, q, commits, wk, m);
      case Ok((_, None)) => EmptyOk(q, commits, wk);
      case _ =>
    }
  }

  /** The message under the current index of a session nobody has overtaken is the next of the queue. */
  lemma PolledOk(kv: Store, q: Queue, commits: nat, wk: Worker, m: Bytes)
    requires StoreOk(kv, q, commits) && WorkerOk(q, commits, wk)
    requires wk.session.version.Some? && wk.phase.HasTail? && wk.session.currentIndex.Some?
    requires wk.session.currentIndex.value < wk.phase.tail
    requires Get(kv, MessageKey(wk.session.currentIndex.value)) == Some(m)
    ensures WorkerOk(q, commits,
                     wk.(session := wk.session.(currentIndex := Some(wk.session.currentIndex.value + 1), indexUpdated := true),
                         phase := Idle,
                         trace := wk.trace + [Poll(m)]))
  {
    hide ReadIndex, MatchesTrace, Polls, MessageKey, Get, VersionValue;
    var polls := Polls(wk.trace);
    assert MatchesTrace(wk.session, wk.trace);
    PollMatches(wk.session, wk.trace, m);
    if wk.startedAt == commits {
      var index := wk.session.currentIndex.value;
      assert index == q.head + |polls| && index < q.Tail();
      assert Get(kv, MessageKey(index)) == Some(q.items[index - q.head]);
      assert polls + [m] <= q.items;
    }
  }

  lemma EmptyOk(q: Queue, commits: nat, wk: Worker)
    requires WorkerOk(q, commits, wk) && wk.session.version.Some? && wk.session.currentIndex.Some?
    ensures WorkerOk(q, commits, wk.(phase := Idle, trace := wk.trace + [Empty]))
  {
    hide MatchesTrace, Polls, VersionValue;
    EmptyKeepsTrace(wk.session, wk.trace);
  }

  lemma PollMatches(s: SessionState, trace: seq<Op>, m: Bytes)
    requires MatchesTrace(s, trace) && s.currentIndex.Some?
    ensures MatchesTrace(s.(currentIndex := Some(s.currentIndex.value + 1), indexUpdated := true), trace + [Poll(m)])
    ensures Polls(trace + [Poll(m)]) == Polls(trace) + [m]
  {
    PollKeepsTrace(s, trace, m);
  }

  lemma WorkerStepOk<H>(kv: Store, q: Queue, commits: nat, wk: Worker, step: Step<H>)
    requires StoreOk(kv, q, commits) && commits < U32_LIMIT && WorkerOk(q, commits, wk) && Allowed(step)
    ensures WorkerOk(q, commits, WorkerStep(wk, kv, commits, step))
  {
    match step
    case Begin(_) => BeginOk(kv, q, commits);
    case ReadValue(_, key) => ReadOk(kv, q, commits, wk, key);
    case WriteValue(_, key, value) => WriteOk(q, commits, wk, key, value);
    case AddReply(_, data) =>
    case AskTail(_) =>
    case AskHead(_) =>
    case AskMessage(_, _) => AskMessageOk(kv, q, commits, wk, step);
    case _ =>
  }

  // ---------- what the contract's steps mean to the workers ----------

  lemma WorkerOkAfterPush(q: Queue, commits: nat, wk: Worker, messages: seq<Bytes>)
    requires WorkerOk(q, commits, wk)
    ensures WorkerOk(Queue(q.head, q.items + messages), commits, wk)
  {
  }

  /** A session overtaken by a commit has nothing to answer for any more. */
  lemma WorkerOkAfterCommit(q: Queue, q': Queue, commits: nat, wk: Worker)
    requires WorkerOk(q, commits, wk)
    ensures WorkerOk(q', commits + 1, wk)
  {
  }

  lemma HistoryOnCall<H>(events: seq<Event<H>>, app: H, messages: seq<Bytes>)
    requires PolledBy(events) <= PushedBy(events)
    ensures var events' := events + [ContractCalled(app, messages)];
            && PolledBy(events') <= PushedBy(events')
            && QueueAfter(events') == Queue(QueueAfter(events).head, QueueAfter(events).items + messages)
            && CommitCount(events') == CommitCount(events)
            && (StartsInOrder(events) ==> StartsInOrder(events'))
  {
    var events' := events + [ContractCalled(app, messages)];
    assert events'[..|events|] == events;
  }

  lemma HistoryOnAccounts<H>(events: seq<Event<H>>, roles: Roles, nonces: Nonces)
    requires PolledBy(events) <= PushedBy(events)
    ensures var events' := events + [AccountsChanged(roles, nonces)];
            && PolledBy(events') <= PushedBy(events')
            && QueueAfter(events') == QueueAfter(events)
            && CommitCount(events') == CommitCount(events)
            && (StartsInOrder(events) ==> StartsInOrder(events'))
  {
    var events' := events + [AccountsChanged(roles, nonces)];
    assert events'[..|events|] == events;
  }

  lemma HistoryOnCommit<H>(events: seq<Event<H>>, attestor: Address, trace: seq<Op>, replies: seq<Bytes>)
    requires PolledBy(events) <= PushedBy(events) && Polls(trace) <= QueueAfter(events).items
    ensures var events' := events + [SessionCommitted(attestor, CommitCount(events), trace, replies)];
            && PolledBy(events') <= PushedBy(events')
            && QueueAfter(events') ==
               Queue(QueueAfter(events).head + |Polls(trace)|, QueueAfter(events).items[|Polls(trace)|..])
            && CommitCount(events') == CommitCount(events) + 1
            && (StartsInOrder(events) ==> StartsInOrder(events'))
  {
    var events' := events + [SessionCommitted(attestor, CommitCount(events), trace, replies)];
    assert events'[..|events|] == events;
    var pushed, polled, polls := PushedBy(events), PolledBy(events), Polls(trace);
    assert pushed == polled + pushed[|polled|..];
    assert pushed[|polled|..] == polls + pushed[|polled|..][|polls|..];
    assert pushed == polled + polls + pushed[|polled + polls|..];
    assert pushed[|polled|..][|polls|..] == pushed[|polled| + |polls|..];
  }

  // ---------- every step keeps the invariant ----------

  lemma InvParts<H>(handler: Handler<H>, start: Chain<H>, c: Config<H>)
    requires Inv(handler, start, c)
    ensures PolledBy(c.events) <= PushedBy(c.events) && StartsInOrder(c.events)
    ensures StoreOk(c.chain.kv, QueueAfter(c.events), CommitCount(c.events))
    ensures AtomicRun(handler, start, c.events) == Some(c.chain)
    ensures WorkersOk(QueueAfter(c.events), CommitCount(c.events), c)
  {
    hide StoreOk, WorkersOk, QueueAfter, PushedBy, PolledBy, StartsInOrder, AtomicRun, CommitCount;
  }

  lemma InvFromParts<H>(handler: Handler<H>, start: Chain<H>, c: Config<H>)
    requires PolledBy(c.events) <= PushedBy(c.events) && StartsInOrder(c.events)
    requires StoreOk(c.chain.kv, QueueAfter(c.events), CommitCount(c.events))
    requires AtomicRun(handler, start, c.events) == Some(c.chain)
    requires WorkersOk(QueueAfter(c.events), CommitCount(c.events), c)
    ensures Inv(handler, start, c)
  {
    hide StoreOk, WorkersOk, QueueAfter, PushedBy, PolledBy, StartsInOrder, AtomicRun, CommitCount;
  }

  lemma OneWorkerOk<H>(q: Queue, commits: nat, c: Config<H>, w: WorkerId)
    requires WorkersOk(q, commits, c)
    ensures WorkerOk(q, commits, c.WorkerAt(w))
  {
    hide WorkerOk;
  }

  /** One more event extends the reference run by that event. */
  lemma EventRuns<H>(handler: Handler<H>, start: Chain<H>, events: seq<Event<H>>, mid: Chain<H>, event: Event<H>)
    requires AtomicRun(handler, start, events) == Some(mid)
    ensures AtomicRun(handler, start, events + [event]) == AtomicEvent(handler, mid, event)
  {
    hide AtomicEvent;
    assert (events + [event])[..|events|] == events;
  }

  lemma TakenCommitKeepsInv<H>(handler: Handler<H>, start: Chain<H>, c: Config<H>, w: WorkerId, attestor: Address)
    requires Inv(handler, start, c) && CommitCount(c.events) < U32_LIMIT
    requires Apply(handler, c, Commit(w, attestor)) != c
    ensures Inv(handler, start, Apply(handler, c, Commit(w, attestor)))
  {
    hide Inv, Apply, StoreOk, WorkersOk, AtomicRun, AtomicSession, FoldReplies, QueueAfter, PushedBy, PolledBy, StartsInOrder,
         PollsArePrefix, CommitCount;
    var wk, q, n := c.WorkerAt(w), QueueAfter(c.events), CommitCount(c.events);
    var c' := Apply(handler, c, Commit(w, attestor));
    var event: Event<H> := SessionCommitted(attestor, n, wk.trace, wk.session.actions);
    InvParts(handler, start, c);
    CommitApplies(handler, start, c, w, attestor);
    HistoryOnCommit(c.events, attestor, wk.trace, wk.session.actions);
    EventRuns(handler, start, c.events, c.chain, event);
    OvertakenWorkers(q, QueueAfter(c'.events), n, c, c');
    InvFromParts(handler, start, c');
  }

  lemma OvertakenWorkers<H>(q: Queue, q': Queue, commits: nat, c: Config<H>, c': Config<H>)
    requires WorkersOk(q, commits, c) && c'.workers == c.workers
    ensures WorkersOk(q', commits + 1, c')
  {
    forall v ensures WorkerOk(q', commits + 1, c'.WorkerAt(v)) {
      assert WorkerOk(q, commits, c.WorkerAt(v));
      WorkerOkAfterCommit(q, q', commits, c.WorkerAt(v));
    }
  }

  /** What a commit that changes anything has sent, and that it was accepted. */
  lemma CommitSent<H>(handler: Handler<H>, c: Config<H>, w: WorkerId, attestor: Address)
    requires Apply(handler, c, Commit(w, attestor)) != c
    ensures var wk := c.WorkerAt(w);
            && wk.session.version.Some?
            && (attestor, AttestorRole) in c.chain.roles
            && ConditionsMet(c.chain.kv, wk.session.values.Pairs())
            && CommitParams(wk.session) != Ok(None) && BumpVersion(wk.session).Ok?
            && var (after, outcome) := RollupInner(handler, c.chain, attestor, ParamsOf(wk.session, BumpVersion(wk.session).value));
               && outcome.Pass?
               && Apply(handler, c, Commit(w, attestor)) ==
                  Config(after, c.workers,
                         c.events + [SessionCommitted(attestor, wk.startedAt, wk.trace, wk.session.actions)])
  {
    hide ConditionsMet, HandleActions, ApplyUpdates;
  }

  /** A transaction the contract accepts is applied and recorded. */
  lemma CommitTaken<H>(handler: Handler<H>, c: Config<H>, w: WorkerId, attestor: Address)
    requires CommitParams(c.WorkerAt(w).session) != Ok(None) && BumpVersion(c.WorkerAt(w).session).Ok?
    requires var session := c.WorkerAt(w).session;
             RollupInner(handler, c.chain, attestor, ParamsOf(session, BumpVersion(session).value)).1.Pass?
    ensures var wk := c.WorkerAt(w);
            Apply(handler, c, Commit(w, attestor)) ==
            Config(RollupInner(handler, c.chain, attestor, ParamsOf(wk.session, BumpVersion(wk.session).value)).0,
                   c.workers,
                   c.events + [SessionCommitted(attestor, wk.startedAt, wk.trace, wk.session.actions)])
  {
    hide RollupInner;
  }

  /** A commit that changes anything is an atomic session of a worker nobody has overtaken. */
  lemma CommitApplies<H>(handler: Handler<H>, start: Chain<H>, c: Config<H>, w: WorkerId, attestor: Address)
    requires Inv(handler, start, c) && CommitCount(c.events) < U32_LIMIT
    requires Apply(handler, c, Commit(w, attestor)) != c
    ensures var wk, q, n := c.WorkerAt(w), QueueAfter(c.events), CommitCount(c.events);
            var c' := Apply(handler, c, Commit(w, attestor));
            && wk.session.version.Some? && wk.startedAt == n
            && PollsArePrefix(q, wk) && Polls(wk.trace) <= q.items
            && c' == Config(c'.chain, c.workers,
                            c.events + [SessionCommitted(attestor, n, wk.trace, wk.session.actions)])
            && AtomicSession(handler, c.chain, attestor, WithoutEmpty(wk.trace), wk.session.actions) == Some(c'.chain)
            && FoldReplies(handler, c.chain.app, wk.session.actions) == Ok(c'.chain.app)
            && StoreOk(c'.chain.kv, Queue(q.head + |Polls(wk.trace)|, q.items[|Polls(wk.trace)|..]), n + 1)
  {
    hide StoreOk, ConditionsMet, AtomicSession, AtomicRun, FoldReplies, QueueAfter, PushedBy, PolledBy, StartsInOrder,
         RollupInner, Apply, ParamsOf;
    var wk := c.WorkerAt(w);
    assert WorkerOk(QueueAfter(c.events), CommitCount(c.events), wk);
    CommitSent(handler, c, w, attestor);
    CommitIsAtomic(handler, c.chain, QueueAfter(c.events), CommitCount(c.events), wk, attestor);
  }

  /** What a message of the contract itself does, unless it fails. */
  lemma CallEffect<H>(handler: Handler<H>, c: Config<H>, app: H, messages: seq<Bytes>)
    requires Apply(handler, c, CallContract(app, messages)) != c
    ensures PushAll(c.chain.kv, messages).1.Pass?
    ensures Apply(handler, c, CallContract(app, messages)) ==
            c.(chain := c.chain.(kv := PushAll(c.chain.kv, messages).0, app := app),
               events := c.events + [ContractCalled(app, messages)])
  {
    hide PushAll;
  }

  lemma CallKeepsInv<H>(handler: Handler<H>, start: Chain<H>, c: Config<H>, app: H, messages: seq<Bytes>)
    requires Inv(handler, start, c) && Apply(handler, c, CallContract(app, messages)) != c
    ensures Inv(handler, start, Apply(handler, c, CallContract(app, messages)))
  {
    hide Inv, Apply, StoreOk, WorkersOk, AtomicRun, PushAll, QueueAfter, PushedBy, PolledBy, StartsInOrder, CommitCount;
    var c' := Apply(handler, c, CallContract(app, messages));
    var q, n := QueueAfter(c.events), CommitCount(c.events);
    InvParts(handler, start, c);
    CallEffect(handler, c, app, messages);
    HistoryOnCall(c.events, app, messages);
    PushAllAppends(c.chain.kv, q, n, messages);
    EventRuns(handler, start, c.events, c.chain, ContractCalled(app, messages));
    WorkersAfterPush(q, n, c, c', messages);
    InvFromParts(handler, start, c');
  }

  lemma WorkersAfterPush<H>(q: Queue, commits: nat, c: Config<H>, c': Config<H>, messages: seq<Bytes>)
    requires WorkersOk(q, commits, c) && c'.workers == c.workers
    ensures WorkersOk(Queue(q.head, q.items + messages), commits, c')
  {
    forall v ensures WorkerOk(Queue(q.head, q.items + messages), commits, c'.WorkerAt(v)) {
      assert WorkerOk(q, commits, c.WorkerAt(v));
      WorkerOkAfterPush(q, commits, c.WorkerAt(v), messages);
    }
  }

  lemma AccountsKeepInv<H>(handler: Handler<H>, start: Chain<H>, c: Config<H>, roles: Roles, nonces: Nonces)
    requires Inv(handler, start, c)
    ensures Inv(handler, start, Apply(handler, c, ChangeAccounts(roles, nonces)))
  {
    hide Inv, StoreOk, WorkerOk, AtomicRun, QueueAfter, PushedBy, PolledBy, StartsInOrder, CommitCount;
    var c' := Apply(handler, c, ChangeAccounts(roles, nonces));
    InvParts(handler, start, c);
    HistoryOnAccounts(c.events, roles, nonces);
    EventRuns(handler, start, c.events, c.chain, AccountsChanged(roles, nonces));
    forall v ensures WorkerOk(QueueAfter(c'.events), CommitCount(c'.events), c'.WorkerAt(v)) {
      OneWorkerOk(QueueAfter(c.events), CommitCount(c.events), c, v);
    }
    InvFromParts(handler, start, c');
  }

  /** A worker's own steps leave contract and history alone. */
  predicate OwnStep<H>(step: Step<H>) {
    !step.CallContract? && !step.ChangeAccounts? && !step.Commit?
  }

  lemma OwnStepEffect<H>(handler: Handler<H>, c: Config<H>, step: Step<H>)
    requires OwnStep(step)
    ensures var c' := Apply(handler, c, step);
            && c'.chain == c.chain && c'.events == c.events
            && c'.WorkerAt(step.w) == WorkerStep(c.WorkerAt(step.w), c.chain.kv, CommitCount(c.events), step)
            && forall v | v != step.w :: c'.WorkerAt(v) == c.WorkerAt(v)
  {
    hide WorkerStep;
  }

  lemma OwnStepKeepsInv<H>(handler: Handler<H>, start: Chain<H>, c: Config<H>, step: Step<H>)
    requires Inv(handler, start, c) && CommitCount(c.events) < U32_LIMIT && Allowed(step) && OwnStep(step)
    ensures Inv(handler, start, Apply(handler, c, step))
  {
    hide Inv, Apply, StoreOk, WorkerOk, AtomicRun, QueueAfter, PushedBy, PolledBy, StartsInOrder, CommitCount, WorkerStep;
    var c' := Apply(handler, c, step);
    var q, n := QueueAfter(c.events), CommitCount(c.events);
    InvParts(handler, start, c);
    OwnStepEffect(handler, c, step);
    OneWorkerOk(q, n, c, step.w);
    WorkerStepOk(c.chain.kv, q, n, c.WorkerAt(step.w), step);
    forall v ensures WorkerOk(q, n, c'.WorkerAt(v)) {
      OneWorkerOk(q, n, c, v);
    }
    InvFromParts(handler, start, c');
  }

  lemma ApplyKeepsInv<H>(handler: Handler<H>, start: Chain<H>, c: Config<H>, step: Step<H>)
    requires Inv(handler, start, c) && CommitCount(c.events) < U32_LIMIT && Allowed(step)
    ensures Inv(handler, start, Apply(handler, c, step))
  {
    hide Inv, Apply, Allowed;
    if Apply(handler, c, step) != c {
      match step
      case Commit(w, attestor) => TakenCommitKeepsInv(handler, start, c, w, attestor);
      case CallContract(app, messages) => CallKeepsInv(handler, start, c, app, messages);
      case ChangeAccounts(roles, nonces) => AccountsKeepInv(handler, start, c, roles, nonces);
      case _ => OwnStepKeepsInv(handler, start, c, step);
    }
  }

  lemma InitialInv<H>(handler: Handler<H>, roles: Roles, nonces: Nonces, app: H)
    ensures Inv(handler, Initial(roles, nonces, app).chain, Initial(roles, nonces, app))
  {
    EmptyStoreRepresentsEmptyQueue();
  }

  /** Commits are only ever added. */
  lemma CommitsGrow<H>(handler: Handler<H>, c: Config<H>, step: Step<H>)
    ensures CommitCount(c.events) <= CommitCount(Apply(handler, c, step).events)
    ensures c.events <= Apply(handler, c, step).events
  {
    var c' := Apply(handler, c, step);
    if c'.events != c.events {
      assert c'.events[..|c'.events| - 1] == c.events;
    }
  }

  ghost predicate AllAllowed<H>(steps: seq<Step<H>>) {
    forall i | 0 <= i < |steps| :: Allowed(steps[i])
  }

  lemma {:induction false} InvOnSchedules<H>(
      handler: Handler<H>, roles: Roles, nonces: Nonces, app: H, steps: seq<Step<H>>)
    requires AllAllowed(steps)
    requires CommitCount(Exec(handler, Initial(roles, nonces, app), steps).events) < U32_LIMIT
    ensures Inv(handler, Initial(roles, nonces, app).chain, Exec(handler, Initial(roles, nonces, app), steps))
  {
    hide Inv, Apply;
    var start := Initial(roles, nonces, app);
    if steps == [] {
      InitialInv(handler, roles, nonces, app);
    } else {
      var n := |steps| - 1;
      var mid := Exec(handler, start, steps[..n]);
      CommitsGrow(handler, mid, steps[n]);
      InvOnSchedules(handler, roles, nonces, app, steps[..n]);
      ApplyKeepsInv(handler, start.chain, mid, steps[n]);
    }
  }

  /** A schedule leads from a freshly deployed contract to this configuration, and fewer than 2^32 sessions commit in it. */
  ghost predicate Reaches<H>(
      handler: Handler<H>, roles: Roles, nonces: Nonces, app: H, steps: seq<Step<H>>, c: Config<H>)
  {
    && AllAllowed(steps)
    && c == Exec(handler, Initial(roles, nonces, app), steps)
    && CommitCount(c.events) < U32_LIMIT
  }

  lemma ReachedKeepsInv<H>(
      handler: Handler<H>, roles: Roles, nonces: Nonces, app: H, steps: seq<Step<H>>, c: Config<H>)
    requires Reaches(handler, roles, nonces, app, steps, c)
    ensures Inv(handler, Initial(roles, nonces, app).chain, c) && CommitCount(c.events) < U32_LIMIT
  {
    hide Inv, Exec, AllAllowed;
    InvOnSchedules(handler, roles, nonces, app, steps);
  }
}
