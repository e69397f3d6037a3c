/**
  Two further views of the same schedules: the application's part of the store as a plain
  map, and a push that arrives before or after a commit.
 */
module Interleavings {
  import opened Wrappers
  import opened ByteCodec
  import opened KvStore
  import opened AccessControl
  import opened MessageQueue
  import opened RollupClient
  import opened Session
  import opened SessionCache
  import opened Protocol
  import opened Serializability

  // ---------- the application's keys as a plain map ----------

  /** The plain map written by the committed sessions, one after the other. */
  function PlainStore<H>(events: seq<Event<H>>): Store {
    if events == [] then map[] else
    var front, last := PlainStore(events[..|events| - 1]), events[|events| - 1];
    if last.SessionCommitted? then Overlay(front, UpdatesOf(last.trace)) else front
  }

  ghost predicate SameUserKeys(a: Store, b: Store) {
    forall k | UserKey(k) :: Get(a, k) == Get(b, k)
  }

  lemma {:induction false} AtomicOpsWrite(entry: Store, trace: seq<Op>)
    requires AtomicOps(entry, trace).Some?
    ensures AtomicOps(entry, trace).value.kv == Overlay(entry, UpdatesOf(trace))
  {
    if trace == [] {
      SameReads(entry, Overlay(entry, map[]));
    } else {
      var front, last := trace[..|trace| - 1], trace[|trace| - 1];
      AtomicOpsWrite(entry, front);
      if last.Write? {
        OverlayWrite(entry, UpdatesOf(front), last.key, last.value);
      }
    }
  }

  lemma UserKeysOutsideQueue(a: Store, b: Store)
    requires SameOutsideQueue(a, b)
    ensures SameUserKeys(a, b)
  {
  }

  lemma PopToOutsideQueue(kv: Store, target: nat)
    ensures SameOutsideQueue(kv, PopTo(kv, target).0)
  {
    hide ReadIndex, MessageKey, IsQueueKey, EncodeU32;
    QueueKeysDistinct();
  }

  lemma {:induction false} PushAllOutsideQueue(kv: Store, messages: seq<Bytes>)
    ensures SameOutsideQueue(kv, PushAll(kv, messages).0)
  {
    hide ReadIndex, MessageKey, IsQueueKey, EncodeU32;
    QueueKeysDistinct();
    if messages != [] {
      PushAllOutsideQueue(kv, messages[..|messages| - 1]);
    }
  }

  lemma AtomicEventOnUserKeys<H>(handler: Handler<H>, s: Chain<H>, event: Event<H>, plain: Store)
    requires AtomicEvent(handler, s, event).Some? && SameUserKeys(s.kv, plain)
    ensures SameUserKeys(AtomicEvent(handler, s, event).value.kv,
                         if event.SessionCommitted? then Overlay(plain, UpdatesOf(event.trace)) else plain)
  {
    hide PushAll, AtomicSession, UserKey, Get;
    match event
    case ContractCalled(app, messages) =>
      PushAllOutsideQueue(s.kv, messages);
      UserKeysOutsideQueue(s.kv, PushAll(s.kv, messages).0);
    case AccountsChanged(roles, nonces) =>
    case SessionCommitted(attestor, _, trace, replies) =>
      EmptyAddsNothing(trace);
      AtomicSessionOnUserKeys(handler, s, attestor, WithoutEmpty(trace), replies);
  }

  lemma AtomicSessionOnUserKeys<H>(
      handler: Handler<H>, s: Chain<H>, attestor: Address, trace: seq<Op>, replies: seq<Bytes>)
    requires AtomicSession(handler, s, attestor, trace, replies).Some?
    ensures SameUserKeys(AtomicSession(handler, s, attestor, trace, replies).value.kv, Overlay(s.kv, UpdatesOf(trace)))
  {
    hide FoldReplies, AtomicOps, ReadIndex, Get, IsQueueKey, EncodeU32, AtomicPop;
    AtomicOpsWrite(s.kv, trace);
    var local := AtomicOps(s.kv, trace).value;
    var written := Set(local.kv, VERSION_KEY, Some(EncodeU32(ReadIndex(s.kv, VERSION_KEY).value + 1)));
    PopOnUserKeys(s.kv, written, local.polled);
  }

  lemma PopOnUserKeys(entry: Store, kv: Store, polled: nat)
    requires AtomicPop(entry, kv, polled).Some?
    ensures SameUserKeys(AtomicPop(entry, kv, polled).value, kv)
  {
    hide PopTo, ReadIndex, UserKey, Get;
    if polled > 0 {
      var target := ReadIndex(entry, HEAD_KEY).value + polled;
      PopToOutsideQueue(kv, target);
      UserKeysOutsideQueue(kv, PopTo(kv, target).0);
    }
  }

  lemma {:induction false} AtomicRunOnUserKeys<H>(handler: Handler<H>, s: Chain<H>, events: seq<Event<H>>)
    requires AtomicRun(handler, s, events).Some? && s.kv == map[]
    ensures SameUserKeys(AtomicRun(handler, s, events).value.kv, PlainStore(events))
  {
    if events != [] {
      hide AtomicEvent, SameUserKeys;
      var front, last := events[..|events| - 1], events[|events| - 1];
      AtomicRunOnUserKeys(handler, s, front);
      AtomicEventOnUserKeys(handler, AtomicRun(handler, s, front).value, last, PlainStore(front));
    }
  }

  /** The application's keys hold what the committed sessions wrote, in commit order, and nothing else. */
  lemma UserStoreIsSerial<H>(
      handler: Handler<H>, roles: Roles, nonces: Nonces, app: H, steps: seq<Step<H>>, c: Config<H>)
    requires Reaches(handler, roles, nonces, app, steps, c)
    ensures forall k | UserKey(k) :: Get(c.chain.kv, k) == Get(PlainStore(c.events), k)
  {
    ReachedKeepsInv(handler, roles, nonces, app, steps, c);
    AtomicRunOnUserKeys(handler, Initial(roles, nonces, app).chain, c.events);
  }

  // ---------- a push before or after a commit ----------

  lemma PushReads(kv: Store, q: Queue, m: Bytes, k: Key)
    requires Represents(kv, q) && q.Tail() + 1 < U32_LIMIT
    ensures Get(Push(kv, m).0, k) ==
            if k == TAIL_KEY then Some(EncodeU32(q.Tail() + 1))
            else if k == MessageKey(q.Tail()) then Some(m)
            else Get(kv, k)
  {
  }

  /** Writes outside the queue see the same of every key whether the push comes first or last. */
  lemma WrittenAndPushedReads(kv: Store, q: Queue, wk: Worker, version: nat, m: Bytes, k: Key)
    requires Represents(kv, q) && Represents(WrittenStore(kv, wk, version), q) && q.Tail() + 1 < U32_LIMIT
    requires IsQueueKey(k) ==> k != VERSION_KEY && k !in wk.session.updates.entries
    ensures Get(WrittenStore(Push(kv, m).0, wk, version), k) == Get(Push(WrittenStore(kv, wk, version), m).0, k)
  {
    PushReads(kv, q, m, k);
    PushReads(WrittenStore(kv, wk, version), q, m, k);
    QueueKeysDistinct();
    hide Push, Represents, MessageKey, EncodeU32, IsQueueKey, IndexOf, Set, Overlay;
  }

  lemma PushCommutesWithWrites(kv: Store, q: Queue, wk: Worker, version: nat, m: Bytes)
    requires Represents(kv, q) && q.Tail() + 1 < U32_LIMIT
    requires forall k | k in wk.session.updates.entries :: UserKey(k)
    ensures WrittenStore(Push(kv, m).0, wk, version) == Push(WrittenStore(kv, wk, version), m).0
  {
    VersionKeyIsNotQueueKey();
    WrittenKeepsQueue(kv, q, wk, version);
    hide Push, Represents, WrittenStore, IsQueueKey;
    var a, b := WrittenStore(Push(kv, m).0, wk, version), Push(WrittenStore(kv, wk, version), m).0;
    forall k ensures Get(a, k) == Get(b, k) {
      WrittenAndPushedReads(kv, q, wk, version, m, k);
    }
    SameReads(a, b);
  }

  lemma PopReads(kv: Store, q: Queue, target: nat, k: Key)
    requires Represents(kv, q) && q.head < target <= q.Tail()
    ensures Get(PopTo(kv, target).0, k) ==
            if k == HEAD_KEY then Some(EncodeU32(target))
            else if k in MessageKeys(q.head, target) then None
            else Get(kv, k)
  {
  }

  lemma TailIsNotPopped(lo: nat, hi: nat, tail: nat)
    requires hi <= tail < U32_LIMIT
    ensures MessageKey(tail) !in MessageKeys(lo, hi)
  {
    QueueKeysDistinct();
    forall j: nat | lo <= j < hi ensures MessageKey(j) != MessageKey(tail) {
      assert IndexOf(MessageKey(j)) != IndexOf(MessageKey(tail));
    }
  }

  lemma PushCommutesWithPop(kv: Store, q: Queue, target: nat, m: Bytes)
    requires Represents(kv, q) && q.head < target <= q.Tail() && q.Tail() + 1 < U32_LIMIT
    ensures PopTo(Push(kv, m).0, target).0 == Push(PopTo(kv, target).0, m).0
  {
    hide Push, PopTo, Represents;
    PushAppends(kv, q, m);
    PopToDrops(kv, q, target);
    var a, b := PopTo(Push(kv, m).0, target).0, Push(PopTo(kv, target).0, m).0;
    forall k ensures Get(a, k) == Get(b, k) {
      PushedAndPoppedReads(kv, q, target, m, k);
    }
    SameReads(a, b);
  }

  lemma TailApart(lo: nat, hi: nat, tail: nat)
    requires hi <= tail < U32_LIMIT
    ensures HEAD_KEY != TAIL_KEY && MessageKey(tail) != HEAD_KEY && MessageKey(tail) != TAIL_KEY
    ensures TAIL_KEY !in MessageKeys(lo, hi) && MessageKey(tail) !in MessageKeys(lo, hi)
  {
    QueueKeysDistinct();
    TailIsNotPopped(lo, hi, tail);
  }

  lemma PushedAndPoppedReads(kv: Store, q: Queue, target: nat, m: Bytes, k: Key)
    requires Represents(kv, q) && q.head < target <= q.Tail() && q.Tail() + 1 < U32_LIMIT
    requires Represents(Push(kv, m).0, Queue(q.head, q.items + [m]))
    requires Represents(PopTo(kv, target).0, Queue(target, q.items[target - q.head..]))
    ensures Get(PopTo(Push(kv, m).0, target).0, k) == Get(Push(PopTo(kv, target).0, m).0, k)
  {
    var pushed, popped := Queue(q.head, q.items + [m]), Queue(target, q.items[target - q.head..]);
    hide Push, PopTo, Represents, MessageKey, EncodeU32, IsQueueKey, IndexOf, MessageKeys, Get;
    assert popped.Tail() == q.Tail() && pushed.Tail() == q.Tail() + 1;
    TailApart(q.head, target, q.Tail());
    PushReads(kv, q, m, k);
    PushReads(PopTo(kv, target).0, popped, m, k);
    PopReads(kv, q, target, k);
    PopReads(Push(kv, m).0, pushed, target, k);
  }

  lemma PushCommutesWithCommittedStore(kv: Store, q: Queue, wk: Worker, version: nat, m: Bytes)
    requires Represents(kv, q) && q.Tail() + 1 < U32_LIMIT && PollsArePrefix(q, wk)
    requires forall k | k in wk.session.updates.entries :: UserKey(k)
    ensures CommittedStore(Push(kv, m).0, Queue(q.head, q.items + [m]), wk, version) ==
            Push(CommittedStore(kv, q, wk, version), m).0
  {
    hide Represents, Push, PopTo, WrittenStore;
    PushCommutesWithWrites(kv, q, wk, version, m);
    WrittenKeepsQueue(kv, q, wk, version);
    if Polls(wk.trace) != [] {
      TailBelowLimit(WrittenStore(kv, wk, version), q);
      PushCommutesWithPop(WrittenStore(kv, wk, version), q, q.head + |Polls(wk.trace)|, m);
    }
  }

  lemma WrittenKeepsQueue(kv: Store, q: Queue, wk: Worker, version: nat)
    requires Represents(kv, q)
    requires forall k | k in wk.session.updates.entries :: UserKey(k)
    ensures Represents(WrittenStore(kv, wk, version), q)
  {
    WritesKeepQueue(kv, q, wk.session.updates.entries, Some(EncodeU32(version)));
  }

  lemma TailBelowLimit(kv: Store, q: Queue)
    requires Represents(kv, q)
    ensures q.Tail() < U32_LIMIT
  {
  }

  /** The effect of an accepted commit, spelled out. */
  lemma AcceptedCommit<H>(handler: Handler<H>, start: Chain<H>, c: Config<H>, w: WorkerId, attestor: Address)
    requires Inv(handler, start, c) && CommitCount(c.events) < U32_LIMIT
    requires c.WorkerAt(w).session.version.Some? && CommitParams(c.WorkerAt(w).session) != Ok(None)
    requires (attestor, AttestorRole) in c.chain.roles
    requires ConditionsMet(c.chain.kv, c.WorkerAt(w).session.values.Pairs())
    requires FoldReplies(handler, c.chain.app, c.WorkerAt(w).session.actions).Ok?
    ensures var wk, q, n := c.WorkerAt(w), QueueAfter(c.events), CommitCount(c.events);
            && Represents(c.chain.kv, q) && PollsArePrefix(q, wk)
            && (forall k | k in wk.session.updates.entries :: UserKey(k))
            && Apply(handler, c, Commit(w, attestor)).chain ==
               c.chain.(kv := CommittedStore(c.chain.kv, q, wk, n + 1),
                        app := FoldReplies(handler, c.chain.app, wk.session.actions).value)
  {
    hide Apply, RollupInner, FoldReplies, AtomicSession, AtomicRun, ConditionsMet, QueueAfter, PollsArePrefix,
         ParamsOf, CommittedStore, Represents, MatchesTrace, BumpVersion, PolledBy, PushedBy, StartsInOrder;
    var wk, q, n := c.WorkerAt(w), QueueAfter(c.events), CommitCount(c.events);
    hide WorkersOk, StoreOk, WorkerOk, UserKey, Inv, CommitCount;
    InvParts(handler, start, c);
    OneWorkerOk(q, n, c, w);
    StoreIsQueue(c.chain.kv, q, n);
    NotOvertaken(c.chain.kv, q, n, wk);
    CommitOnChain(handler, c.chain, q, n, wk, attestor);
    CommitTaken(handler, c, w, attestor);
  }

  lemma StoreIsQueue(kv: Store, q: Queue, commits: nat)
    requires StoreOk(kv, q, commits)
    ensures Represents(kv, q)
  {
    hide Represents;
  }

  /** A plain push as a step. */
  lemma PushStep<H>(handler: Handler<H>, c: Config<H>, m: Bytes)
    requires Push(c.chain.kv, m).1.Ok?
    ensures Apply(handler, c, CallContract(c.chain.app, [m])) ==
            c.(chain := c.chain.(kv := Push(c.chain.kv, m).0),
               events := c.events + [ContractCalled(c.chain.app, [m])])
  {
    hide Push;
    assert [m][..0] == [];
    assert PushAll(c.chain.kv, []) == (c.chain.kv, Pass);
  }

  lemma ConditionsSurvivePush(kv: Store, q: Queue, values: InsertionMap, m: Bytes)
    requires Represents(kv, q) && Push(kv, m).1.Ok? && ConditionsMet(kv, values.Pairs())
    requires TAIL_KEY !in values.entries && MessageKey(q.Tail()) !in values.entries
    ensures ConditionsMet(Push(kv, m).0, values.Pairs())
  {
    ConditionsAreReads(kv, values);
    ConditionsAreReads(Push(kv, m).0, values);
  }

  /** Everything an applied commit says about the worker and the contract. */
  lemma AppliedCommit<H>(handler: Handler<H>, start: Chain<H>, c: Config<H>, w: WorkerId, attestor: Address)
    requires Inv(handler, start, c) && CommitCount(c.events) < U32_LIMIT
    requires Apply(handler, c, Commit(w, attestor)) != c
    ensures var wk, q, n := c.WorkerAt(w), QueueAfter(c.events), CommitCount(c.events);
            && wk.session.version.Some? && CommitParams(wk.session) != Ok(None)
            && (attestor, AttestorRole) in c.chain.roles
            && ConditionsMet(c.chain.kv, wk.session.values.Pairs())
            && FoldReplies(handler, c.chain.app, wk.session.actions).Ok?
            && Represents(c.chain.kv, q) && PollsArePrefix(q, wk) && Polls(wk.trace) <= q.items
            && (forall k | k in wk.session.updates.entries :: UserKey(k))
            && Apply(handler, c, Commit(w, attestor)).chain ==
               c.chain.(kv := CommittedStore(c.chain.kv, q, wk, n + 1),
                        app := FoldReplies(handler, c.chain.app, wk.session.actions).value)
            && Represents(CommittedStore(c.chain.kv, q, wk, n + 1),
                          Queue(q.head + |Polls(wk.trace)|, q.items[|Polls(wk.trace)|..]))
  {
    hide Apply, Inv, FoldReplies, ConditionsMet, CommittedStore, AtomicSession, QueueAfter, Represents, RollupInner,
         PollsArePrefix, ParamsOf;
    CommitSent(handler, c, w, attestor);
    CommitApplies(handler, start, c, w, attestor);
    AcceptedCommit(handler, start, c, w, attestor);
  }

  /** After the push the session's commit is still accepted, with the pushed store's effect. */
  lemma CommitAfterPush<H>(
      handler: Handler<H>, start: Chain<H>, c: Config<H>, w: WorkerId, attestor: Address, m: Bytes)
    requires Inv(handler, start, c) && CommitCount(c.events) < U32_LIMIT
    requires Apply(handler, c, Commit(w, attestor)) != c && Push(c.chain.kv, m).1.Ok?
    requires TAIL_KEY !in c.WorkerAt(w).session.values.entries
    requires MessageKey(QueueAfter(c.events).Tail()) !in c.WorkerAt(w).session.values.entries
    ensures var wk, q, n := c.WorkerAt(w), QueueAfter(c.events), CommitCount(c.events);
            && FoldReplies(handler, c.chain.app, wk.session.actions).Ok?
            && Apply(handler, Apply(handler, c, CallContract(c.chain.app, [m])), Commit(w, attestor)).chain ==
               c.chain.(kv := CommittedStore(Push(c.chain.kv, m).0, Queue(q.head, q.items + [m]), wk, n + 1),
                        app := FoldReplies(handler, c.chain.app, wk.session.actions).value)
  {
    hide Apply, Inv, Push, FoldReplies, ConditionsMet, CommittedStore, AtomicSession, QueueAfter, Represents,
         PollsArePrefix, PolledBy, PushedBy;
    var wk, q := c.WorkerAt(w), QueueAfter(c.events);
    AppliedCommit(handler, start, c, w, attestor);
    ConditionsSurvivePush(c.chain.kv, q, wk.session.values, m);
    PushStep(handler, c, m);
    PolledIsPrefix(handler, start, c);
    HistoryOnCall(c.events, c.chain.app, [m]);
    ApplyKeepsInv(handler, start, c, CallContract(c.chain.app, [m]));
    AcceptedCommit(handler, start, Apply(handler, c, CallContract(c.chain.app, [m])), w, attestor);
  }

  lemma PolledIsPrefix<H>(handler: Handler<H>, start: Chain<H>, c: Config<H>)
    requires Inv(handler, start, c)
    ensures PolledBy(c.events) <= PushedBy(c.events)
  {
  }

  /**
    A message pushed just before a commit or just after it leaves the contract the same, unless
    the session had asked for the queue's tail, or for the slot the message takes, as a value.
   */
  lemma PushCommutesWithCommit<H>(
      handler: Handler<H>, start: Chain<H>, c: Config<H>, w: WorkerId, attestor: Address, m: Bytes)
    requires Inv(handler, start, c) && CommitCount(c.events) < U32_LIMIT
    requires Apply(handler, c, Commit(w, attestor)) != c && Push(c.chain.kv, m).1.Ok?
    requires TAIL_KEY !in c.WorkerAt(w).session.values.entries
    requires MessageKey(QueueAfter(c.events).Tail()) !in c.WorkerAt(w).session.values.entries
    ensures var pushFirst := Apply(handler, c, CallContract(c.chain.app, [m]));
            var commitFirst := Apply(handler, c, Commit(w, attestor));
            Apply(handler, pushFirst, Commit(w, attestor)).chain ==
            Apply(handler, commitFirst, CallContract(commitFirst.chain.app, [m])).chain
  {
    hide Apply, Inv, Push, FoldReplies, ConditionsMet, CommittedStore, AtomicSession, QueueAfter, Represents, PollsArePrefix;
    var wk, q, n := c.WorkerAt(w), QueueAfter(c.events), CommitCount(c.events);
    var commitFirst := Apply(handler, c, Commit(w, attestor));
    CommitAfterPush(handler, start, c, w, attestor, m);
    AppliedCommit(handler, start, c, w, attestor);
    PushAppends(c.chain.kv, q, m);
    PushCommutesWithCommittedStore(c.chain.kv, q, wk, n + 1, m);
    PushAppends(commitFirst.chain.kv, Queue(q.head + |Polls(wk.trace)|, q.items[|Polls(wk.trace)|..]), m);
    PushStep(handler, commitFirst, m);
  }

  /** The step is accepted: it changes the configuration, to this one. */
  ghost predicate Takes<H>(handler: Handler<H>, c: Config<H>, step: Step<H>, after: Config<H>) {
    after == Apply(handler, c, step) && after != c
  }

  /** The same of every schedule. */
  lemma PushCommutes<H>(
      handler: Handler<H>, roles: Roles, nonces: Nonces, app: H, steps: seq<Step<H>>, c: Config<H>,
      w: WorkerId, attestor: Address, m: Bytes, committed: Config<H>, pushed: Config<H>)
    requires Reaches(handler, roles, nonces, app, steps, c)
    requires Takes(handler, c, Commit(w, attestor), committed)
    requires Takes(handler, c, CallContract(c.chain.app, [m]), pushed)
    requires && TAIL_KEY !in c.WorkerAt(w).session.values.entries
             && MessageKey(|PushedBy(c.events)|) !in c.WorkerAt(w).session.values.entries
    ensures Apply(handler, pushed, Commit(w, attestor)).chain ==
            Apply(handler, committed, CallContract(committed.chain.app, [m])).chain
  {
    PushWasOk(handler, c, m);
    hide Apply, Push, Exec;
    ReachedKeepsInv(handler, roles, nonces, app, steps, c);
    assert QueueAfter(c.events).Tail() == |PushedBy(c.events)|;
    PushCommutesWithCommit(handler, Initial(roles, nonces, app).chain, c, w, attestor, m);
  }

  lemma PushWasOk<H>(handler: Handler<H>, c: Config<H>, m: Bytes)
    requires Apply(handler, c, CallContract(c.chain.app, [m])) != c
    ensures Push(c.chain.kv, m).1.Ok?
  {
    var none: seq<Bytes> := [];
    assert [m][..0] == none;
    assert PushAll(c.chain.kv, none) == (c.chain.kv, Pass);
  }

  /** The exception is exact: a session that did ask for the tail or the slot is refused after the push. */
  lemma TailReaderIsRefused<H>(
      handler: Handler<H>, roles: Roles, nonces: Nonces, app: H, steps: seq<Step<H>>, c: Config<H>,
      w: WorkerId, attestor: Address, m: Bytes, committed: Config<H>, pushed: Config<H>)
    requires Reaches(handler, roles, nonces, app, steps, c)
    requires Takes(handler, c, Commit(w, attestor), committed)
    requires Takes(handler, c, CallContract(c.chain.app, [m]), pushed)
    requires || TAIL_KEY in c.WorkerAt(w).session.values.entries
             || MessageKey(|PushedBy(c.events)|) in c.WorkerAt(w).session.values.entries
    ensures Apply(handler, pushed, Commit(w, attestor)) == pushed
  {
    PushWasOk(handler, c, m);
    ReachedKeepsInv(handler, roles, nonces, app, steps, c);
    var q, values := QueueAfter(c.events), c.WorkerAt(w).session.values;
    assert q.Tail() == |PushedBy(c.events)|;
    assert Represents(c.chain.kv, q);
    hide Apply, Exec, Inv, Push, RollupInner;
    PushAppends(c.chain.kv, q, m);
    CommitSent(handler, c, w, attestor);
    PushStep(handler, c, m);
    assert pushed.chain.kv == Push(c.chain.kv, m).0;
    assert pushed.WorkerAt(w) == c.WorkerAt(w);
    TailReadsChange(c.chain.kv, q, values, m);
    if Apply(handler, pushed, Commit(w, attestor)) != pushed {
      CommitSent(handler, pushed, w, attestor);
    }
  }

  lemma TailReadsChange(kv: Store, q: Queue, values: InsertionMap, m: Bytes)
    requires Represents(kv, q) && q.Tail() + 1 < U32_LIMIT && ConditionsMet(kv, values.Pairs())
    requires TAIL_KEY in values.entries || MessageKey(q.Tail()) in values.entries
    ensures !ConditionsMet(Push(kv, m).0, values.Pairs())
  {
    ConditionsAreReads(kv, values);
    ConditionsAreReads(Push(kv, m).0, values);
    PushReads(kv, q, m, TAIL_KEY);
    PushReads(kv, q, m, MessageKey(q.Tail()));
    QueueKeysDistinct();
    DecodeEncodeU32(q.Tail() + 1);
  }
}
