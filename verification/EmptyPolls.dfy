/**
  What a poll that finds nothing is worth. It reads the tail outside the session's conditions, so
  it was true when it was given, and a commit neither checks nor needs it to be true any more.
 */
module EmptyPolls {
  import opened Wrappers
  import opened ByteCodec
  import opened KvStore
  import opened AccessControl
  import opened MessageQueue
  import opened RollupClient
  import opened Session
  import opened SessionCache
  import opened Protocol
  import opened Serializability
  import opened Polling
  import opened Snapshots
  import Interleavings
  import Guarantees
  import ReadOnlySessions

  // ---------- serializability, polls that found nothing included ----------

  /** Commit k polled every message pushed before it, and polled none after it first found none. */
  ghost predicate EmptiesHeld<H>(events: seq<Event<H>>, k: nat)
    requires k < |events| && events[k].SessionCommitted?
  {
    Empty in events[k].trace ==>
      NoMessageAfterEmpty(events[k].trace) && |PolledBy(events[..k + 1])| == |PushedBy(events[..k])|
  }

  ghost predicate AllEmptiesHeld<H>(events: seq<Event<H>>, n: nat)
    requires n <= |events|
  {
    forall k: nat | k < n && events[k].SessionCommitted? :: EmptiesHeld(events, k)
  }

  lemma SessionWithEmpties<H>(
      handler: Handler<H>, s: Chain<H>, q: Queue, attestor: Address, trace: seq<Op>, replies: seq<Bytes>)
    requires Represents(s.kv, q)
    ensures AtomicSession(handler, s, attestor, trace, replies) ==
            if EmptiesTrue(q, trace) then AtomicSession(handler, s, attestor, WithoutEmpty(trace), replies) else None
  {
    hide Represents, EmptiesTrue, AtomicOps, WithoutEmpty, AtomicSession;
    ReplayWithEmpties(s.kv, q, trace);
    SessionByOps(handler, s, attestor, trace, WithoutEmpty(trace), replies);
  }

  /** An atomic session depends on its trace by the replay of its operations alone. */
  lemma SessionByOps<H>(handler: Handler<H>, s: Chain<H>, attestor: Address, a: seq<Op>, b: seq<Op>, replies: seq<Bytes>)
    ensures AtomicOps(s.kv, a).None? ==> AtomicSession(handler, s, attestor, a, replies).None?
    ensures AtomicOps(s.kv, a) == AtomicOps(s.kv, b) ==>
              AtomicSession(handler, s, attestor, a, replies) == AtomicSession(handler, s, attestor, b, replies)
  {
    hide AtomicOps, ReadIndex, FoldReplies, AtomicPop, Set, EncodeU32;
  }

  /** A session that runs atomically without its empty polls runs with them exactly when they held. */
  lemma CommitWithEmpties<H>(
      handler: Handler<H>, s: Chain<H>, q: Queue, events: seq<Event<H>>, k: nat)
    requires k < |events| && events[k].SessionCommitted?
    requires Represents(s.kv, q) && q == QueueAfter(events[..k]) && PolledBy(events[..k]) <= PushedBy(events[..k])
    requires AtomicEvent(handler, s, events[k]).Some?
    ensures var e := events[k];
            AtomicSession(handler, s, e.attestor, e.trace, e.replies) ==
            if EmptiesHeld(events, k) then AtomicEvent(handler, s, e) else None
  {
    var e := events[k];
    SessionWithEmpties(handler, s, q, e.attestor, e.trace, e.replies);
    SessionHasOps(handler, s, e.attestor, WithoutEmpty(e.trace), e.replies);
    ReplayedPollsArePrefix(s.kv, q, WithoutEmpty(e.trace));
    EmptyAddsNothing(e.trace);
    EmptiesTrueExactlyWhen(q, e.trace);
    assert events[..k + 1][..k] == events[..k];
    hide Represents, AtomicSession, WithoutEmpty, EmptiesTrue, Polls, PushedBy, NoMessageAfterEmpty;
  }

  lemma SessionHasOps<H>(handler: Handler<H>, s: Chain<H>, attestor: Address, trace: seq<Op>, replies: seq<Bytes>)
    requires AtomicSession(handler, s, attestor, trace, replies).Some?
    ensures AtomicOps(s.kv, trace).Some?
  {
    hide AtomicOps, AtomicPop, FoldReplies, ReadIndex;
  }

  /** Every prefix of the history is the history of a state on the way, with its queue in the store. */
  lemma StateOnTheWay<H>(
      handler: Handler<H>, roles: Roles, nonces: Nonces, app: H, steps: seq<Step<H>>, c: Config<H>, k: nat)
      returns (mid: Config<H>)
    requires Reaches(handler, roles, nonces, app, steps, c) && k <= |c.events|
    ensures mid.events == c.events[..k]
    ensures AtomicRun(handler, Initial(roles, nonces, app).chain, mid.events) == Some(mid.chain)
    ensures Represents(mid.chain.kv, QueueAfter(mid.events)) && PolledBy(mid.events) <= PushedBy(mid.events)
  {
    hide Reaches, Inv, AtomicRun, QueueAfter, PolledBy, PushedBy, Represents, WorkersOk, StartsInOrder, CommitCount;
    var j;
    j, mid := PrefixReached(handler, roles, nonces, app, steps, c, k);
    ReachedKeepsInv(handler, roles, nonces, app, steps[..j], mid);
    InvParts(handler, Initial(roles, nonces, app).chain, mid);
  }

  /** Replaying one event more, with its empty polls and without. */
  lemma FullRunOneMore<H>(handler: Handler<H>, start: Chain<H>, s: Chain<H>, events: seq<Event<H>>, k: nat)
    requires k < |events| && AtomicRun(handler, start, events[..k]) == Some(s)
    requires Represents(s.kv, QueueAfter(events[..k])) && PolledBy(events[..k]) <= PushedBy(events[..k])
    requires AtomicRun(handler, start, events[..k + 1]).Some?
    requires FullRun(handler, start, events[..k]) == if AllEmptiesHeld(events, k) then Some(s) else None
    ensures FullRun(handler, start, events[..k + 1]) ==
            if AllEmptiesHeld(events, k + 1) then AtomicRun(handler, start, events[..k + 1]) else None
  {
    hide AtomicEvent, AtomicSession, EmptiesHeld, QueueAfter, PolledBy, PushedBy, Represents;
    assert events[..k + 1][..k] == events[..k] && events[..k + 1][k] == events[k];
    if events[k].SessionCommitted? {
      CommitWithEmpties(handler, s, QueueAfter(events[..k]), events, k);
    }
  }

  lemma {:induction false} FullRunOnPrefix<H>(
      handler: Handler<H>, roles: Roles, nonces: Nonces, app: H, steps: seq<Step<H>>, c: Config<H>, k: nat)
    requires Reaches(handler, roles, nonces, app, steps, c) && k <= |c.events|
    ensures var start := Initial(roles, nonces, app).chain;
            && AtomicRun(handler, start, c.events[..k]).Some?
            && FullRun(handler, start, c.events[..k]) ==
               if AllEmptiesHeld(c.events, k) then AtomicRun(handler, start, c.events[..k]) else None
  {
    hide Reaches, EmptiesHeld, QueueAfter, PolledBy, PushedBy, Represents;
    if k > 0 {
      hide FullRun, AtomicRun;
      var after := StateOnTheWay(handler, roles, nonces, app, steps, c, k);
      var mid := StateOnTheWay(handler, roles, nonces, app, steps, c, k - 1);
      FullRunOnPrefix(handler, roles, nonces, app, steps, c, k - 1);
      FullRunOneMore(handler, Initial(roles, nonces, app).chain, mid.chain, c.events, k - 1);
    }
  }

  /**
    Serializability with every poll that found nothing replayed as well. It holds of a schedule
    exactly when each committed session that polled in vain had by then polled all that was pushed
    before its commit: the tail it saw may have moved, and no condition of the commit says so.
   */
  lemma FullySerializableExactlyWhen<H>(
      handler: Handler<H>, roles: Roles, nonces: Nonces, app: H, steps: seq<Step<H>>, c: Config<H>)
    requires Reaches(handler, roles, nonces, app, steps, c)
    ensures FullRun(handler, Initial(roles, nonces, app).chain, c.events) == Some(c.chain) <==>
            forall k: nat | k < |c.events| && c.events[k].SessionCommitted? :: EmptiesHeld(c.events, k)
    ensures FullRun(handler, Initial(roles, nonces, app).chain, c.events).Some? ==>
            FullRun(handler, Initial(roles, nonces, app).chain, c.events) == Some(c.chain)
  {
    FullRunOnPrefix(handler, roles, nonces, app, steps, c, |c.events|);
    Guarantees.StrictSerializability(handler, roles, nonces, app, steps, c);
    assert c.events[..|c.events|] == c.events;
    hide Reaches, FullRun, AtomicRun, EmptiesHeld;
  }

  // ---------- true when it was given ----------

  /** The step is none of those by which this worker reads a tail or uses the one it has. */
  predicate KeepsTail<H>(step: Step<H>, w: WorkerId) {
    OwnStep(step) && step.w == w ==> !step.Begin? && !step.Abandon? && !step.AskTail? && !step.AskMessage?
  }

  lemma WorkerKeepsTail<H>(wk: Worker, kv: Store, commits: nat, step: Step<H>)
    requires OwnStep(step) && !step.Begin? && !step.Abandon? && !step.AskTail? && !step.AskMessage?
    ensures var wk' := WorkerStep(wk, kv, commits, step);
            && wk'.startedAt == wk.startedAt && wk'.session.version == wk.session.version
            && (wk'.phase.HasTail? ==> wk'.phase == wk.phase)
  {
    hide RemoteIndex, GetValue;
    match step
    case ReadValue(_, key) => ReadKeepsVersion(wk.session, key, kv);
    case _ =>
  }

  lemma ReadKeepsVersion(s: SessionState, key: Key, remote: Store)
    ensures GetValue(s, key, remote).0.version == s.version
  {
  }

  lemma StepKeepsTail<H>(handler: Handler<H>, c: Config<H>, step: Step<H>, w: WorkerId)
    requires KeepsTail(step, w)
    ensures var wk, wk' := c.WorkerAt(w), Apply(handler, c, step).WorkerAt(w);
            && wk'.startedAt == wk.startedAt && wk'.session.version == wk.session.version
            && (wk'.phase.HasTail? ==> wk'.phase == wk.phase)
  {
    hide WorkerStep, Rollup, PushAll, CommitParams;
    if OwnStep(step) {
      OwnStepEffect(handler, c, step);
      if step.w == w {
        WorkerKeepsTail(c.WorkerAt(w), c.chain.kv, CommitCount(c.events), step);
      }
    }
  }

  lemma {:induction false} StepsKeepTail<H>(handler: Handler<H>, c: Config<H>, steps: seq<Step<H>>, w: WorkerId)
    requires forall i | 0 <= i < |steps| :: KeepsTail(steps[i], w)
    ensures var wk, wk' := c.WorkerAt(w), Exec(handler, c, steps).WorkerAt(w);
            && wk'.startedAt == wk.startedAt && wk'.session.version == wk.session.version
            && (wk'.phase.HasTail? ==> wk'.phase == wk.phase)
    ensures c.events <= Exec(handler, c, steps).events
  {
    hide Apply, KeepsTail;
    if steps != [] {
      var n := |steps| - 1;
      StepsKeepTail(handler, c, steps[..n], w);
      StepKeepsTail(handler, Exec(handler, c, steps[..n]), steps[n], w);
      CommitsGrow(handler, Exec(handler, c, steps[..n]), steps[n]);
    }
  }

  /** While nobody commits nothing leaves the queue. */
  lemma {:induction false} NoCommitNoPop<H>(events: seq<Event<H>>, k: nat)
    requires k <= |events|
    ensures CommitCount(events[..k]) <= CommitCount(events)
    ensures CommitCount(events[..k]) == CommitCount(events) ==> PolledBy(events[..k]) == PolledBy(events)
  {
    if k == |events| {
      assert events[..k] == events;
    } else {
      NoCommitNoPop(events[..|events| - 1], k);
      assert events[..|events| - 1][..k] == events[..k];
    }
  }

  /**
    A poll that finds nothing told the truth of the moment it read the tail: of a session nobody
    has overtaken, all the queue then held had been polled, whatever was pushed before the poll
    came to its end.
   */
  lemma EmptyPollWasTrue<H>(
      handler: Handler<H>, roles: Roles, nonces: Nonces, app: H,
      steps: seq<Step<H>>, c: Config<H>, more: seq<Step<H>>, later: Config<H>, w: WorkerId)
    requires Reaches(handler, roles, nonces, app, steps, c) && c.WorkerAt(w).session.version.Some?
    requires Guarantees.Continues(handler, Apply(handler, c, AskTail(w)), more, later)
    requires forall i | 0 <= i < |more| :: KeepsTail(more[i], w)
    requires var wk := later.WorkerAt(w);
             && wk.phase.HasTail? && wk.session.currentIndex.Some? && wk.session.currentIndex.value >= wk.phase.tail
             && wk.startedAt == CommitCount(later.events)
    ensures var polled := |Polls(later.WorkerAt(w).trace)|;
            && ReadIndex(c.chain.kv, HEAD_KEY).Ok?
            && ReadIndex(c.chain.kv, TAIL_KEY) == Ok(ReadIndex(c.chain.kv, HEAD_KEY).value + polled)
            && AtomicOp(c.chain.kv, Local(c.chain.kv, polled), Empty).Some?
  {
    hide Reaches, Inv, Apply, Exec, KeepsTail, AtomicRun, AtomicOp, AllAllowed, WorkersOk, WorkerOk, StoreOk, Polls,
         StartsInOrder, ReadIndex, QueueAfter, PolledBy, PushedBy;
    var start, asked := Initial(roles, nonces, app).chain, Apply(handler, c, AskTail(w));
    var wk := later.WorkerAt(w);
    TailAsked(handler, c, w);
    StepsKeepTail(handler, asked, more, w);
    AskedReaches(handler, roles, nonces, app, steps, c, more, later, w);
    ReachedKeepsInv(handler, roles, nonces, app, steps, c);
    InvParts(handler, start, c);
    ReachedKeepsInv(handler, roles, nonces, app, steps + [AskTail(w)] + more, later);
    InvParts(handler, start, later);
    OneWorkerOk(QueueAfter(c.events), CommitCount(c.events), c, w);
    OneWorkerOk(QueueAfter(later.events), CommitCount(later.events), later, w);
    assert later.events[..|c.events|] == c.events;
    NoCommitNoPop(later.events, |c.events|);
    NotYetOvertaken(QueueAfter(c.events), CommitCount(c.events), c.WorkerAt(w));
    NotYetOvertaken(QueueAfter(later.events), CommitCount(later.events), wk);
    QueueFacts(c.events);
    QueueFacts(later.events);
    TruePoll(c.chain.kv, QueueAfter(c.events), QueueAfter(later.events), CommitCount(c.events), wk);
  }

  lemma NotYetOvertaken(q: Queue, commits: nat, wk: Worker)
    requires WorkerOk(q, commits, wk) && wk.session.version.Some?
    ensures wk.startedAt <= commits
    ensures wk.startedAt == commits ==> PollsArePrefix(q, wk)
  {
    hide MatchesTrace, PollsArePrefix;
  }

  lemma QueueFacts<H>(events: seq<Event<H>>)
    requires PolledBy(events) <= PushedBy(events)
    ensures QueueAfter(events) == Queue(|PolledBy(events)|, PushedBy(events)[|PolledBy(events)|..])
  {
    hide PolledBy, PushedBy;
  }

  lemma TailAsked<H>(handler: Handler<H>, c: Config<H>, w: WorkerId)
    ensures var asked := Apply(handler, c, AskTail(w));
            && asked.chain == c.chain && asked.events == c.events
            && asked.WorkerAt(w).startedAt == c.WorkerAt(w).startedAt
            && asked.WorkerAt(w).session == c.WorkerAt(w).session
            && (asked.WorkerAt(w).phase.HasTail? ==> ReadIndex(c.chain.kv, TAIL_KEY) == Ok(asked.WorkerAt(w).phase.tail))
  {
    hide ReadIndex;
  }

  lemma AskedReaches<H>(
      handler: Handler<H>, roles: Roles, nonces: Nonces, app: H,
      steps: seq<Step<H>>, c: Config<H>, more: seq<Step<H>>, later: Config<H>, w: WorkerId)
    requires Reaches(handler, roles, nonces, app, steps, c)
    requires Guarantees.Continues(handler, Apply(handler, c, AskTail(w)), more, later)
    ensures Reaches(handler, roles, nonces, app, steps + [AskTail(w)] + more, later)
  {
    hide CommitCount, Apply;
    TailAsked(handler, c, w);
    var ask: seq<Step<H>> := [AskTail(w)];
    var start := Initial(roles, nonces, app);
    assert (steps + ask)[..|steps|] == steps;
    assert Exec(handler, start, steps + ask) == Apply(handler, c, AskTail(w));
    Guarantees.ContinuedReaches(handler, roles, nonces, app, steps + ask, Apply(handler, c, AskTail(w)), more, later);
  }

  lemma TruePoll(kv: Store, q: Queue, later: Queue, commits: nat, wk: Worker)
    requires StoreOk(kv, q, commits) && PollsArePrefix(later, wk) && later.head == q.head
    requires wk.phase.HasTail? && ReadIndex(kv, TAIL_KEY) == Ok(wk.phase.tail)
    requires wk.session.currentIndex.Some? && wk.session.currentIndex.value >= wk.phase.tail
    ensures ReadIndex(kv, HEAD_KEY) == Ok(q.head) && ReadIndex(kv, TAIL_KEY) == Ok(q.head + |Polls(wk.trace)|)
    ensures AtomicOp(kv, Local(kv, |Polls(wk.trace)|), Empty).Some?
  {
    hide ReadIndex, Polls;
  }

  // ---------- what a poll gives now ----------

  /**
    A session whose version holds, polling the present contract, gets the next message it has not
    polled, and nothing exactly when it has polled them all; a message is never missing.
   */
  lemma PollGivesTheNext<H>(
      handler: Handler<H>, roles: Roles, nonces: Nonces, app: H, steps: seq<Step<H>>, c: Config<H>, w: WorkerId,
      decodes: Bytes -> bool)
    requires Reaches(handler, roles, nonces, app, steps, c) && c.WorkerAt(w).session.version.Some?
    requires VersionHolds(c.chain.kv, c.WorkerAt(w).session)
    ensures var wk, kv := c.WorkerAt(w), c.chain.kv;
            var next := |PolledBy(c.events)| + |Polls(wk.trace)|;
            && next <= |PushedBy(c.events)|
            && PollMessage(wk.session, kv, kv, kv, decodes).1 ==
               if next == |PushedBy(c.events)| then Ok(None)
               else if decodes(PushedBy(c.events)[next]) then Ok(Some(PushedBy(c.events)[next]))
               else Err(UndecodableMessage(next))
  {
    hide Reaches, Inv, Exec, AtomicRun, CommitCount, PolledBy, PushedBy, WorkersOk, WorkerOk, Polls, StartsInOrder,
         PollMessage, VersionHolds, QueueAfter, StoreOk, PollsArePrefix;
    var start, wk, q, n := Initial(roles, nonces, app).chain, c.WorkerAt(w), QueueAfter(c.events), CommitCount(c.events);
    ReachedKeepsInv(handler, roles, nonces, app, steps, c);
    InvParts(handler, start, c);
    OneWorkerOk(q, n, c, w);
    VersionHoldsExactlyWhenNotOvertaken(c.chain.kv, q, n, wk);
    NotYetOvertaken(q, n, wk);
    QueueFacts(c.events);
    PollOfPrefix(c.chain.kv, q, n, wk, decodes);
  }

  lemma PollOfPrefix(kv: Store, q: Queue, commits: nat, wk: Worker, decodes: Bytes -> bool)
    requires StoreOk(kv, q, commits) && PollsArePrefix(q, wk)
    ensures var polled := |Polls(wk.trace)|;
            polled <= |q.items| &&
            PollMessage(wk.session, kv, kv, kv, decodes).1 ==
            if polled == |q.items| then Ok(None)
            else if decodes(q.items[polled]) then Ok(Some(q.items[polled]))
            else Err(UndecodableMessage(q.head + polled))
  {
    hide ReadIndex, MessageKey, Polls, Get;
  }

  // ---------- a commit after a poll that no longer holds ----------

  const KEY: Key := [1]
  const WRITTEN: Option<Value> := Some([1])

  /** Worker 0 polls in vain, then the contract pushes a message, then worker 0 writes a key. */
  function BeforeCommit<H>(app: H, message: Bytes, decodes: Bytes -> bool): seq<Step<H>> {
    [Begin(0), AskTail(0), AskHead(0), AskMessage(0, decodes), CallContract(app, [message])] + [WriteValue(0, KEY, WRITTEN)]
  }

  const POLLED_IN_VAIN: SessionState := StartSession(map[]).0.(currentIndex := Some(0))

  lemma PollInVain<H>(handler: Handler<H>, c: Config<H>, decodes: Bytes -> bool)
    requires c.chain.kv == map[] && c.events == []
    ensures var one := Apply(handler, c, Begin(0));
            var two := Apply(handler, Apply(handler, one, AskTail(0)), AskHead(0));
            var c' := Apply(handler, two, AskMessage(0, decodes));
            && c'.chain == c.chain && c'.events == []
            && c'.WorkerAt(0) == Worker(POLLED_IN_VAIN, Idle, [Read(VERSION_KEY, None), Empty], 0)
  {
    hide DecodeU32;
  }

  lemma OnePush<H>(handler: Handler<H>, c: Config<H>, app: H, message: Bytes)
    requires c.chain.kv == map[] && c.events == []
    ensures var c' := Apply(handler, c, CallContract(app, [message]));
            && c'.workers == c.workers && c'.chain == c.chain.(kv := PushAll(map[], [message]).0, app := app)
            && c'.events == [ContractCalled(app, [message])]
  {
    hide MessageKey, EncodeU32;
    var none: seq<Bytes> := [];
    assert [message][..0] == none;
    assert PushAll(c.chain.kv, none) == (c.chain.kv, Pass);
    EmptyStoreRepresentsEmptyQueue();
    PushAppends(map[], Queue(0, []), message);
  }

  lemma LateWrite<H>(handler: Handler<H>, c: Config<H>)
    ensures var c' := Apply(handler, c, WriteValue(0, KEY, WRITTEN));
            var wk := c.WorkerAt(0);
            && c'.chain == c.chain && c'.events == c.events
            && c'.WorkerAt(0) == wk.(session := SetValue(wk.session, KEY, WRITTEN), trace := wk.trace + [Write(KEY, WRITTEN)])
  {
    hide SetValue;
  }

  lemma VainAllowed<H>(app: H, message: Bytes, decodes: Bytes -> bool)
    ensures AllAllowed(BeforeCommit(app, message, decodes))
  {
    assert QUEUE_PREFIX[0] != 1;
  }

  lemma StateBeforeCommit<H>(
      handler: Handler<H>, roles: Roles, nonces: Nonces, app: H, message: Bytes, decodes: Bytes -> bool)
    ensures var c := Exec(handler, Initial(roles, nonces, app), BeforeCommit(app, message, decodes));
            && c.chain == Chain(PushAll(map[], [message]).0, roles, nonces, app)
            && c.events == [ContractCalled(app, [message])]
            && c.WorkerAt(0) == Worker(SetValue(POLLED_IN_VAIN, KEY, WRITTEN), Idle,
                                       [Read(VERSION_KEY, None), Empty, Write(KEY, WRITTEN)], 0)
  {
    hide Apply, PushAll, POLLED_IN_VAIN, SetValue;
    var c0 := Initial(roles, nonces, app);
    var none: seq<Step<H>> := [];
    var one := none + [Begin(0)];
    var two := one + [AskTail(0)];
    var three := two + [AskHead(0)];
    var four := three + [AskMessage(0, decodes)];
    var five := four + [CallContract(app, [message])];
    ReadOnlySessions.Snoc(handler, c0, none, Begin(0));
    ReadOnlySessions.Snoc(handler, c0, one, AskTail(0));
    ReadOnlySessions.Snoc(handler, c0, two, AskHead(0));
    ReadOnlySessions.Snoc(handler, c0, three, AskMessage(0, decodes));
    ReadOnlySessions.Snoc(handler, c0, four, CallContract(app, [message]));
    ReadOnlySessions.Snoc(handler, c0, five, WriteValue(0, KEY, WRITTEN));
    assert five + [WriteValue(0, KEY, WRITTEN)] == BeforeCommit(app, message, decodes);
    PollInVain(handler, c0, decodes);
    OnePush(handler, Exec(handler, c0, four), app, message);
    LateWrite(handler, Exec(handler, c0, five));
  }

  lemma VainVersionHolds(kv: Store, message: Bytes)
    requires kv == PushAll(map[], [message]).0
    ensures var session := SetValue(POLLED_IN_VAIN, KEY, WRITTEN);
            && VersionHolds(kv, session) && QueueReadsHold(kv, session)
            && session.version.Some? && session.actions == []
  {
    hide PushAll, IsQueueKey, DecodeU32;
    Interleavings.PushAllOutsideQueue(map[], [message]);
    VersionKeyIsNotQueueKey();
  }

  lemma LastWriteIsHeld(trace: seq<Op>)
    requires trace != [] && trace[|trace| - 1].Write?
    ensures UpdatesOf(trace) != map[]
  {
    assert trace[|trace| - 1].key in UpdatesOf(trace);
  }

  lemma CommitAccepted<H>(
      handler: Handler<H>, roles: Roles, nonces: Nonces, app: H, steps: seq<Step<H>>, c: Config<H>, attestor: Address)
    requires Reaches(handler, roles, nonces, app, steps, c) && (attestor, AttestorRole) in c.chain.roles
    requires var s := c.WorkerAt(0).session;
             && s.version.Some? && s.actions == [] && UpdatesOf(c.WorkerAt(0).trace) != map[]
             && VersionHolds(c.chain.kv, s) && QueueReadsHold(c.chain.kv, s)
    ensures var c' := Apply(handler, c, Commit(0, attestor));
            && c' != c
            && c'.events == c.events + [SessionCommitted(attestor, CommitCount(c.events), c.WorkerAt(0).trace, [])]
  {
    hide Inv, Apply, Exec, VersionHolds, QueueReadsHold, AtomicSession, StoreOk, PollsArePrefix, QueueAfter, UpdatesOf;
    Guarantees.SessionHoldsReplies(handler, roles, nonces, app, steps, c, 0);
    hide Reaches;
    CommitAcceptedExactlyWhenVersionHolds(handler, roles, nonces, app, steps, c, 0, attestor);
    ReachedKeepsInv(handler, roles, nonces, app, steps, c);
    CommitApplies(handler, Initial(roles, nonces, app).chain, c, 0, attestor);
  }

  lemma FirstPush<H>(event: Event<H>, message: Bytes)
    requires event.ContractCalled? && event.messages == [message]
    ensures PolledBy([event]) == [] && PushedBy([event]) == [message]
  {
    var none: seq<Event<H>> := [];
    assert [event][..0] == none;
    assert PushedBy(none) == [] && [] + [message] == [message];
  }

  /** One message was pushed, none polled, and yet a poll found none. */
  lemma NotHeld<H>(events: seq<Event<H>>, message: Bytes)
    requires |events| == 2 && events[0].ContractCalled? && events[0].messages == [message]
    requires events[1].SessionCommitted? && events[1].trace == [Read(VERSION_KEY, None), Empty, Write(KEY, WRITTEN)]
    ensures !EmptiesHeld(events, 1)
  {
    var t := events[1].trace;
    assert t[1] == Empty;
    var one := [Read(VERSION_KEY, None)];
    assert [] + one == one && one + [Empty] + [Write(KEY, WRITTEN)] == t;
    PollsUnchanged([], Read(VERSION_KEY, None));
    PollsUnchanged(one, Empty);
    PollsUnchanged(one + [Empty], Write(KEY, WRITTEN));
    assert Polls(t) == [];
    FirstPush(events[0], message);
    assert events[..1] == [events[0]] && events[..2][..1] == events[..1];
    assert PolledBy(events[..2]) == PolledBy(events[..1]) + Polls(t);
  }

  /**
    Such a session commits although its poll no longer holds: the commit is accepted, its version
    being current, and the atomic run that replays the poll as well has no such history.
   */
  lemma CommitAfterVainPoll<H>(
      handler: Handler<H>, roles: Roles, nonces: Nonces, app: H, message: Bytes, decodes: Bytes -> bool, attestor: Address)
    requires (attestor, AttestorRole) in roles
    ensures var start := Initial(roles, nonces, app);
            var steps := BeforeCommit(app, message, decodes);
            var before := Exec(handler, start, steps);
            var after := Exec(handler, start, steps + [Commit(0, attestor)]);
            && Reaches(handler, roles, nonces, app, steps + [Commit(0, attestor)], after)
            && VersionHolds(before.chain.kv, before.WorkerAt(0).session)
            && after != before && CommitCount(after.events) == 1
            && AtomicRun(handler, start.chain, after.events) == Some(after.chain)
            && FullRun(handler, start.chain, after.events).None?
  {
    hide BeforeCommit, Apply, PushAll, AtomicRun, FullRun, Inv, EmptiesHeld, POLLED_IN_VAIN, VersionHolds, QueueReadsHold,
         AllAllowed, SetValue;
    var start := Initial(roles, nonces, app);
    var steps := BeforeCommit(app, message, decodes);
    var before := Exec(handler, start, steps);
    ReadOnlySessions.Snoc(handler, start, steps, Commit(0, attestor));
    VainAllowed(app, message, decodes);
    StateBeforeCommit(handler, roles, nonces, app, message, decodes);
    OneCallNoCommit(before.events);
    VainVersionHolds(before.chain.kv, message);
    LastWriteIsHeld(before.WorkerAt(0).trace);
    CommitAccepted(handler, roles, nonces, app, steps, before, attestor);
    VainHistory(handler, roles, nonces, app, steps, before, message, attestor);
  }

  lemma OneCallNoCommit<H>(events: seq<Event<H>>)
    requires |events| == 1 && events[0].ContractCalled?
    ensures CommitCount(events) == 0
  {
    var none: seq<Event<H>> := [];
    assert events[..0] == none;
  }

  lemma VainHistory<H>(
      handler: Handler<H>, roles: Roles, nonces: Nonces, app: H, steps: seq<Step<H>>, before: Config<H>, message: Bytes,
      attestor: Address)
    requires Reaches(handler, roles, nonces, app, steps, before)
    requires |before.events| == 1 && before.events[0].ContractCalled? && before.events[0].messages == [message]
    requires before.WorkerAt(0).trace == [Read(VERSION_KEY, None), Empty, Write(KEY, WRITTEN)]
    requires var after := Apply(handler, before, Commit(0, attestor));
             after.events == before.events + [SessionCommitted(attestor, 0, before.WorkerAt(0).trace, [])]
    ensures var start := Initial(roles, nonces, app).chain;
            var after := Apply(handler, before, Commit(0, attestor));
            && Reaches(handler, roles, nonces, app, steps + [Commit(0, attestor)], after)
            && CommitCount(after.events) == 1
            && AtomicRun(handler, start, after.events) == Some(after.chain)
            && FullRun(handler, start, after.events).None?
  {
    hide Apply, AtomicRun, FullRun, EmptiesHeld;
    var after := Apply(handler, before, Commit(0, attestor));
    ReadOnlySessions.Snoc(handler, Initial(roles, nonces, app), steps, Commit(0, attestor));
    OneCallNoCommit(before.events);
    assert after.events[..1] == before.events;
    assert (steps + [Commit(0, attestor)])[..|steps|] == steps;
    assert Reaches(handler, roles, nonces, app, steps + [Commit(0, attestor)], after);
    hide Reaches, CommitCount;
    Guarantees.StrictSerializability(handler, roles, nonces, app, steps + [Commit(0, attestor)], after);
    FullySerializableExactlyWhen(handler, roles, nonces, app, steps + [Commit(0, attestor)], after);
    NotHeld(after.events, message);
  }
}
