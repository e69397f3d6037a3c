/**
  When a running session has a consistent view of the contract. The answer is the version: as
  long as it has not moved, everything the session read still stands, and its commit goes through.
 */
module Snapshots {
  import opened Wrappers
  import opened ByteCodec
  import opened KvStore
  import opened AccessControl
  import opened MessageQueue
  import opened RollupClient
  import opened Session
  import opened SessionCache
  import opened Protocol
  import opened Serializability
  import opened Interleavings
  import opened Polling
  import Guarantees

  // ---------- the invariant ----------

  /** Every value but the queue's that a session nobody has overtaken read is still stored. */
  ghost predicate ViewOk(kv: Store, commits: nat, wk: Worker) {
    wk.session.version.Some? && wk.startedAt == commits ==>
      forall k | k in wk.session.values.entries && !IsQueueKey(k) :: Get(kv, k) == wk.session.values.entries[k]
  }

  ghost predicate ViewsOk<H>(c: Config<H>) {
    forall w :: ViewOk(c.chain.kv, CommitCount(c.events), c.WorkerAt(w))
  }

  lemma OneViewOk<H>(c: Config<H>, w: WorkerId)
    requires ViewsOk(c)
    ensures ViewOk(c.chain.kv, CommitCount(c.events), c.WorkerAt(w))
  {
    hide ViewOk;
  }

  lemma ReadKeepsView(kv: Store, commits: nat, wk: Worker, key: Key)
    requires ViewOk(kv, commits, wk)
    ensures var (session, result) := GetValue(wk.session, key, kv);
            ViewOk(kv, commits, wk.(session := session, trace := wk.trace + [Read(key, result)]))
  {
    hide Get, IsQueueKey;
  }

  lemma WorkerStepKeepsView<H>(kv: Store, commits: nat, wk: Worker, step: Step<H>)
    requires ViewOk(kv, commits, wk)
    ensures ViewOk(kv, commits, WorkerStep(wk, kv, commits, step))
  {
    hide RemoteIndex, MessageKey;
    match step
    case ReadValue(_, key) => ReadKeepsView(kv, commits, wk, key);
    case Begin(_) =>
      hide DecodeU32, IsQueueKey;
    case _ =>
      hide ViewOk, WorkerStep;
      ValuesStay(wk, kv, commits, step);
      SameView(kv, commits, wk, WorkerStep(wk, kv, commits, step));
  }

  /** Only a read or a new session changes what a session has read, or its version. */
  lemma ValuesStay<H>(wk: Worker, kv: Store, commits: nat, step: Step<H>)
    requires !step.ReadValue? && !step.Begin?
    ensures var wk' := WorkerStep(wk, kv, commits, step);
            wk'.session.version.None? ||
            (wk'.session.values == wk.session.values && wk'.startedAt == wk.startedAt && wk'.session.version == wk.session.version)
    ensures !step.Abandon? ==> WorkerStep(wk, kv, commits, step).session.values == wk.session.values
  {
    hide RemoteIndex, MessageAt;
  }

  lemma SameView(kv: Store, commits: nat, wk: Worker, wk': Worker)
    requires ViewOk(kv, commits, wk)
    requires wk'.session.version.None? || (wk'.session.values == wk.session.values && wk'.startedAt == wk.startedAt
                                           && wk'.session.version == wk.session.version)
    ensures ViewOk(kv, commits, wk')
  {
  }

  lemma OwnStepKeepsViews<H>(handler: Handler<H>, c: Config<H>, step: Step<H>)
    requires ViewsOk(c) && OwnStep(step)
    ensures ViewsOk(Apply(handler, c, step))
  {
    hide Apply, ViewOk, WorkerStep, CommitCount;
    var c' := Apply(handler, c, step);
    OwnStepEffect(handler, c, step);
    OneViewOk(c, step.w);
    WorkerStepKeepsView(c.chain.kv, CommitCount(c.events), c.WorkerAt(step.w), step);
    forall v ensures ViewOk(c'.chain.kv, CommitCount(c'.events), c'.WorkerAt(v)) {
      OneViewOk(c, v);
    }
  }

  lemma CallKeepsViews<H>(handler: Handler<H>, c: Config<H>, app: H, messages: seq<Bytes>)
    requires ViewsOk(c) && PolledBy(c.events) <= PushedBy(c.events)
    requires Apply(handler, c, CallContract(app, messages)) != c
    ensures ViewsOk(Apply(handler, c, CallContract(app, messages)))
  {
    hide Apply, PushAll, CommitCount, PolledBy, PushedBy, QueueAfter, IsQueueKey, Get;
    var c' := Apply(handler, c, CallContract(app, messages));
    CallEffect(handler, c, app, messages);
    HistoryOnCall(c.events, app, messages);
    PushAllOutsideQueue(c.chain.kv, messages);
    forall v ensures ViewOk(c'.chain.kv, CommitCount(c'.events), c'.WorkerAt(v)) {
      OneViewOk(c, v);
    }
  }

  /** A commit overtakes every session that runs. */
  lemma CommitKeepsViews<H>(handler: Handler<H>, start: Chain<H>, c: Config<H>, w: WorkerId, attestor: Address)
    requires Inv(handler, start, c) && CommitCount(c.events) < U32_LIMIT
    requires Apply(handler, c, Commit(w, attestor)) != c
    ensures ViewsOk(Apply(handler, c, Commit(w, attestor)))
  {
    hide Inv, Apply, StoreOk, AtomicRun, AtomicSession, FoldReplies, QueueAfter, PushedBy, PolledBy, PollsArePrefix,
         MatchesTrace, CommitCount;
    InvParts(handler, start, c);
    CommitApplies(handler, start, c, w, attestor);
    HistoryOnCommit(c.events, attestor, c.WorkerAt(w).trace, c.WorkerAt(w).session.actions);
    var c' := Apply(handler, c, Commit(w, attestor));
    forall v ensures ViewOk(c'.chain.kv, CommitCount(c'.events), c'.WorkerAt(v)) {
      OneWorkerOk(QueueAfter(c.events), CommitCount(c.events), c, v);
    }
  }

  lemma AccountsKeepViews<H>(handler: Handler<H>, c: Config<H>, roles: Roles, nonces: Nonces)
    requires ViewsOk(c) && PolledBy(c.events) <= PushedBy(c.events)
    ensures ViewsOk(Apply(handler, c, ChangeAccounts(roles, nonces)))
  {
    hide ViewOk, CommitCount, PolledBy, PushedBy, QueueAfter;
    var c' := Apply(handler, c, ChangeAccounts(roles, nonces));
    HistoryOnAccounts(c.events, roles, nonces);
    forall v ensures ViewOk(c'.chain.kv, CommitCount(c'.events), c'.WorkerAt(v)) {
      OneViewOk(c, v);
    }
  }

  lemma ApplyKeepsViews<H>(handler: Handler<H>, start: Chain<H>, c: Config<H>, step: Step<H>)
    requires Inv(handler, start, c) && ViewsOk(c) && CommitCount(c.events) < U32_LIMIT
    ensures ViewsOk(Apply(handler, c, step))
  {
    hide Inv, Apply, ViewsOk, WorkersOk, StoreOk, AtomicRun, QueueAfter, PushedBy, PolledBy, StartsInOrder, CommitCount;
    InvParts(handler, start, c);
    if Apply(handler, c, step) != c {
      match step
      case Commit(w, attestor) => CommitKeepsViews(handler, start, c, w, attestor);
      case CallContract(app, messages) => CallKeepsViews(handler, c, app, messages);
      case ChangeAccounts(roles, nonces) => AccountsKeepViews(handler, c, roles, nonces);
      case _ => OwnStepKeepsViews(handler, c, step);
    }
  }

  lemma {:induction false} ViewsOnSchedules<H>(
      handler: Handler<H>, roles: Roles, nonces: Nonces, app: H, steps: seq<Step<H>>)
    requires AllAllowed(steps)
    requires CommitCount(Exec(handler, Initial(roles, nonces, app), steps).events) < U32_LIMIT
    ensures ViewsOk(Exec(handler, Initial(roles, nonces, app), steps))
  {
    hide Inv, Apply;
    if steps != [] {
      var n := |steps| - 1;
      var mid := Exec(handler, Initial(roles, nonces, app), steps[..n]);
      CommitsGrow(handler, mid, steps[n]);
      ViewsOnSchedules(handler, roles, nonces, app, steps[..n]);
      InvOnSchedules(handler, roles, nonces, app, steps[..n]);
      ApplyKeepsViews(handler, Initial(roles, nonces, app).chain, mid, steps[n]);
    }
  }

  // ---------- the version decides ----------

  /** The version a session read is the one stored: it can ask for it again and compare. */
  predicate VersionHolds(kv: Store, s: SessionState) {
    VERSION_KEY in s.values.entries && Get(kv, VERSION_KEY) == s.values.entries[VERSION_KEY]
  }

  /** What the session read of the queue's own keys as plain values, if anything, still stands. */
  ghost predicate QueueReadsHold(kv: Store, s: SessionState) {
    forall k | k in s.values.entries && IsQueueKey(k) :: Get(kv, k) == s.values.entries[k]
  }

  lemma {:induction false} ReplayedReadsAreCurrent(kv: Store, trace: seq<Op>)
    requires AtomicOps(kv, trace).Some?
    ensures ReadsCurrent(kv, trace)
  {
    if trace != [] {
      var front, last := trace[..|trace| - 1], trace[|trace| - 1];
      ReplayedReadsAreCurrent(kv, front);
      if last.Read? {
        AtomicOpsWrite(kv, front);
      }
    }
  }

  /** The stored version is the session's exactly when no session has committed since it started. */
  lemma VersionHoldsExactlyWhenNotOvertaken(kv: Store, q: Queue, commits: nat, wk: Worker)
    requires StoreOk(kv, q, commits) && commits < U32_LIMIT && WorkerOk(q, commits, wk) && wk.session.version.Some?
    ensures VersionHolds(kv, wk.session) <==> wk.startedAt == commits
  {
    hide Represents, MatchesTrace, PollsArePrefix;
    if VersionHolds(kv, wk.session) {
      VersionValueInjective(wk.startedAt, commits);
    }
  }

  /** All values a session read are current exactly when its version holds, and what it read of the queue. */
  lemma CurrentExactlyWhenVersionHolds<H>(handler: Handler<H>, start: Chain<H>, c: Config<H>, w: WorkerId)
    requires Inv(handler, start, c) && ViewsOk(c) && CommitCount(c.events) < U32_LIMIT
    requires c.WorkerAt(w).session.version.Some?
    ensures var wk := c.WorkerAt(w);
            ReadsCurrent(c.chain.kv, wk.trace) <==>
            VersionHolds(c.chain.kv, wk.session) && QueueReadsHold(c.chain.kv, wk.session)
    ensures VersionHolds(c.chain.kv, c.WorkerAt(w).session) ==>
              Polls(c.WorkerAt(w).trace) <= QueueAfter(c.events).items
  {
    var wk, q, n := c.WorkerAt(w), QueueAfter(c.events), CommitCount(c.events);
    InvParts(handler, start, c);
    OneWorkerOk(q, n, c, w);
    OneViewOk(c, w);
    VersionHoldsExactlyWhenNotOvertaken(c.chain.kv, q, n, wk);
    hide Inv, ViewsOk, WorkersOk, StoreOk, AtomicRun, QueueAfter, PushedBy, PolledBy, StartsInOrder, CommitCount,
         ReadsOf, UpdatesOf, CacheOk, IsQueueKey, Polls;
  }

  /**
    The session's empty polls are true of the present queue: it polled no message after one, and
    the stored tail, which it can ask for again, is the index it has come to.
   */
  ghost predicate EmptyPollsHold(kv: Store, wk: Worker) {
    Empty in wk.trace ==>
      && NoMessageAfterEmpty(wk.trace)
      && wk.session.currentIndex.Some?
      && ReadIndex(kv, TAIL_KEY) == Ok(wk.session.currentIndex.value)
  }

  lemma EmptyPollsHoldExactlyWhen(kv: Store, q: Queue, wk: Worker)
    requires Represents(kv, q) && PollsArePrefix(q, wk)
    ensures EmptyPollsHold(kv, wk) <==> EmptiesTrue(q, wk.trace)
  {
    hide EmptiesTrue, Polls, NoMessageAfterEmpty, ReadIndex;
    EmptiesTrueExactlyWhen(q, wk.trace);
  }

  lemma ReplayedReads(kv: Store, trace: seq<Op>)
    requires AtomicOps(kv, WithoutEmpty(trace)).Some?
    ensures ReadsCurrent(kv, trace)
  {
    hide AtomicOps, ReadsOf;
    EmptyAddsNothing(trace);
    ReplayedReadsAreCurrent(kv, WithoutEmpty(trace));
  }

  /** What a session read and the messages it polled fit the present store exactly when its version holds. */
  lemma ReplaysExactlyWhenVersionHolds<H>(handler: Handler<H>, start: Chain<H>, c: Config<H>, w: WorkerId)
    requires Inv(handler, start, c) && ViewsOk(c) && CommitCount(c.events) < U32_LIMIT
    requires c.WorkerAt(w).session.version.Some?
    ensures var wk := c.WorkerAt(w);
            AtomicOps(c.chain.kv, WithoutEmpty(wk.trace)).Some? <==>
            VersionHolds(c.chain.kv, wk.session) && QueueReadsHold(c.chain.kv, wk.session)
  {
    InvParts(handler, start, c);
    OneWorkerOk(QueueAfter(c.events), CommitCount(c.events), c, w);
    CurrentExactlyWhenVersionHolds(handler, start, c, w);
    hide Inv, ViewsOk, WorkersOk, AtomicRun, QueueAfter, PushedBy, PolledBy, StartsInOrder, CommitCount, AtomicOps,
         ReadsCurrent, CacheOk, Polls, VersionHolds, QueueReadsHold, Represents, PollsArePrefix, UpdatesOf, ReadsOf,
         WithoutEmpty;
    var wk := c.WorkerAt(w);
    if AtomicOps(c.chain.kv, WithoutEmpty(wk.trace)).Some? {
      ReplayedReads(c.chain.kv, wk.trace);
    }
    if ReadsCurrent(c.chain.kv, wk.trace) {
      TraceReplays(c.chain.kv, QueueAfter(c.events), wk.trace);
    }
  }

  /**
    A session has the whole view it would have had running alone on the present store exactly when
    its version still holds, no message has come since a poll of its found none, and, if it read
    keys of the queue as plain values, those stand as well.
   */
  lemma SeesThePresentExactlyWhenVersionHolds<H>(
      handler: Handler<H>, roles: Roles, nonces: Nonces, app: H, steps: seq<Step<H>>, c: Config<H>, w: WorkerId)
    requires Reaches(handler, roles, nonces, app, steps, c)
    requires c.WorkerAt(w).session.version.Some?
    ensures var wk := c.WorkerAt(w);
            AtomicOps(c.chain.kv, wk.trace).Some? <==>
              && VersionHolds(c.chain.kv, wk.session)
              && QueueReadsHold(c.chain.kv, wk.session)
              && EmptyPollsHold(c.chain.kv, wk)
  {
    var start := Initial(roles, nonces, app).chain;
    var q, n, wk := QueueAfter(c.events), CommitCount(c.events), c.WorkerAt(w);
    ReachedKeepsInv(handler, roles, nonces, app, steps, c);
    ViewsOnSchedules(handler, roles, nonces, app, steps);
    InvParts(handler, start, c);
    OneWorkerOk(q, n, c, w);
    ReplaysExactlyWhenVersionHolds(handler, start, c, w);
    VersionHoldsExactlyWhenNotOvertaken(c.chain.kv, q, n, wk);
    ReplayWithEmpties(c.chain.kv, q, wk.trace);
    hide Inv, Exec, Reaches, Represents, AtomicOps, EmptiesTrue, EmptyPollsHold, VersionHolds, QueueReadsHold, WithoutEmpty,
         QueueAfter, CommitCount, PollsArePrefix, MatchesTrace;
    if VersionHolds(c.chain.kv, wk.session) {
      EmptyPollsHoldExactlyWhen(c.chain.kv, q, wk);
    }
  }

  /**
    A commit is accepted exactly when the session is started and wrote, polled or replied anything,
    the attestor has the role, the session's version holds, and the handler takes its replies: it is
    never refused because of a value it read, unless it read a key of the queue. So of any sessions
    started at one version the first with anything to commit gets through.
   */
  lemma CommitAcceptedExactlyWhenVersionHolds<H>(
      handler: Handler<H>, roles: Roles, nonces: Nonces, app: H, steps: seq<Step<H>>, c: Config<H>, w: WorkerId, attestor: Address)
    requires Reaches(handler, roles, nonces, app, steps, c)
    ensures var wk := c.WorkerAt(w);
            Apply(handler, c, Commit(w, attestor)) != c <==>
              && wk.session.version.Some? && HasWork(wk.trace, Guarantees.RepliesAdded(steps, w))
              && (attestor, AttestorRole) in c.chain.roles
              && VersionHolds(c.chain.kv, wk.session) && QueueReadsHold(c.chain.kv, wk.session)
              && FoldReplies(handler, c.chain.app, Guarantees.RepliesAdded(steps, w)).Ok?
  {
    var start := Initial(roles, nonces, app).chain;
    ReachedKeepsInv(handler, roles, nonces, app, steps, c);
    ViewsOnSchedules(handler, roles, nonces, app, steps);
    hide Inv, ViewsOk, Apply, ReadsCurrent, VersionHolds, QueueReadsHold, FoldReplies, Exec, HasWork, Reaches;
    if c.WorkerAt(w).session.version.Some? {
      CurrentExactlyWhenVersionHolds(handler, start, c, w);
    }
    Guarantees.CommitAcceptedExactlyWhen(handler, roles, nonces, app, steps, c, w, attestor);
  }

  // ---------- which states a session can have seen ----------

  /** The trace is what its session would have seen running alone on the contract after the first k events. */
  ghost predicate FitsAt<H>(handler: Handler<H>, start: Chain<H>, events: seq<Event<H>>, k: nat, trace: seq<Op>) {
    && k <= |events|
    && AtomicRun(handler, start, events[..k]).Some?
    && AtomicOps(AtomicRun(handler, start, events[..k]).value.kv, trace).Some?
  }

  lemma AtMostOneEvent<H>(handler: Handler<H>, c: Config<H>, step: Step<H>)
    ensures var c' := Apply(handler, c, step);
            c'.events == c.events || (c'.events != [] && c'.events[..|c'.events| - 1] == c.events)
  {
    hide Rollup, PushAll, CommitParams, WorkerStep;
  }

  /** A run has been in the state after each prefix of its events. */
  lemma {:induction false} PrefixReached<H>(
      handler: Handler<H>, roles: Roles, nonces: Nonces, app: H, steps: seq<Step<H>>, c: Config<H>, k: nat)
    returns (j: nat, mid: Config<H>)
    requires Reaches(handler, roles, nonces, app, steps, c) && k <= |c.events|
    ensures j <= |steps| && Reaches(handler, roles, nonces, app, steps[..j], mid) && mid.events == c.events[..k]
  {
    hide Apply, CommitCount;
    if k == |c.events| {
      j, mid := |steps|, c;
      assert steps[..j] == steps && c.events[..k] == c.events;
    } else {
      var n := |steps| - 1;
      var before := Exec(handler, Initial(roles, nonces, app), steps[..n]);
      AtMostOneEvent(handler, before, steps[n]);
      CommitsGrow(handler, before, steps[n]);
      j, mid := PrefixReached(handler, roles, nonces, app, steps[..n], before, k);
      assert steps[..n][..j] == steps[..j];
      assert before.events[..k] == c.events[..k];
    }
  }

  /** The plain map written by the first n committed sessions. */
  function PlainAfter<H>(events: seq<Event<H>>, n: nat): Store {
    if CommitCount(events) <= n then PlainStore(events) else PlainAfter(events[..|events| - 1], n)
  }

  lemma {:induction false} PlainAtCount<H>(events: seq<Event<H>>, k: nat)
    requires k <= |events|
    ensures PlainStore(events[..k]) == PlainAfter(events, CommitCount(events[..k]))
    ensures CommitCount(events[..k]) <= CommitCount(events)
  {
    if k == |events| {
      assert events[..k] == events;
    } else {
      var n := |events| - 1;
      PlainAtCount(events[..n], k);
      assert events[..n][..k] == events[..k];
    }
  }

  /** Each value read of the application's keys is what the sessions committed before this one started had left. */
  ghost predicate ReadAtStart<H>(events: seq<Event<H>>, wk: Worker) {
    forall key | key in ReadsOf(wk.trace) && UserKey(key) ::
      ReadsOf(wk.trace)[key] == Get(PlainAfter(events, wk.startedAt), key)
  }

  /** What the session saw of the queue: keys read as plain values, messages polled, and polls that found none. */
  ghost predicate QueueViewFits(kv: Store, q: Queue, trace: seq<Op>) {
    && (forall key | key in ReadsOf(trace) && IsQueueKey(key) :: Get(kv, key) == ReadsOf(trace)[key])
    && Polls(trace) <= q.items
    && EmptiesTrue(q, trace)
  }

  /** It fits the queue at one moment while the session's version held. */
  ghost predicate QueueViewAt<H>(handler: Handler<H>, start: Chain<H>, events: seq<Event<H>>, k: nat, wk: Worker) {
    && k <= |events| && CommitCount(events[..k]) == wk.startedAt
    && AtomicRun(handler, start, events[..k]).Some?
    && QueueViewFits(AtomicRun(handler, start, events[..k]).value.kv, QueueAfter(events[..k]), wk.trace)
  }

  lemma {:induction false} ReplayedPollsArePrefix(kv: Store, q: Queue, trace: seq<Op>)
    requires Represents(kv, q) && AtomicOps(kv, trace).Some?
    ensures Polls(trace) <= q.items
  {
    if trace != [] {
      var front := trace[..|trace| - 1];
      hide Represents;
      ReplayedPollsArePrefix(kv, q, front);
      AtomicCount(kv, front);
      OneMorePolled(kv, q, AtomicOps(kv, front).value, Polls(front), trace[|trace| - 1]);
    }
  }

  lemma OneMorePolled(kv: Store, q: Queue, local: Local, polls: seq<Bytes>, op: Op)
    requires Represents(kv, q) && polls <= q.items && local.polled == |polls| && AtomicOp(kv, local, op).Some?
    ensures op.Poll? ==> polls + [op.message] <= q.items
  {
    hide Set, MessageKey;
    if op.Poll? {
      assert Get(kv, MessageKey(q.head + |polls|)) == Some(q.items[|polls|]);
    }
  }

  /** A trace fits a store exactly when its reads are current there and it fits the queue. */
  lemma FitsExactlyWhen(kv: Store, q: Queue, trace: seq<Op>)
    requires Represents(kv, q) && CacheOk(trace)
    ensures AtomicOps(kv, trace).Some? <==> ReadsCurrent(kv, trace) && Polls(trace) <= q.items && EmptiesTrue(q, trace)
  {
    ReplayWithEmpties(kv, q, trace);
    hide Represents, CacheOk, AtomicOps, EmptiesTrue, ReadsCurrent, Polls, WithoutEmpty;
    if AtomicOps(kv, WithoutEmpty(trace)).Some? {
      ReplayedReads(kv, trace);
      ReplayedPollsArePrefix(kv, q, WithoutEmpty(trace));
      EmptyAddsNothing(trace);
    }
    if ReadsCurrent(kv, trace) && Polls(trace) <= q.items {
      TraceReplays(kv, q, trace);
    }
  }

  /** At one state of the run: the reads are current there exactly when it has the session's version and its values. */
  lemma CurrentAtState<H>(
      handler: Handler<H>, roles: Roles, nonces: Nonces, app: H, steps: seq<Step<H>>, mid: Config<H>,
      q: Queue, commits: nat, wk: Worker)
    requires Reaches(handler, roles, nonces, app, steps, mid)
    requires WorkerOk(q, commits, wk) && wk.session.version.Some? && commits < U32_LIMIT
    ensures ReadsCurrent(mid.chain.kv, wk.trace) <==>
              && CommitCount(mid.events) == wk.startedAt
              && (forall key | key in ReadsOf(wk.trace) && UserKey(key) ::
                    ReadsOf(wk.trace)[key] == Get(PlainStore(mid.events), key))
              && (forall key | key in ReadsOf(wk.trace) && IsQueueKey(key) ::
                    Get(mid.chain.kv, key) == ReadsOf(wk.trace)[key])
  {
    ReachedKeepsInv(handler, roles, nonces, app, steps, mid);
    UserStoreIsSerial(handler, roles, nonces, app, steps, mid);
    InvParts(handler, Initial(roles, nonces, app).chain, mid);
    hide Inv, Exec, Reaches, Represents, AtomicRun, WorkersOk, QueueAfter, PushedBy, PolledBy, StartsInOrder, CommitCount,
         ReadsOf, UpdatesOf, CacheOk, IsQueueKey, PollsArePrefix, PlainStore, Get, VersionValue;
    assert VERSION_KEY in ReadsOf(wk.trace) && ReadsOf(wk.trace)[VERSION_KEY] == VersionValue(wk.startedAt);
    if ReadsCurrent(mid.chain.kv, wk.trace) {
      VersionValueInjective(wk.startedAt, CommitCount(mid.events));
    }
  }

  /** The state after k events fits a session exactly when its values are those of its start and the queue fits there. */
  lemma FitsAtExactlyWhen<H>(
      handler: Handler<H>, roles: Roles, nonces: Nonces, app: H, steps: seq<Step<H>>, c: Config<H>, w: WorkerId, k: nat)
    requires Reaches(handler, roles, nonces, app, steps, c) && c.WorkerAt(w).session.version.Some?
    ensures var start, wk := Initial(roles, nonces, app).chain, c.WorkerAt(w);
            FitsAt(handler, start, c.events, k, wk.trace) <==>
            ReadAtStart(c.events, wk) && QueueViewAt(handler, start, c.events, k, wk)
  {
    if k <= |c.events| {
      var start, wk := Initial(roles, nonces, app).chain, c.WorkerAt(w);
      var q, n := QueueAfter(c.events), CommitCount(c.events);
      ReachedKeepsInv(handler, roles, nonces, app, steps, c);
      InvParts(handler, start, c);
      OneWorkerOk(q, n, c, w);
      hide Inv, Exec, Reaches, Represents, AtomicRun, AtomicOps, WorkersOk, QueueAfter, PushedBy, PolledBy, StartsInOrder,
           CommitCount, ReadsOf, Polls, PlainAfter, PlainStore, CacheOk, PollsArePrefix, ReadsCurrent, EmptiesTrue, UserKey,
           IsQueueKey;
      var j, mid := PrefixReached(handler, roles, nonces, app, steps, c, k);
      ReachedKeepsInv(handler, roles, nonces, app, steps[..j], mid);
      InvParts(handler, start, mid);
      CurrentAtState(handler, roles, nonces, app, steps[..j], mid, q, n, wk);
      FitsExactlyWhen(mid.chain.kv, QueueAfter(mid.events), wk.trace);
      PlainAtCount(c.events, k);
    }
  }

  /**
    Some state of the run fits all that a session saw exactly when each value it read is the one
    left by the sessions committed before it started, and what it saw of the queue fits one moment
    of that time: reading a later value of one key leaves it no state.
   */
  lemma FitsAStateExactlyWhen<H>(
      handler: Handler<H>, roles: Roles, nonces: Nonces, app: H, steps: seq<Step<H>>, c: Config<H>, w: WorkerId)
    requires Reaches(handler, roles, nonces, app, steps, c) && c.WorkerAt(w).session.version.Some?
    ensures var start, wk := Initial(roles, nonces, app).chain, c.WorkerAt(w);
            (exists k: nat :: FitsAt(handler, start, c.events, k, wk.trace)) <==>
            ReadAtStart(c.events, wk) && exists k: nat :: QueueViewAt(handler, start, c.events, k, wk)
  {
    var start, wk := Initial(roles, nonces, app).chain, c.WorkerAt(w);
    hide FitsAt, ReadAtStart, QueueViewAt, Reaches;
    forall k: nat
      ensures FitsAt(handler, start, c.events, k, wk.trace) <==>
              ReadAtStart(c.events, wk) && QueueViewAt(handler, start, c.events, k, wk)
    {
      FitsAtExactlyWhen(handler, roles, nonces, app, steps, c, w, k);
    }
  }

  /**
    A session that after its last read finds its version and, if it polled in vain, its index at
    the tail has seen a state of the contract: that moment's, whatever happens later.
   */
  lemma CheckedViewIsAState<H>(
      handler: Handler<H>, roles: Roles, nonces: Nonces, app: H,
      steps: seq<Step<H>>, c: Config<H>, more: seq<Step<H>>, later: Config<H>, w: WorkerId)
    requires Reaches(handler, roles, nonces, app, steps, c) && Guarantees.Continues(handler, c, more, later)
    requires c.WorkerAt(w).session.version.Some?
    requires VersionHolds(c.chain.kv, c.WorkerAt(w).session) && QueueReadsHold(c.chain.kv, c.WorkerAt(w).session)
    requires EmptyPollsHold(c.chain.kv, c.WorkerAt(w))
    ensures FitsAt(handler, Initial(roles, nonces, app).chain, later.events, |c.events|, c.WorkerAt(w).trace)
  {
    SeesThePresentExactlyWhenVersionHolds(handler, roles, nonces, app, steps, c, w);
    Guarantees.StrictSerializability(handler, roles, nonces, app, steps, c);
    hide Reaches, AtomicRun, AtomicOps, CommitCount, VersionHolds, QueueReadsHold, EmptyPollsHold;
    EventsGrow(handler, c, more);
    assert later.events[..|c.events|] == c.events;
  }

  lemma {:induction false} EventsGrow<H>(handler: Handler<H>, c: Config<H>, more: seq<Step<H>>)
    ensures c.events <= Exec(handler, c, more).events
  {
    hide Apply;
    if more != [] {
      EventsGrow(handler, c, more[..|more| - 1]);
      CommitsGrow(handler, Exec(handler, c, more[..|more| - 1]), more[|more| - 1]);
    }
  }
}
