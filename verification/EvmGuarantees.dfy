/** What the protocol promises of every run with the Solidity anchor, carried over by the lockstep. */
module EvmGuarantees {
  import opened Wrappers
  import opened ByteCodec
  import opened KvStore
  import opened AccessControl
  import opened MessageQueue
  import opened RollupClient
  import opened Session
  import opened SessionCache
  import opened Protocol
  import opened Serializability
  import opened EvmSession
  import opened EvmProtocol
  import EvmAnchor
  import EvmQueue
  import Guarantees
  import Interleavings

  /**
    Serializability on the anchor. At every point of every run its history is, but for the form of
    the version, one whose sessions run atomically in commit order, and it holds what they leave.
   */
  lemma AnchorIsSerializable<H>(
      handler: Handler<H>, self: Address, roles: Roles, nonces: Nonces, app: H, steps: seq<Step<H>>, run: seq<EvmConfig<H>>, n: nat)
    requires EvmRun(handler, self, roles, nonces, app, steps, run) && n <= |steps|
    ensures var c, e := Exec(handler, Initial(roles, nonces, app), steps[..n]), run[n];
            && AtomicRun(handler, Initial(roles, nonces, app).chain, c.events) == Some(c.chain)
            && e.events == RecodeEvents(c.events)
            && e.anchor.app == c.chain.app && e.anchor.attestors == AttestorsOf(c.chain.roles)
            && forall k | UserKey(k) :: EvmAnchor.RemoteValue(e.anchor.kv, k) == Get(c.chain.kv, k)
  {
    Lockstep(handler, self, roles, nonces, app, steps, run, n);
    var c, e := Exec(handler, Initial(roles, nonces, app), steps[..n]), run[n];
    Guarantees.StrictSerializability(handler, roles, nonces, app, steps[..n], c);
    hide EvmRun, Reaches, Exec, StoresMatch, AtomicRun, WorkersMatch, AttestorsOf, IsQueueKey, QueueAfter, Get;
    forall k | UserKey(k) ensures EvmAnchor.RemoteValue(e.anchor.kv, k) == Get(c.chain.kv, k) {
      ValuesMatch(c.chain.kv, e.anchor.kv, QueueAfter(c.events), k);
    }
  }

  lemma {:induction false} RecodedUpdatesOf(trace: seq<Op>)
    ensures UpdatesOf(RecodeTrace(trace)) == UpdatesOf(trace)
  {
    if trace != [] {
      var n := |trace| - 1;
      RecodedUpdatesOf(trace[..n]);
      assert RecodeTrace(trace)[..n] == RecodeTrace(trace[..n]);
    }
  }

  lemma {:induction false} RecodedPlainStore<H>(events: seq<Event<H>>)
    ensures Interleavings.PlainStore(RecodeEvents(events)) == Interleavings.PlainStore(events)
  {
    if events != [] {
      var n := |events| - 1;
      RecodedPlainStore(events[..n]);
      assert RecodeEvents(events)[..n] == RecodeEvents(events[..n]);
      if events[n].SessionCommitted? {
        RecodedUpdatesOf(events[n].trace);
      }
    }
  }

  /** The application's keys on the anchor hold what its committed sessions wrote, in commit order. */
  lemma AnchorUserStoreIsSerial<H>(
      handler: Handler<H>, self: Address, roles: Roles, nonces: Nonces, app: H, steps: seq<Step<H>>, run: seq<EvmConfig<H>>, n: nat)
    requires EvmRun(handler, self, roles, nonces, app, steps, run) && n <= |steps|
    ensures forall k | UserKey(k) ::
              EvmAnchor.RemoteValue(run[n].anchor.kv, k) == Get(Interleavings.PlainStore(run[n].events), k)
  {
    var c := Exec(handler, Initial(roles, nonces, app), steps[..n]);
    AnchorIsSerializable(handler, self, roles, nonces, app, steps, run, n);
    Lockstep(handler, self, roles, nonces, app, steps, run, n);
    hide EvmRun, Exec, Reaches, Matches, UserKey, AtomicRun, Interleavings.PlainStore, Get;
    Interleavings.UserStoreIsSerial(handler, roles, nonces, app, steps[..n], c);
    RecodedPlainStore(c.events);
  }

  /**
    Exactly-once delivery in order on the anchor: its queue is what was pushed less what committed
    sessions polled, and each commit polled the messages pushed at the indices after all earlier ones.
   */
  lemma AnchorExactlyOnceFifo<H>(
      handler: Handler<H>, self: Address, roles: Roles, nonces: Nonces, app: H, steps: seq<Step<H>>, run: seq<EvmConfig<H>>, n: nat)
    requires EvmRun(handler, self, roles, nonces, app, steps, run) && n <= |steps|
    ensures var e := run[n];
            var head := |PolledBy(e.events)|;
            && PolledBy(e.events) <= PushedBy(e.events)
            && EvmQueue.Represents(e.anchor.kv, Queue(head, PushedBy(e.events)[head..]))
            && forall k: nat | k < |e.events| && e.events[k].SessionCommitted? ::
                 var (lo, hi) := Guarantees.PollRange(e.events, k);
                 lo <= hi <= head && Polls(e.events[k].trace) == PushedBy(e.events)[lo..hi]
  {
    var c, e := Exec(handler, Initial(roles, nonces, app), steps[..n]), run[n];
    Lockstep(handler, self, roles, nonces, app, steps, run, n);
    CommitsMatch(c, e);
    hide EvmRun, Exec, Inv, Reaches, StoreOk, WorkersOk, AtomicRun, WorkersMatch, AttestorsOf, EvmQueue.Represents, Represents,
         PolledBy, PushedBy, Polls, RecodeEvents;
    ReachedKeepsInv(handler, roles, nonces, app, steps[..n], c);
    InvParts(handler, Initial(roles, nonces, app).chain, c);
    forall k: nat | k < |e.events| && e.events[k].SessionCommitted?
      ensures var (lo, hi) := Guarantees.PollRange(e.events, k);
              lo <= hi <= |PolledBy(e.events)| && Polls(e.events[k].trace) == PushedBy(e.events)[lo..hi]
    {
      Guarantees.PolledInRange(e.events, k);
    }
  }

  /** The version on the anchor is the number of committed sessions, each started when the earlier ones had committed. */
  lemma AnchorVersionSafety<H>(
      handler: Handler<H>, self: Address, roles: Roles, nonces: Nonces, app: H, steps: seq<Step<H>>, run: seq<EvmConfig<H>>, n: nat)
    requires EvmRun(handler, self, roles, nonces, app, steps, run) && n <= |steps|
    ensures RemoteNumber(run[n].anchor.kv, VERSION_KEY) == Ok(CommitCount(run[n].events))
    ensures forall k: nat | k < |run[n].events| && run[n].events[k].SessionCommitted? ::
              run[n].events[k].startedAt == CommitCount(run[n].events[..k])
  {
    hide Exec, Inv, Reaches, WorkersOk, AtomicRun, WorkersMatch, AttestorsOf, Represents, StoresMatch, PolledBy, PushedBy,
         QueueAfter, CommitCount;
    var c, e := Exec(handler, Initial(roles, nonces, app), steps[..n]), run[n];
    hide EvmRun;
    Lockstep(handler, self, roles, nonces, app, steps, run, n);
    CommitsMatch(c, e);
    ReachedKeepsInv(handler, roles, nonces, app, steps[..n], c);
    InvParts(handler, Initial(roles, nonces, app).chain, c);
    StoredVersion(c.chain.kv, e.anchor.kv, QueueAfter(c.events), CommitCount(c.events));
    forall k: nat | k < |e.events| && e.events[k].SessionCommitted?
      ensures e.events[k].startedAt == CommitCount(e.events[..k])
    {
      Guarantees.StartOfCommit(c.events, k);
      RecodedHistory(c.events[..k]);
      assert RecodeEvents(c.events)[..k] == RecodeEvents(c.events[..k]);
    }
  }

  lemma StoredVersion(ink: Store, evm: Store, q: Queue, commits: nat)
    requires StoresMatch(ink, evm, q) && StoreOk(ink, q, commits) && commits < U32_LIMIT
    ensures RemoteNumber(evm, VERSION_KEY) == Ok(commits)
  {
    VersionKeyIsNotQueueKey();
    ValuesMatch(ink, evm, q, VERSION_KEY);
    RecodedNumber(commits);
    hide StoresMatch, Represents, EvmAnchor.RemoteValue, EvmAnchor.EncodeUint, EvmAnchor.DecodeUint, RecodeVersion;
  }

  // ---------- an empty message ----------

  /**
    A message pushed empty is not there for a client: its read is a value exactly when the message
    is not empty, so a poll that comes to an empty one ends there, and so will every later one.
   */
  lemma EmptyMessageStalls<H>(evm: Store, q: Queue, wk: Worker, commits: nat, step: Step<H>)
    requires EvmQueue.Represents(evm, q) && step.AskMessage?
    requires wk.phase.HasTail? && wk.session.currentIndex.Some?
    requires q.head <= wk.session.currentIndex.value < wk.phase.tail <= q.Tail()
    ensures var index := wk.session.currentIndex.value;
            var m := q.items[index - q.head];
            var wk' := StepOf(wk, evm, commits, step);
            && (EvmAnchor.RemoteValue(evm, EvmAnchor.MessageKey(index)).Some? <==> m != [])
            && (m == [] ==> wk' == wk.(phase := Idle))
            && (m != [] && step.decodes(m) ==> wk'.session.currentIndex == Some(index + 1) && wk'.trace == wk.trace + [Poll(m)])
  {
    hide EvmAnchor.MessageKey, EvmAnchor.QueueUint;
  }
}
