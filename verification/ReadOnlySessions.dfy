/**
  Where the promise of one consistent view ends: a session with nothing to commit is never
  checked against the contract, and may have read values that never stood together.
 */
module ReadOnlySessions {
  import opened Wrappers
  import opened KvStore
  import opened AccessControl
  import opened MessageQueue
  import opened RollupClient
  import opened Session
  import opened SessionCache
  import opened Protocol
  import opened Serializability
  import Guarantees
  import Interleavings
  import Snapshots

  // ---------- a session that saw no state at all ----------

  const KEY_A: Key := [1]
  const KEY_B: Key := [2]
  const WRITTEN: Option<Value> := Some([])

  /** Worker 0 reads one key before, and another after, worker 1 commits writes to both. */
  function TornSchedule<H>(attestor: Address): seq<Step<H>> {
    [Begin(0), ReadValue(0, KEY_A), Begin(1), WriteValue(1, KEY_A, WRITTEN), WriteValue(1, KEY_B, WRITTEN)]
      + [Commit(1, attestor), ReadValue(0, KEY_B)]
  }

  const READER_SESSION: SessionState := StartSession(map[]).0.(values := StartSession(map[]).0.values.Put(KEY_A, None))

  const READER: Worker :=
    Worker(READER_SESSION, Idle, [Read(VERSION_KEY, None), Read(KEY_A, None)], 0)

  const WRITER: Worker :=
    Worker(SetValue(SetValue(StartSession(map[]).0, KEY_A, WRITTEN), KEY_B, WRITTEN), Idle,
           [Read(VERSION_KEY, None), Write(KEY_A, WRITTEN), Write(KEY_B, WRITTEN)], 0)

  lemma Snoc<H>(handler: Handler<H>, c: Config<H>, steps: seq<Step<H>>, step: Step<H>)
    ensures Exec(handler, c, steps + [step]) == Apply(handler, Exec(handler, c, steps), step)
  {
    hide Apply;
    assert (steps + [step])[..|steps|] == steps;
  }

  lemma ReaderSteps<H>(handler: Handler<H>, c: Config<H>)
    requires c.chain.kv == map[] && c.events == []
    ensures var c' := Apply(handler, Apply(handler, c, Begin(0)), ReadValue(0, KEY_A));
            c'.chain == c.chain && c'.events == [] && c'.WorkerAt(0) == READER
  {
  }

  lemma WriterSteps<H>(handler: Handler<H>, c: Config<H>)
    requires c.chain.kv == map[] && c.events == []
    ensures var begun := Apply(handler, c, Begin(1));
            var c' := Apply(handler, Apply(handler, begun, WriteValue(1, KEY_A, WRITTEN)), WriteValue(1, KEY_B, WRITTEN));
            && c'.chain == c.chain && c'.events == [] && c'.WorkerAt(1) == WRITER
            && c'.WorkerAt(0) == c.WorkerAt(0)
  {
    hide StartSession, CommitParams, Rollup, PushAll, SetValue;
    var begun := Apply(handler, c, Begin(1));
    WriteStep(handler, begun, KEY_A);
    WriteStep(handler, Apply(handler, begun, WriteValue(1, KEY_A, WRITTEN)), KEY_B);
  }

  lemma WriteStep<H>(handler: Handler<H>, c: Config<H>, key: Key)
    ensures var c' := Apply(handler, c, WriteValue(1, key, WRITTEN));
            var wk := c.WorkerAt(1);
            && c'.chain == c.chain && c'.events == c.events
            && c'.WorkerAt(1) == wk.(session := SetValue(wk.session, key, WRITTEN), trace := wk.trace + [Write(key, WRITTEN)])
            && c'.WorkerAt(0) == c.WorkerAt(0)
  {
  }

  /** Before the commit: the contract is as deployed, the reader has read, the writer has buffered. */
  lemma BeforeTheCommit<H>(handler: Handler<H>, roles: Roles, nonces: Nonces, app: H)
    ensures var steps: seq<Step<H>> :=
              [Begin(0), ReadValue(0, KEY_A), Begin(1), WriteValue(1, KEY_A, WRITTEN), WriteValue(1, KEY_B, WRITTEN)];
            var c := Exec(handler, Initial(roles, nonces, app), steps);
            && c.chain == Initial(roles, nonces, app).chain && c.events == []
            && c.WorkerAt(0) == READER && c.WorkerAt(1) == WRITER
  {
    hide Apply, READER, WRITER;
    var c0 := Initial(roles, nonces, app);
    ReaderSteps(handler, c0);
    WriterSteps(handler, Apply(handler, Apply(handler, c0, Begin(0)), ReadValue(0, KEY_A)));
    var one: seq<Step<H>> := [Begin(0)];
    var two := one + [ReadValue(0, KEY_A)];
    var three := two + [Begin(1)];
    var four := three + [WriteValue(1, KEY_A, WRITTEN)];
    var none: seq<Step<H>> := [];
    assert none + one == one;
    Snoc(handler, c0, none, Begin(0));
    Snoc(handler, c0, one, ReadValue(0, KEY_A));
    Snoc(handler, c0, two, Begin(1));
    Snoc(handler, c0, three, WriteValue(1, KEY_A, WRITTEN));
    Snoc(handler, c0, four, WriteValue(1, KEY_B, WRITTEN));
    assert four + [WriteValue(1, KEY_B, WRITTEN)] ==
           [Begin(0), ReadValue(0, KEY_A), Begin(1), WriteValue(1, KEY_A, WRITTEN), WriteValue(1, KEY_B, WRITTEN)];
  }

  lemma OneMoreOp(trace: seq<Op>, op: Op)
    ensures UpdatesOf(trace + [op]) == if op.Write? then UpdatesOf(trace)[op.key := op.value] else UpdatesOf(trace)
    ensures ReadsOf(trace + [op]) ==
            if op.Read? && op.key !in UpdatesOf(trace) && op.key !in ReadsOf(trace)
            then ReadsOf(trace)[op.key := op.result] else ReadsOf(trace)
  {
    assert (trace + [op])[..|trace|] == trace;
  }

  lemma WriterTrace()
    ensures ReadsOf(WRITER.trace) == map[VERSION_KEY := None]
    ensures UpdatesOf(WRITER.trace) == map[KEY_A := WRITTEN, KEY_B := WRITTEN]
  {
    var one := [Read(VERSION_KEY, None)];
    var two := one + [Write(KEY_A, WRITTEN)];
    assert [] + one == one && two + [Write(KEY_B, WRITTEN)] == WRITER.trace;
    OneMoreOp([], Read(VERSION_KEY, None));
    OneMoreOp(one, Write(KEY_A, WRITTEN));
    OneMoreOp(two, Write(KEY_B, WRITTEN));
  }

  lemma TornTrace()
    ensures var seen := ReadsOf(READER.trace + [Read(KEY_B, WRITTEN)]);
            KEY_A in seen && seen[KEY_A] == None && KEY_B in seen && seen[KEY_B] == WRITTEN
  {
    var one := [Read(VERSION_KEY, None)];
    assert [] + one == one && one + [Read(KEY_A, None)] == READER.trace;
    OneMoreOp([], Read(VERSION_KEY, None));
    OneMoreOp(one, Read(KEY_A, None));
    OneMoreOp(READER.trace, Read(KEY_B, WRITTEN));
    assert VERSION_KEY != KEY_A && VERSION_KEY != KEY_B && KEY_A != KEY_B;
  }

  /** The writer's commit is accepted and writes both keys. */
  lemma TheCommit<H>(handler: Handler<H>, start: Chain<H>, c: Config<H>, attestor: Address)
    requires Inv(handler, start, c) && c.events == [] && c.chain.kv == map[]
    requires (attestor, AttestorRole) in c.chain.roles && c.WorkerAt(1) == WRITER
    ensures var c' := Apply(handler, c, Commit(1, attestor));
            && c'.workers == c.workers && |c'.events| == 1
            && Get(c'.chain.kv, KEY_A) == WRITTEN && Get(c'.chain.kv, KEY_B) == WRITTEN
  {
    hide Apply, Inv, ReadsCurrent, WorkerOk, StoreOk, PollsArePrefix, QueueAfter, FoldReplies, Polls, AtomicSession;
    NoReplies(handler, c.chain.app);
    WriterReadsCurrent();
    Guarantees.AcceptedExactlyWhen(handler, start, c, 1, attestor);
    CommitApplies(handler, start, c, 1, attestor);
    WriterWrites(handler, c.chain, attestor);
  }

  /** What the writer's session leaves when run atomically. */
  lemma WriterWrites<H>(handler: Handler<H>, s: Chain<H>, attestor: Address)
    requires AtomicSession(handler, s, attestor, WithoutEmpty(WRITER.trace), []).Some?
    ensures var after := AtomicSession(handler, s, attestor, WithoutEmpty(WRITER.trace), []).value;
            Get(after.kv, KEY_A) == WRITTEN && Get(after.kv, KEY_B) == WRITTEN
  {
    hide AtomicSession, WithoutEmpty, UpdatesOf, WRITER, UserKey, Get;
    WriterTrace();
    EmptyAddsNothing(WRITER.trace);
    TwoUserKeys();
    Interleavings.AtomicSessionOnUserKeys(handler, s, attestor, WithoutEmpty(WRITER.trace), []);
  }

  lemma TwoUserKeys()
    ensures UserKey(KEY_A) && UserKey(KEY_B) && KEY_A != KEY_B
  {
    assert QUEUE_PREFIX[0] != 1 && QUEUE_PREFIX[0] != 2;
  }

  lemma NoReplies<H>(handler: Handler<H>, app: H)
    ensures FoldReplies(handler, app, []) == Ok(app)
  {
  }

  lemma WriterReadsCurrent()
    ensures ReadsCurrent(map[], WRITER.trace)
  {
    WriterTrace();
  }

  /**
    A session that only reads can return values that no state of the contract ever held
    together, and its commit succeeds without sending anything.
   */
  lemma ReadOnlySessionMaySeeNoState<H>(handler: Handler<H>, roles: Roles, nonces: Nonces, app: H, attestor: Address)
    requires (attestor, AttestorRole) in roles
    ensures AllAllowed(TornSchedule<H>(attestor))
    ensures var c := Exec(handler, Initial(roles, nonces, app), TornSchedule(attestor));
            var wk := c.WorkerAt(0);
            && wk.session.version.Some? && CommitParams(wk.session) == Ok(None)
            && forall k: nat | k <= |c.events| ::
                 var s := AtomicRun(handler, Initial(roles, nonces, app).chain, c.events[..k]);
                 s.Some? && AtomicOps(s.value.kv, wk.trace).None?
  {
    hide AtomicRun, AtomicOps, ReadsOf, Inv, Apply, UserKey, CommitParams, AllAllowed, READER, WRITER, KEY_A, KEY_B,
         WorkerStep, AtomicEvent, CommitCount;
    var start := Initial(roles, nonces, app);
    var steps: seq<Step<H>> :=
      [Begin(0), ReadValue(0, KEY_A), Begin(1), WriteValue(1, KEY_A, WRITTEN), WriteValue(1, KEY_B, WRITTEN)];
    var c5 := Exec(handler, start, steps);
    BeforeTheCommit(handler, roles, nonces, app);
    TornAllowed<H>(attestor);
    assert TornSchedule<H>(attestor)[..5] == steps;
    FewCommits(c5.events);
    InvOnSchedules(handler, roles, nonces, app, steps);
    TheCommit(handler, start.chain, c5, attestor);
    var six := steps + [Commit(1, attestor)];
    Snoc(handler, start, steps, Commit(1, attestor));
    Snoc(handler, start, six, ReadValue(0, KEY_B));
    assert six + [ReadValue(0, KEY_B)] == TornSchedule(attestor);
    var c6 := Apply(handler, c5, Commit(1, attestor));
    LateRead(handler, c6);
    var c := Apply(handler, c6, ReadValue(0, KEY_B));
    hide Exec;
    assert c.events[..1] == c.events;
    FewCommits(c.events);
    Guarantees.StrictSerializability(handler, roles, nonces, app, TornSchedule(attestor), c);
    NoStateFits(map[]);
    NoStateFits(c.chain.kv);
    forall k: nat | k <= |c.events|
      ensures var s := AtomicRun(handler, start.chain, c.events[..k]);
              s.Some? && AtomicOps(s.value.kv, c.WorkerAt(0).trace).None?
    {
      if k == 0 {
        NothingRun(handler, start.chain);
      }
    }
  }

  lemma {:induction false} FewCommits<H>(events: seq<Event<H>>)
    ensures CommitCount(events) <= |events|
  {
    if events != [] {
      FewCommits(events[..|events| - 1]);
    }
  }

  lemma NothingRun<H>(handler: Handler<H>, s: Chain<H>)
    ensures AtomicRun(handler, s, []) == Some(s)
  {
  }

  lemma TornAllowed<H>(attestor: Address)
    ensures AllAllowed(TornSchedule<H>(attestor))
    ensures AllAllowed(TornSchedule<H>(attestor)[..5])
  {
    assert QUEUE_PREFIX[0] != 1 && QUEUE_PREFIX[0] != 2;
  }

  /** The reader's late read goes to the store, and leaves it with nothing to commit. */
  lemma LateRead<H>(handler: Handler<H>, c: Config<H>)
    requires c.WorkerAt(0) == READER && Get(c.chain.kv, KEY_B) == WRITTEN
    ensures var c' := Apply(handler, c, ReadValue(0, KEY_B));
            && c'.chain == c.chain && c'.events == c.events
            && c'.WorkerAt(0).trace == READER.trace + [Read(KEY_B, WRITTEN)]
            && c'.WorkerAt(0).session.version.Some?
            && CommitParams(c'.WorkerAt(0).session) == Ok(None)
  {
  }

  lemma NoStateFits(kv: Store)
    requires !(Get(kv, KEY_A) == None && Get(kv, KEY_B) == WRITTEN)
    ensures AtomicOps(kv, READER.trace + [Read(KEY_B, WRITTEN)]).None?
  {
    hide AtomicOps, ReadsOf;
    var t := READER.trace + [Read(KEY_B, WRITTEN)];
    TornTrace();
    if AtomicOps(kv, t).Some? {
      Snapshots.ReplayedReadsAreCurrent(kv, t);
    }
  }
}
