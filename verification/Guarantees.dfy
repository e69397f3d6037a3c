/**
  What the protocol promises of every schedule. The one hypothesis on the run itself is that
  fewer than 2^32 sessions commit, because the version is a u32 that wraps.
 */
module Guarantees {
  import opened Wrappers
  import opened ByteCodec
  import opened KvStore
  import opened AccessControl
  import opened MessageQueue
  import opened RollupClient
  import opened Session
  import opened SessionCache
  import opened Protocol
  import opened Serializability

  // ---------- serializability ----------

  /**
    Strict serializability. The contract is in exactly the state reached by running the
    committed sessions atomically, one at a time in commit order, between the contract's own
    calls; every value a committed session read and every message it polled is what that
    atomic run gives it.
   */
  lemma StrictSerializability<H>(
      handler: Handler<H>, roles: Roles, nonces: Nonces, app: H, steps: seq<Step<H>>, c: Config<H>)
    requires Reaches(handler, roles, nonces, app, steps, c)
    ensures AtomicRun(handler, Initial(roles, nonces, app).chain, c.events) == Some(c.chain)
  {
    ReachedKeepsInv(handler, roles, nonces, app, steps, c);
  }

  /**
    A commit is accepted exactly when the session is started and wrote, polled or replied anything,
    the attestor holds the role, every value the session read from the store is still there, and
    the business logic accepts its replies. Otherwise it changes nothing.
   */
  lemma CommitAcceptedExactlyWhen<H>(
      handler: Handler<H>, roles: Roles, nonces: Nonces, app: H, steps: seq<Step<H>>, c: Config<H>, w: WorkerId, attestor: Address)
    requires Reaches(handler, roles, nonces, app, steps, c)
    ensures var wk := c.WorkerAt(w);
            Apply(handler, c, Commit(w, attestor)) != c <==>
              && wk.session.version.Some? && HasWork(wk.trace, RepliesAdded(steps, w))
              && (attestor, AttestorRole) in c.chain.roles
              && ReadsCurrent(c.chain.kv, wk.trace)
              && FoldReplies(handler, c.chain.app, RepliesAdded(steps, w)).Ok?
  {
    hide Inv, ReadsCurrent, FoldReplies, HasWork, Apply, Exec, AllAllowed, CommitCount;
    ReachedKeepsInv(handler, roles, nonces, app, steps, c);
    SessionHoldsReplies(handler, roles, nonces, app, steps, c, w);
    AcceptedExactlyWhen(handler, Initial(roles, nonces, app).chain, c, w, attestor);
  }

  lemma AcceptedExactlyWhen<H>(handler: Handler<H>, start: Chain<H>, c: Config<H>, w: WorkerId, attestor: Address)
    requires Inv(handler, start, c) && CommitCount(c.events) < U32_LIMIT
    ensures var wk := c.WorkerAt(w);
            Apply(handler, c, Commit(w, attestor)) != c <==>
              && wk.session.version.Some? && HasWork(wk.trace, wk.session.actions)
              && (attestor, AttestorRole) in c.chain.roles
              && ReadsCurrent(c.chain.kv, wk.trace)
              && FoldReplies(handler, c.chain.app, wk.session.actions).Ok?
  {
    hide Apply, RollupInner, FoldReplies, AtomicSession, AtomicRun, StoreOk, ConditionsMet, QueueAfter, PollsArePrefix, ParamsOf,
         HasWork, MatchesTrace, CommitParams;
    var wk, q, n := c.WorkerAt(w), QueueAfter(c.events), CommitCount(c.events);
    assert WorkerOk(q, n, wk);
    if wk.session.version.None? {
      UnstartedSendsNothing(handler, c, w, attestor);
    } else if Apply(handler, c, Commit(w, attestor)) != c {
      CommitSent(handler, c, w, attestor);
      CommitApplies(handler, start, c, w, attestor);
      ConditionsMeanCurrent(c.chain.kv, q, n, wk);
      SendsExactlyWhenWork(q, wk);
    } else if (attestor, AttestorRole) in c.chain.roles && ReadsCurrent(c.chain.kv, wk.trace) {
      CurrentMeansConditions(c.chain.kv, wk);
      CommitIsAtomic(handler, c.chain, q, n, wk, attestor);
      SendsExactlyWhenWork(q, wk);
      if HasWork(wk.trace, wk.session.actions) && FoldReplies(handler, c.chain.app, wk.session.actions).Ok? {
        CommitTaken(handler, c, w, attestor);
      }
    }
  }

  lemma UnstartedSendsNothing<H>(handler: Handler<H>, c: Config<H>, w: WorkerId, attestor: Address)
    requires c.WorkerAt(w).session.version.None?
    ensures Apply(handler, c, Commit(w, attestor)) == c
  {
    hide Rollup;
  }

  lemma CurrentMeansConditions(kv: Store, wk: Worker)
    requires MatchesTrace(wk.session, wk.trace) && ReadsCurrent(kv, wk.trace)
    ensures ConditionsMet(kv, wk.session.values.Pairs())
  {
    ConditionsAreReads(kv, wk.session.values);
  }

  /** What a session that was not overtaken has to send, told by its history. */
  lemma SendsExactlyWhenWork(q: Queue, wk: Worker)
    requires wk.session.version.Some? && MatchesTrace(wk.session, wk.trace) && PollsArePrefix(q, wk)
    ensures CommitParams(wk.session) != Ok(None) <==> HasWork(wk.trace, wk.session.actions)
  {
    hide CommitParams, CacheOk, UpdatesOf, ReadsOf, Polls;
    CommitSendsExactlyWhen(wk.session);
  }

  // ---------- the replies of a session ----------

  /** The replies a worker has added since it last began or dropped a session, in order. */
  function RepliesAdded<H>(steps: seq<Step<H>>, w: WorkerId): seq<Bytes> {
    if steps == [] then [] else
    var front, last := RepliesAdded(steps[..|steps| - 1], w), steps[|steps| - 1];
    if (last.Begin? || last.Abandon?) && last.w == w then []
    else if last.AddReply? && last.w == w then front + [last.data]
    else front
  }

  lemma ReplyStep<H>(handler: Handler<H>, c: Config<H>, step: Step<H>, w: WorkerId)
    ensures Apply(handler, c, step).WorkerAt(w).session.actions ==
            if (step.Begin? || step.Abandon?) && step.w == w then []
            else if step.AddReply? && step.w == w then c.WorkerAt(w).session.actions + [step.data]
            else c.WorkerAt(w).session.actions
  {
    hide Rollup, PushAll, CommitParams, RemoteIndex;
  }

  /** They are what its session will send. */
  lemma {:induction false} SessionHoldsReplies<H>(
      handler: Handler<H>, roles: Roles, nonces: Nonces, app: H, steps: seq<Step<H>>, c: Config<H>, w: WorkerId)
    requires c == Exec(handler, Initial(roles, nonces, app), steps)
    ensures c.WorkerAt(w).session.actions == RepliesAdded(steps, w)
  {
    hide Apply;
    if steps != [] {
      var n := |steps| - 1;
      var mid := Exec(handler, Initial(roles, nonces, app), steps[..n]);
      SessionHoldsReplies(handler, roles, nonces, app, steps[..n], mid, w);
      ReplyStep(handler, mid, steps[n], w);
    }
  }

  // ---------- a poll is its three reads ----------

  /**
    The client's poll is the three steps of the protocol: each answered by the store of its
    own moment, they leave the session the poll leaves and record the message it returns.
   */
  lemma PollIsThreeSteps<H>(
      wk: Worker, atTail: Store, atHead: Store, atItem: Store, decodes: Bytes -> bool, commits: nat, w: WorkerId)
    ensures var one := WorkerStep<H>(wk, atTail, commits, AskTail(w));
            var two := WorkerStep<H>(one, atHead, commits, AskHead(w));
            var three := WorkerStep<H>(two, atItem, commits, AskMessage(w, decodes));
            var (session, message) := PollMessage(wk.session, atTail, atHead, atItem, decodes);
            && three.session == session
            && three.phase == Idle
            && three.trace == wk.trace + (match message case Ok(Some(m)) => [Poll(m)] case Ok(None) => [Empty] case Err(_) => [])
  {
    hide RemoteIndex;
  }

  // ---------- exactly-once, first-in first-out ----------

  lemma {:induction false} PolledGrows<H>(events: seq<Event<H>>, k: nat)
    requires k <= |events|
    ensures PolledBy(events[..k]) <= PolledBy(events)
  {
    if k == |events| {
      assert events[..k] == events;
    } else {
      var n := |events| - 1;
      PolledGrows(events[..n], k);
      assert events[..n][..k] == events[..k];
    }
  }

  /** The index range a committed session polled, from the sessions committed before it. */
  function PollRange<H>(events: seq<Event<H>>, k: nat): (nat, nat)
    requires k < |events|
  {
    (|PolledBy(events[..k])|, |PolledBy(events[..k + 1])|)
  }

  /**
    Exactly-once delivery in order. The queue's head is the number of messages polled by
    committed sessions, and those are the messages pushed first, in push order; the k-th event,
    if a commit, polled precisely the messages pushed at the indices after all earlier commits.
   */
  lemma ExactlyOnceFifo<H>(
      handler: Handler<H>, roles: Roles, nonces: Nonces, app: H, steps: seq<Step<H>>, c: Config<H>)
    requires Reaches(handler, roles, nonces, app, steps, c)
    ensures var head := |PolledBy(c.events)|;
            && head <= |PushedBy(c.events)|
            && PolledBy(c.events) == PushedBy(c.events)[..head]
            && Represents(c.chain.kv, Queue(head, PushedBy(c.events)[head..]))
            && forall k: nat | k < |c.events| && c.events[k].SessionCommitted? ::
                 var (lo, hi) := PollRange(c.events, k);
                 && lo <= hi <= head
                 && Polls(c.events[k].trace) == PushedBy(c.events)[lo..hi]
  {
    ReachedKeepsInv(handler, roles, nonces, app, steps, c);
    hide Exec, Apply, Represents, AtomicRun, WorkerOk, StartsInOrder;
    forall k: nat | k < |c.events| && c.events[k].SessionCommitted?
      ensures var (lo, hi) := PollRange(c.events, k);
              lo <= hi <= |PolledBy(c.events)| && Polls(c.events[k].trace) == PushedBy(c.events)[lo..hi]
    {
      PolledInRange(c.events, k);
    }
  }

  lemma PolledInRange<H>(events: seq<Event<H>>, k: nat)
    requires PolledBy(events) <= PushedBy(events) && k < |events| && events[k].SessionCommitted?
    ensures var (lo, hi) := PollRange(events, k);
            lo <= hi <= |PolledBy(events)| && Polls(events[k].trace) == PushedBy(events)[lo..hi]
  {
    hide Polls, PushedBy;
    PolledGrows(events, k + 1);
    assert events[..k + 1][..k] == events[..k];
    SliceOfPrefix(PolledBy(events[..k]), Polls(events[k].trace), PolledBy(events[..k + 1]), PolledBy(events), PushedBy(events));
  }

  lemma SliceOfPrefix<T>(a: seq<T>, b: seq<T>, ab: seq<T>, polled: seq<T>, pushed: seq<T>)
    requires ab == a + b && ab <= polled <= pushed
    ensures b == pushed[|a|..|ab|]
  {
  }

  /**
    No wasted pop. A commit whose role and conditions hold asks for a head between the current
    head and tail, and is refused only if the business logic refuses one of its replies: never
    for its pop target, whatever was pushed while the session ran.
   */
  lemma NoWastedPop<H>(
      handler: Handler<H>, roles: Roles, nonces: Nonces, app: H, steps: seq<Step<H>>, c: Config<H>, w: WorkerId, attestor: Address)
    requires Reaches(handler, roles, nonces, app, steps, c)
    requires c.WorkerAt(w).session.version.Some?
    requires (attestor, AttestorRole) in c.chain.roles
    requires ConditionsMet(c.chain.kv, c.WorkerAt(w).session.values.Pairs())
    ensures var session := c.WorkerAt(w).session;
            && (forall a | a in HeadMove(session) :: |PolledBy(c.events)| < a.index <= |PushedBy(c.events)|)
            && BumpVersion(session).Ok?
            && RollupInner(handler, c.chain, attestor, ParamsOf(session, BumpVersion(session).value)).1 ==
               match FoldReplies(handler, c.chain.app, session.actions)
               case Ok(_) => Pass
               case Err(e) => Fail(e)
  {
    ReachedKeepsInv(handler, roles, nonces, app, steps, c);
    PopsInRange(handler, Initial(roles, nonces, app).chain, c, w, attestor);
  }

  lemma PopsInRange<H>(handler: Handler<H>, start: Chain<H>, c: Config<H>, w: WorkerId, attestor: Address)
    requires Inv(handler, start, c) && CommitCount(c.events) < U32_LIMIT
    requires c.WorkerAt(w).session.version.Some? && (attestor, AttestorRole) in c.chain.roles
    requires ConditionsMet(c.chain.kv, c.WorkerAt(w).session.values.Pairs())
    ensures var session := c.WorkerAt(w).session;
            && (forall a | a in HeadMove(session) :: |PolledBy(c.events)| < a.index <= |PushedBy(c.events)|)
            && BumpVersion(session).Ok?
            && RollupInner(handler, c.chain, attestor, ParamsOf(session, BumpVersion(session).value)).1 ==
               match FoldReplies(handler, c.chain.app, session.actions)
               case Ok(_) => Pass
               case Err(e) => Fail(e)
  {
    hide RollupInner, FoldReplies, ConditionsMet, Represents, AtomicSession, AtomicRun, ParamsOf, StartsInOrder, MatchesTrace,
         VersionValue, PushedBy, PolledBy;
    assert WorkerOk(QueueAfter(c.events), CommitCount(c.events), c.WorkerAt(w));
    CommitIsAtomic(handler, c.chain, QueueAfter(c.events), CommitCount(c.events), c.WorkerAt(w), attestor);
  }

  // ---------- versions ----------

  lemma {:induction false} StartOfCommit<H>(events: seq<Event<H>>, k: nat)
    requires StartsInOrder(events) && k < |events| && events[k].SessionCommitted?
    ensures events[k].startedAt == CommitCount(events[..k])
  {
    var n := |events| - 1;
    if k < n {
      StartOfCommit(events[..n], k);
      assert events[..n][..k] == events[..k];
    }
  }

  lemma {:induction false} CommitCountGrows<H>(events: seq<Event<H>>, k: nat)
    requires k <= |events|
    ensures CommitCount(events[..k]) <= CommitCount(events)
    ensures k < |events| && events[k].SessionCommitted? ==> CommitCount(events[..k]) < CommitCount(events)
  {
    if k == |events| {
      assert events[..k] == events;
    } else {
      var n := |events| - 1;
      CommitCountGrows(events[..n], k);
      assert events[..n][..k] == events[..k];
    }
  }

  /**
    Version safety. The stored version, absent read as 0, is the number of committed sessions;
    each committed session read its version when exactly the earlier ones had committed, so no
    two sessions that started from the same version both commit.
   */
  lemma VersionSafety<H>(
      handler: Handler<H>, roles: Roles, nonces: Nonces, app: H, steps: seq<Step<H>>, c: Config<H>)
    requires Reaches(handler, roles, nonces, app, steps, c)
    ensures ReadIndex(c.chain.kv, VERSION_KEY) == Ok(CommitCount(c.events))
    ensures forall k: nat | k < |c.events| && c.events[k].SessionCommitted? ::
              c.events[k].startedAt == CommitCount(c.events[..k])
    ensures forall j: nat, k: nat | j < k < |c.events| && c.events[j].SessionCommitted? && c.events[k].SessionCommitted? ::
              c.events[j].startedAt < c.events[k].startedAt
  {
    ReachedKeepsInv(handler, roles, nonces, app, steps, c);
    hide Exec, Represents;
    VersionReadsBack(c.chain.kv, CommitCount(c.events));
    forall k: nat | k < |c.events| && c.events[k].SessionCommitted?
      ensures c.events[k].startedAt == CommitCount(c.events[..k])
    {
      StartOfCommit(c.events, k);
    }
    forall j: nat, k: nat | j < k < |c.events| && c.events[j].SessionCommitted? && c.events[k].SessionCommitted?
      ensures CommitCount(c.events[..j]) < CommitCount(c.events[..k])
    {
      CommitCountGrows(c.events[..k], j);
      assert c.events[..k][..j] == c.events[..j];
    }
  }

  /** Whatever others do, a worker that begins no new session keeps its old one's version. */
  lemma {:induction false} SessionKeepsVersion<H>(handler: Handler<H>, c: Config<H>, more: seq<Step<H>>, w: WorkerId)
    requires c.WorkerAt(w).session.version.Some?
    requires forall i | 0 <= i < |more| :: more[i] != Begin(w) && more[i] != Abandon(w)
    ensures var wk := Exec(handler, c, more).WorkerAt(w);
            wk.session.version == c.WorkerAt(w).session.version && wk.startedAt == c.WorkerAt(w).startedAt
    ensures CommitCount(c.events) <= CommitCount(Exec(handler, c, more).events)
  {
    if more != [] {
      var n := |more| - 1;
      SessionKeepsVersion(handler, c, more[..n], w);
      CommitsGrow(handler, Exec(handler, c, more[..n]), more[n]);
      StepKeepsVersion(handler, Exec(handler, c, more[..n]), more[n], w);
    }
  }

  lemma StepKeepsVersion<H>(handler: Handler<H>, c: Config<H>, step: Step<H>, w: WorkerId)
    requires step != Begin(w) && step != Abandon(w)
    ensures var wk := Apply(handler, c, step).WorkerAt(w);
            wk.session.version == c.WorkerAt(w).session.version && wk.startedAt == c.WorkerAt(w).startedAt
  {
    hide Rollup, PushAll, CommitParams, RemoteIndex;
  }

  lemma {:induction false} ExecAppend<H>(handler: Handler<H>, c: Config<H>, steps: seq<Step<H>>, more: seq<Step<H>>)
    ensures Exec(handler, c, steps + more) == Exec(handler, Exec(handler, c, steps), more)
  {
    hide Apply;
    if more == [] {
      assert steps + more == steps;
    } else {
      var n := |more| - 1;
      ExecAppend(handler, c, steps, more[..n]);
      var all := steps + more;
      assert all[..|all| - 1] == steps + more[..n] && all[|all| - 1] == more[n];
    }
  }

  /** Further steps lead from one configuration to a later one, still with fewer than 2^32 commits. */
  ghost predicate Continues<H>(handler: Handler<H>, c: Config<H>, more: seq<Step<H>>, later: Config<H>) {
    AllAllowed(more) && later == Exec(handler, c, more) && CommitCount(later.events) < U32_LIMIT
  }

  lemma ContinuedReaches<H>(
      handler: Handler<H>, roles: Roles, nonces: Nonces, app: H,
      steps: seq<Step<H>>, c: Config<H>, more: seq<Step<H>>, later: Config<H>)
    requires Reaches(handler, roles, nonces, app, steps, c) && Continues(handler, c, more, later)
    ensures Reaches(handler, roles, nonces, app, steps + more, later)
  {
    hide Exec, CommitCount;
    ExecAppend(handler, Initial(roles, nonces, app), steps, more);
  }

  /**
    A session whose version has been overtaken never commits: after any further steps, however
    often its commit is sent again, the commit changes nothing.
   */
  lemma OvertakenNeverCommits<H>(
      handler: Handler<H>, roles: Roles, nonces: Nonces, app: H,
      steps: seq<Step<H>>, c: Config<H>, more: seq<Step<H>>, later: Config<H>, w: WorkerId, attestor: Address)
    requires Reaches(handler, roles, nonces, app, steps, c) && Continues(handler, c, more, later)
    requires c.WorkerAt(w).session.version.Some? && c.WorkerAt(w).startedAt < CommitCount(c.events)
    requires forall i | 0 <= i < |more| :: more[i] != Begin(w) && more[i] != Abandon(w)
    ensures Apply(handler, later, Commit(w, attestor)) == later
  {
    ContinuedReaches(handler, roles, nonces, app, steps, c, more, later);
    ReachedKeepsInv(handler, roles, nonces, app, steps + more, later);
    SessionKeepsVersion(handler, c, more, w);
    hide Exec, Inv, Apply, Reaches;
    if Apply(handler, later, Commit(w, attestor)) != later {
      CommitApplies(handler, Initial(roles, nonces, app).chain, later, w, attestor);
    }
  }
}
