/**
  The whole system as a state machine: any number of workers run sessions against one
  contract, which meanwhile serves messages of its own. Every remote read of a worker is one
  step, and so is every transaction. A schedule is any sequence of steps.

  events is the history of what changed the contract, in the order in which it changed it.
 */
module Protocol {
  import opened Wrappers
  import opened ByteCodec
  import opened KvStore
  import opened RollupErrors
  import opened AccessControl
  import opened MessageQueue
  import opened RollupClient
  import opened Session
  import opened SessionCache

  type WorkerId = nat

  /** Where a worker is in a poll: the tail it has read, if it has not yet asked for the message. */
  datatype Phase = Idle | HasTail(tail: nat)

  /** startedAt counts the sessions committed before this session read its version. */
  datatype Worker = Worker(session: SessionState, phase: Phase, trace: seq<Op>, startedAt: nat)

  const FRESH_WORKER: Worker := Worker(NEW_SESSION, Idle, [], 0)

  datatype Event<H> =
    | ContractCalled(app: H, messages: seq<Bytes>)
    | AccountsChanged(roles: Roles, nonces: Nonces)
    | SessionCommitted(attestor: Address, startedAt: nat, trace: seq<Op>, replies: seq<Bytes>)

  datatype Config<H> = Config(chain: Chain<H>, workers: map<WorkerId, Worker>, events: seq<Event<H>>) {
    function WorkerAt(w: WorkerId): Worker {
      if w in workers then workers[w] else FRESH_WORKER
    }
  }

  datatype Step<H> =
    | Begin(w: WorkerId)
    | Abandon(w: WorkerId)
    | ReadValue(w: WorkerId, key: Key)
    | WriteValue(w: WorkerId, key: Key, value: Option<Value>)
    | AddReply(w: WorkerId, data: Bytes)
    | AskTail(w: WorkerId)
    | AskHead(w: WorkerId)
    | AskMessage(w: WorkerId, decodes: Bytes -> bool)
    | Commit(w: WorkerId, attestor: Address)
    | CallContract(app: H, messages: seq<Bytes>)
    | ChangeAccounts(roles: Roles, nonces: Nonces)

  /** The keys an application owns: not the version and not the queue's. */
  predicate UserKey(key: Key) {
    key != VERSION_KEY && !IsQueueKey(key)
  }

  /** Applications write their own keys only. */
  predicate Allowed<H>(step: Step<H>) {
    step.WriteValue? ==> UserKey(step.key)
  }

  function PushAll(kv: Store, messages: seq<Bytes>): (Store, Outcome<Error>) {
    if messages == [] then (kv, Pass) else
    match PushAll(kv, messages[..|messages| - 1])
    case (mid, Fail(e)) => (mid, Fail(e))
    case (mid, Pass) =>
      match Push(mid, messages[|messages| - 1])
      case (after, Ok(_)) => (after, Pass)
      case (after, Err(e)) => (after, Fail(e))
  }

  /** How many sessions have committed. */
  function CommitCount<H>(events: seq<Event<H>>): nat {
    if events == [] then 0 else
    CommitCount(events[..|events| - 1]) + if events[|events| - 1].SessionCommitted? then 1 else 0
  }

  /** What one step makes of a worker's own state, given the contract's store. */
  function WorkerStep<H>(wk: Worker, kv: Store, commits: nat, step: Step<H>): Worker {
    match step
    case Begin(_) =>
      Worker(StartSession(kv).0, Idle, [Read(VERSION_KEY, Get(kv, VERSION_KEY))], commits)
    case Abandon(_) => FRESH_WORKER
    case ReadValue(_, key) =>
      var (session, result) := GetValue(wk.session, key, kv);
      wk.(session := session, trace := wk.trace + [Read(key, result)])
    case WriteValue(_, key, value) =>
      wk.(session := SetValue(wk.session, key, value), trace := wk.trace + [Write(key, value)])
    case AddReply(_, data) => wk.(session := AddAction(wk.session, data))
    case AskTail(_) =>
      (match RemoteIndex(kv, TAIL_KEY)
       case Ok(tail) => wk.(phase := HasTail(tail))
       case Err(_) => wk.(phase := Idle))
    case AskHead(_) =>
      if wk.phase.Idle? then wk else
      (match PollHead(wk.session, kv)
       case Ok(session) => wk.(session := session)
       case Err(_) => wk.(phase := Idle))
    case AskMessage(_, decodes) =>
      if wk.phase.Idle? || wk.session.currentIndex.None? then wk else
      (match PollItem(wk.session, wk.phase.tail, kv, decodes)
       case Ok((session, Some(m))) => wk.(session := session, phase := Idle, trace := wk.trace + [Poll(m)])
       case Ok((_, None)) => wk.(phase := Idle, trace := wk.trace + [Empty])
       case Err(_) => wk.(phase := Idle))
    case _ => wk
  }

  /**
    One step of the system. A commit that fails leaves everything as it is; after one that
    succeeds the worker keeps its session until it begins another, so the same session may
    be sent again.
   */
  function Apply<H>(handler: Handler<H>, c: Config<H>, step: Step<H>): Config<H> {
    match step
    case CallContract(app, messages) =>
      (match PushAll(c.chain.kv, messages)
       case (_, Fail(_)) => c
       case (kv, Pass) =>
         c.(chain := c.chain.(kv := kv, app := app), events := c.events + [ContractCalled(app, messages)]))
    case ChangeAccounts(roles, nonces) =>
      c.(chain := c.chain.(roles := roles, nonces := nonces), events := c.events + [AccountsChanged(roles, nonces)])
    case Commit(w, attestor) =>
      var wk := c.WorkerAt(w);
      (match CommitParams(wk.session)
       case Err(_) => c
       case Ok(None) => c
       case Ok(Some(params)) =>
         match Rollup(handler, c.chain, attestor, params)
         case (_, Fail(_)) => c
         case (chain, Pass) =>
           c.(chain := chain,
              events := c.events + [SessionCommitted(attestor, wk.startedAt, wk.trace, wk.session.actions)]))
    case _ =>
      c.(workers := c.workers[step.w := WorkerStep(c.WorkerAt(step.w), c.chain.kv, CommitCount(c.events), step)])
  }

  function Exec<H>(handler: Handler<H>, c: Config<H>, steps: seq<Step<H>>): Config<H> {
    if steps == [] then c else
    Apply(handler, Exec(handler, c, steps[..|steps| - 1]), steps[|steps| - 1])
  }

  /** A freshly deployed contract and no session yet. */
  function Initial<H>(roles: Roles, nonces: Nonces, app: H): Config<H> {
    Config(Chain(map[], roles, nonces, app), map[], [])
  }

  // ---------- the reference: sessions one at a time, each in a single step ----------

  /** A running atomic session: the store with its own writes, and how many messages it took. */
  datatype Local = Local(kv: Store, polled: nat)

  /** One operation run directly against the store; None when its recorded result is not the store's. */
  function AtomicOp(entry: Store, local: Local, op: Op): Option<Local> {
    match op
    case Read(key, result) => if Get(local.kv, key) == result then Some(local) else None
    case Write(key, value) => Some(local.(kv := Set(local.kv, key, value)))
    case Poll(message) =>
      (match (ReadIndex(entry, HEAD_KEY), ReadIndex(entry, TAIL_KEY))
       case (Ok(head), Ok(tail)) =>
         if head + local.polled < tail && Get(entry, MessageKey(head + local.polled)) == Some(message)
         then Some(local.(polled := local.polled + 1)) else None
       case _ => None)
    case Empty =>
      (match (ReadIndex(entry, HEAD_KEY), ReadIndex(entry, TAIL_KEY))
       case (Ok(head), Ok(tail)) => if head + local.polled >= tail then Some(local) else None
       case _ => None)
  }

  function AtomicOps(entry: Store, trace: seq<Op>): Option<Local> {
    if trace == [] then Some(Local(entry, 0)) else
    match AtomicOps(entry, trace[..|trace| - 1])
    case None => None
    case Some(local) => AtomicOp(entry, local, trace[|trace| - 1])
  }

  /** Removing the messages a session took. */
  function AtomicPop(entry: Store, kv: Store, polled: nat): Option<Store> {
    if polled == 0 then Some(kv) else
    match ReadIndex(entry, HEAD_KEY)
    case Err(_) => None
    case Ok(head) =>
      match PopTo(kv, head + polled)
      case (after, Pass) => Some(after)
      case _ => None
  }

  /** A whole session with nothing else in between: its operations, the version, the pops, the replies. */
  function AtomicSession<H>(handler: Handler<H>, s: Chain<H>, attestor: Address, trace: seq<Op>, replies: seq<Bytes>)
    : Option<Chain<H>>
  {
    if (attestor, AttestorRole) !in s.roles then None else
    match (AtomicOps(s.kv, trace), ReadIndex(s.kv, VERSION_KEY), FoldReplies(handler, s.app, replies))
    case (Some(local), Ok(version), Ok(app)) =>
      (match AtomicPop(s.kv, Set(local.kv, VERSION_KEY, Some(EncodeU32(version + 1))), local.polled)
       case Some(kv) => Some(s.(kv := kv, app := app))
       case None => None)
    case _ => None
  }

  /**
    One event of the reference. A poll that found nothing is answered by the tail of its moment,
    which is no condition of the commit; it is left out here and judged by FullRun.
   */
  function AtomicEvent<H>(handler: Handler<H>, s: Chain<H>, event: Event<H>): Option<Chain<H>> {
    match event
    case ContractCalled(app, messages) =>
      (match PushAll(s.kv, messages)
       case (kv, Pass) => Some(s.(kv := kv, app := app))
       case _ => None)
    case AccountsChanged(roles, nonces) => Some(s.(roles := roles, nonces := nonces))
    case SessionCommitted(attestor, _, trace, replies) => AtomicSession(handler, s, attestor, WithoutEmpty(trace), replies)
  }

  function AtomicRun<H>(handler: Handler<H>, s: Chain<H>, events: seq<Event<H>>): Option<Chain<H>> {
    if events == [] then Some(s) else
    match AtomicRun(handler, s, events[..|events| - 1])
    case None => None
    case Some(mid) => AtomicEvent(handler, mid, events[|events| - 1])
  }

  /** The reference that also replays every poll that found nothing. */
  function FullRun<H>(handler: Handler<H>, s: Chain<H>, events: seq<Event<H>>): Option<Chain<H>> {
    if events == [] then Some(s) else
    match FullRun(handler, s, events[..|events| - 1])
    case None => None
    case Some(mid) =>
      match events[|events| - 1]
      case SessionCommitted(attestor, _, trace, replies) => AtomicSession(handler, mid, attestor, trace, replies)
      case other => AtomicEvent(handler, mid, other)
  }

  // ---------- histories ----------

  /** All messages ever pushed, in order. */
  function PushedBy<H>(events: seq<Event<H>>): seq<Bytes> {
    if events == [] then [] else
    var front, last := PushedBy(events[..|events| - 1]), events[|events| - 1];
    if last.ContractCalled? then front + last.messages else front
  }

  /** All messages polled by sessions that committed, in commit order. */
  function PolledBy<H>(events: seq<Event<H>>): seq<Bytes> {
    if events == [] then [] else
    var front, last := PolledBy(events[..|events| - 1]), events[|events| - 1];
    if last.SessionCommitted? then front + Polls(last.trace) else front
  }

  /** The i-th session to commit read its version when exactly i sessions had committed. */
  ghost predicate StartsInOrder<H>(events: seq<Event<H>>) {
    events == [] ||
    var front, last := events[..|events| - 1], events[|events| - 1];
    && StartsInOrder(front)
    && (last.SessionCommitted? ==> last.startedAt == CommitCount(front))
  }
}
