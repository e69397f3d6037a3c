/**
  The worker's session against the Solidity anchor: the same session, but every index and the
  version are ABI words, and an empty answer is no value.
 */
module EvmSession {
  import opened Wrappers
  import opened ByteCodec
  import opened KvStore
  import opened AccessControl
  import opened Session
  import opened SessionCache
  import opened Protocol
  import MessageQueue
  import Serializability
  import EvmAnchor
  import EvmQueue
  import EvmRefinement

  // ---------- the client's calls ----------

  /** What the client sees of the anchor's store. */
  function View(evm: Store): (r: Store)
    ensures forall k :: Get(r, k) == EvmAnchor.RemoteValue(evm, k)
  {
    map k | k in evm && evm[k] != [] :: evm[k]
  }

  function RemoteNumber(evm: Store, key: Key): Result<nat, Thrown> {
    match EvmAnchor.RemoteValue(evm, key)
    case None => Ok(0)
    case Some(bytes) =>
      match EvmAnchor.DecodeUint(bytes)
      case None => Err(UndecodableNumber)
      case Some(n) => Ok(n)
  }

  function Start(evm: Store): SessionState {
    var (s, value) := GetValue(NEW_SESSION, VERSION_KEY, View(evm));
    match value
    case None => s.(version := Some(None))
    case Some(bytes) =>
      match EvmAnchor.DecodeUint(bytes)
      case None => s
      case Some(n) => s.(version := Some(Some(n)))
  }

  /** What one step makes of a worker's own state, given the anchor's store. */
  function StepOf<H>(wk: Worker, evm: Store, commits: nat, step: Step<H>): Worker {
    match step
    case Begin(_) =>
      Worker(Start(evm), Idle, [Read(VERSION_KEY, EvmAnchor.RemoteValue(evm, VERSION_KEY))], commits)
    case Abandon(_) => FRESH_WORKER
    case ReadValue(_, key) =>
      var (session, result) := GetValue(wk.session, key, View(evm));
      wk.(session := session, trace := wk.trace + [Read(key, result)])
    case WriteValue(_, key, value) =>
      wk.(session := SetValue(wk.session, key, value), trace := wk.trace + [Write(key, value)])
    case AddReply(_, data) => wk.(session := AddAction(wk.session, data))
    case AskTail(_) =>
      (match RemoteNumber(evm, EvmAnchor.TAIL_KEY)
       case Ok(tail) => wk.(phase := HasTail(tail))
       case Err(_) => wk.(phase := Idle))
    case AskHead(_) =>
      if wk.phase.Idle? || wk.session.currentIndex.Some? then wk else
      (match RemoteNumber(evm, EvmAnchor.HEAD_KEY)
       case Ok(head) => wk.(session := wk.session.(currentIndex := Some(head)))
       case Err(_) => wk.(phase := Idle))
    case AskMessage(_, decodes) =>
      if wk.phase.Idle? || wk.session.currentIndex.None? then wk else
      var index := wk.session.currentIndex.value;
      if index >= wk.phase.tail then wk.(phase := Idle, trace := wk.trace + [Empty]) else
      (match EvmAnchor.RemoteValue(evm, EvmAnchor.MessageKey(index))
       case None => wk.(phase := Idle)
       case Some(m) =>
         if !decodes(m) then wk.(phase := Idle) else
         wk.(session := wk.session.(currentIndex := Some(index + 1), indexUpdated := true),
             phase := Idle, trace := wk.trace + [Poll(m)]))
    case _ => wk
  }

  /** What a commit sends; none when there is nothing to commit. */
  function SentBy(s: SessionState, attestor: Address): Result<Option<EvmRefinement.Sent>, Thrown> {
    if !s.HasUpdates() then Ok(None) else
    match BumpVersion(s)
    case Err(e) => Err(e)
    case Ok(version) => Ok(Some(SentWith(s, attestor, version)))
  }

  function SentWith(s: SessionState, attestor: Address, version: nat): EvmRefinement.Sent {
    EvmRefinement.Sent(
      attestor,
      s.values.Pairs(),
      [(VERSION_KEY, Some(EvmAnchor.EncodeUint(version)))] + s.updates.Pairs(),
      if s.indexUpdated then s.currentIndex else None,
      s.actions)
  }

  // ---------- from four bytes to an ABI word ----------

  /** The version as the anchor stores it. */
  function RecodeVersion(value: Option<Value>): Option<Value> {
    match value
    case None => None
    case Some(bytes) =>
      match DecodeU32(bytes)
      case None => None
      case Some(n) => Some(EvmAnchor.EncodeUint(n))
  }

  predicate VersionForm(value: Option<Value>) {
    value.Some? ==> |value.value| == 4
  }

  lemma RecodeVersionInjective(a: Option<Value>, b: Option<Value>)
    requires VersionForm(a) && VersionForm(b) && RecodeVersion(a) == RecodeVersion(b)
    ensures a == b
  {
    Widths();
    if a.Some? && b.Some? {
      assert a.value[..4] == a.value && b.value[..4] == b.value;
      DecodeLEBound(a.value);
      DecodeLEBound(b.value);
      EvmAnchor.DecodeEncodeUint(DecodeLE(a.value), []);
      EvmAnchor.DecodeEncodeUint(DecodeLE(b.value), []);
      assert EvmAnchor.EncodeUint(DecodeLE(a.value)) + [] == EvmAnchor.EncodeUint(DecodeLE(a.value));
      assert EvmAnchor.EncodeUint(DecodeLE(b.value)) + [] == EvmAnchor.EncodeUint(DecodeLE(b.value));
      EncodeDecodeLE(a.value);
      EncodeDecodeLE(b.value);
    }
  }

  lemma RecodedNumber(n: nat)
    requires n < U32_LIMIT
    ensures RecodeVersion(Some(EncodeU32(n))) == Some(EvmAnchor.EncodeUint(n))
    ensures EvmAnchor.DecodeUint(EvmAnchor.EncodeUint(n)) == Some(n)
  {
    DecodeEncodeU32(n);
    assert U32_LIMIT < U256_LIMIT;
    EvmAnchor.DecodeEncodeUint(n, []);
    assert EvmAnchor.EncodeUint(n) + [] == EvmAnchor.EncodeUint(n);
  }

  function Recode(key: Key, value: Option<Value>): Option<Value> {
    if key == VERSION_KEY then RecodeVersion(value) else value
  }

  function RecodeMap(m: InsertionMap): InsertionMap {
    OrderedMap(m.keys, map k | k in m.entries :: Recode(k, m.entries[k]))
  }

  function RecodeSession(s: SessionState): SessionState {
    s.(values := RecodeMap(s.values))
  }

  function RecodeOp(op: Op): Op {
    match op
    case Read(key, result) => Read(key, Recode(key, result))
    case other => other
  }

  function RecodeTrace(trace: seq<Op>): (r: seq<Op>)
    ensures |r| == |trace| && forall i | 0 <= i < |r| :: r[i] == RecodeOp(trace[i])
  {
    seq(|trace|, i requires 0 <= i < |trace| => RecodeOp(trace[i]))
  }

  /** The same worker, against the anchor. */
  function RecodeWorker(wk: Worker): Worker {
    wk.(session := RecodeSession(wk.session), trace := RecodeTrace(wk.trace))
  }

  /** The ink! contract's store with its version as an ABI word. */
  function RecodeStore(kv: Store): (r: Store)
    ensures forall k :: Get(r, k) == Recode(k, Get(kv, k))
  {
    Set(kv, VERSION_KEY, RecodeVersion(Get(kv, VERSION_KEY)))
  }

  /** The two stores say the same, each in its encoding, and no message is empty. */
  ghost predicate StoresMatch(ink: Store, evm: Store, q: MessageQueue.Queue) {
    && EvmRefinement.StoresTwins(RecodeStore(ink), evm, q)
    && MessageQueue.Represents(ink, q)
    && VersionForm(Get(ink, VERSION_KEY))
    && forall m | m in q.items :: m != []
  }

  // ---------- every remote read gets the same answer ----------

  lemma ValuesMatch(ink: Store, evm: Store, q: MessageQueue.Queue, key: Key)
    requires StoresMatch(ink, evm, q) && !MessageQueue.IsQueueKey(key)
    ensures EvmAnchor.RemoteValue(evm, key) == Recode(key, Get(ink, key))
  {
    hide MessageQueue.Represents, MessageQueue.IsQueueKey, RecodeVersion;
  }

  lemma NumbersMatch(ink: Store, evm: Store, q: MessageQueue.Queue)
    requires StoresMatch(ink, evm, q)
    ensures q.Tail() < U32_LIMIT
    ensures RemoteNumber(evm, EvmAnchor.HEAD_KEY) == Ok(q.head) == RemoteIndex(ink, MessageQueue.HEAD_KEY)
    ensures RemoteNumber(evm, EvmAnchor.TAIL_KEY) == Ok(q.Tail()) == RemoteIndex(ink, MessageQueue.TAIL_KEY)
  {
    hide EvmAnchor.DecodeUint, DecodeU32, Get, EvmAnchor.Load, EvmAnchor.MessageKey, MessageQueue.MessageKey;
  }

  lemma MessagesMatch(ink: Store, evm: Store, q: MessageQueue.Queue, index: nat)
    requires StoresMatch(ink, evm, q) && index < U32_LIMIT
    ensures EvmAnchor.RemoteValue(evm, EvmAnchor.MessageKey(index)) == Get(ink, MessageQueue.MessageKey(index))
  {
    hide EvmAnchor.MessageKey, MessageQueue.MessageKey, EvmAnchor.QueueUint, MessageQueue.ReadIndex, EvmAnchor.Load;
    if q.head <= index < q.Tail() {
      assert q.items[index - q.head] in q.items;
    }
  }

  // ---------- every step leaves the same worker ----------

  /** The application leaves the queue's and the version's keys alone, and writes and pushes nothing empty. */
  predicate SafeStep<H>(step: Step<H>) {
    && Allowed(step)
    && (step.ReadValue? ==> !MessageQueue.IsQueueKey(step.key))
    && (step.WriteValue? ==> step.value != Some([]))
    && (step.CallContract? ==> forall m | m in step.messages :: m != [])
  }

  ghost predicate SafeValues(values: map<Key, Option<Value>>) {
    forall k | k in values ::
      !MessageQueue.IsQueueKey(k) && if k == VERSION_KEY then VersionForm(values[k]) else values[k] != Some([])
  }

  ghost predicate SafeUpdates(updates: map<Key, Option<Value>>) {
    forall k | k in updates :: UserKey(k) && updates[k] != Some([])
  }

  ghost predicate SafeWorker(wk: Worker) {
    && SafeValues(wk.session.values.entries)
    && SafeUpdates(wk.session.updates.entries)
    && (wk.phase.HasTail? ==> wk.phase.tail < U32_LIMIT)
  }

  lemma RecodePut(m: InsertionMap, key: Key, value: Option<Value>)
    ensures RecodeMap(m.Put(key, value)) == RecodeMap(m).Put(key, Recode(key, value))
  {
    hide Recode, OrderedMap.Valid;
    assert RecodeMap(m.Put(key, value)).entries == RecodeMap(m).entries[key := Recode(key, value)];
  }

  lemma VersionMatches(ink: Store, evm: Store, q: MessageQueue.Queue)
    requires StoresMatch(ink, evm, q)
    ensures VersionForm(Get(ink, VERSION_KEY))
    ensures match Get(ink, VERSION_KEY)
            case None => EvmAnchor.RemoteValue(evm, VERSION_KEY) == None
            case Some(bytes) =>
              && DecodeU32(bytes).Some?
              && EvmAnchor.RemoteValue(evm, VERSION_KEY) == Some(EvmAnchor.EncodeUint(DecodeU32(bytes).value))
              && EvmAnchor.DecodeUint(EvmAnchor.EncodeUint(DecodeU32(bytes).value)) == DecodeU32(bytes)
  {
    Serializability.VersionKeyIsNotQueueKey();
    ValuesMatch(ink, evm, q, VERSION_KEY);
    var value := Get(ink, VERSION_KEY);
    if value.Some? {
      DecodeU32Bound(value.value);
      RecodedNumber(DecodeU32(value.value).value);
    }
  }

  lemma StartMatches(ink: Store, evm: Store, q: MessageQueue.Queue)
    requires StoresMatch(ink, evm, q)
    ensures Start(evm) == RecodeSession(StartSession(ink).0)
    ensures SafeValues(StartSession(ink).0.values.entries) && SafeUpdates(StartSession(ink).0.updates.entries)
  {
    VersionMatches(ink, evm, q);
    Serializability.VersionKeyIsNotQueueKey();
    RecodePut(EMPTY_MAP, VERSION_KEY, Get(ink, VERSION_KEY));
    assert RecodeMap(EMPTY_MAP) == EMPTY_MAP;
    hide StoresMatch, MessageQueue.IsQueueKey, DecodeU32, EvmAnchor.DecodeUint, EvmAnchor.RemoteValue, Get, View, RecodeMap,
         UserKey;
  }

  lemma ReadMatches(s: SessionState, ink: Store, evm: Store, q: MessageQueue.Queue, key: Key)
    requires StoresMatch(ink, evm, q) && !MessageQueue.IsQueueKey(key)
    requires SafeValues(s.values.entries) && SafeUpdates(s.updates.entries)
    ensures var (after, result) := GetValue(s, key, ink);
            && GetValue(RecodeSession(s), key, View(evm)) == (RecodeSession(after), Recode(key, result))
            && SafeValues(after.values.entries) && after.updates == s.updates
  {
    hide StoresMatch, Recode, RecodeMap, OrderedMap.Valid, MessageQueue.IsQueueKey, VersionForm, Get, View, SafeUpdates,
         SafeValues;
    if key in s.updates.entries {
      BufferedIsRecoded(s.updates.entries, key);
    } else {
      RecodedEntry(s.values, key);
      if key !in s.values.entries {
        ValuesMatch(ink, evm, q, key);
        RecodePut(s.values, key, Get(ink, key));
        PlainValue(ink, evm, q, key);
        SafePut(s.values.entries, key, Get(ink, key));
      }
    }
  }

  lemma BufferedIsRecoded(updates: map<Key, Option<Value>>, key: Key)
    requires SafeUpdates(updates) && key in updates
    ensures Recode(key, updates[key]) == updates[key]
  {
    hide MessageQueue.IsQueueKey;
  }

  lemma RecodedEntry(m: InsertionMap, key: Key)
    ensures key in RecodeMap(m).entries <==> key in m.entries
    ensures key in m.entries ==> RecodeMap(m).entries[key] == Recode(key, m.entries[key])
  {
    hide Recode, OrderedMap.Valid;
  }

  lemma SafePut(values: map<Key, Option<Value>>, key: Key, value: Option<Value>)
    requires SafeValues(values) && !MessageQueue.IsQueueKey(key)
    requires if key == VERSION_KEY then VersionForm(value) else value != Some([])
    ensures SafeValues(values[key := value])
  {
    hide MessageQueue.IsQueueKey, VersionForm;
  }

  lemma PlainValue(ink: Store, evm: Store, q: MessageQueue.Queue, key: Key)
    requires StoresMatch(ink, evm, q) && !MessageQueue.IsQueueKey(key)
    ensures if key == VERSION_KEY then VersionForm(Get(ink, key)) else Get(ink, key) != Some([])
  {
    hide MessageQueue.Represents, MessageQueue.IsQueueKey, RecodeVersion, EvmQueue.Represents;
    assert Get(RecodeStore(ink), key) != Some([]);
  }

  lemma TraceSnoc(trace: seq<Op>, op: Op)
    ensures RecodeTrace(trace + [op]) == RecodeTrace(trace) + [RecodeOp(op)]
  {
  }

  lemma StepMatches<H>(wk: Worker, ink: Store, evm: Store, q: MessageQueue.Queue, commits: nat, step: Step<H>)
    requires StoresMatch(ink, evm, q) && SafeWorker(wk) && Serializability.OwnStep(step) && SafeStep(step)
    ensures StepOf(RecodeWorker(wk), evm, commits, step) == RecodeWorker(WorkerStep(wk, ink, commits, step))
    ensures SafeWorker(WorkerStep(wk, ink, commits, step))
  {
    hide StoresMatch, MessageQueue.IsQueueKey, Get, RecodeTrace, Recode, RecodeMap, VersionForm, OrderedMap.Valid, StartSession,
         Start, MessageAt;
    NumbersMatch(ink, evm, q);
    match step
    case Begin(_) => BeginMatches(ink, evm, q, commits);
    case Abandon(_) => NothingToRecode();
    case ReadValue(_, key) =>
      ReadMatches(wk.session, ink, evm, q, key);
      TraceSnoc(wk.trace, Read(key, GetValue(wk.session, key, ink).1));
      RecodedRead(key, GetValue(wk.session, key, ink).1);
    case WriteValue(_, key, value) => TraceSnoc(wk.trace, Write(key, value));
    case AddReply(_, _) =>
    case AskTail(_) =>
    case AskHead(_) =>
    case AskMessage(_, decodes) => MessageMatches(wk, ink, evm, q, commits, step);
  }

  lemma RecodedRead(key: Key, result: Option<Value>)
    ensures RecodeOp(Read(key, result)) == Read(key, Recode(key, result))
  {
  }

  lemma BeginMatches(ink: Store, evm: Store, q: MessageQueue.Queue, commits: nat)
    requires StoresMatch(ink, evm, q)
    ensures var wk := Worker(StartSession(ink).0, Idle, [Read(VERSION_KEY, Get(ink, VERSION_KEY))], commits);
            && Worker(Start(evm), Idle, [Read(VERSION_KEY, EvmAnchor.RemoteValue(evm, VERSION_KEY))], commits) == RecodeWorker(wk)
            && SafeWorker(wk)
  {
    hide StoresMatch, MessageQueue.IsQueueKey, Recode, EvmAnchor.RemoteValue, Get, Start, StartSession, RecodeSession,
         SafeValues, SafeUpdates;
    StartMatches(ink, evm, q);
    Serializability.VersionKeyIsNotQueueKey();
    ValuesMatch(ink, evm, q, VERSION_KEY);
    assert RecodeTrace([Read(VERSION_KEY, Get(ink, VERSION_KEY))]) == [Read(VERSION_KEY, EvmAnchor.RemoteValue(evm, VERSION_KEY))];
  }

  lemma NothingToRecode()
    ensures RecodeWorker(FRESH_WORKER) == FRESH_WORKER
  {
  }

  lemma MessageMatches<H>(wk: Worker, ink: Store, evm: Store, q: MessageQueue.Queue, commits: nat, step: Step<H>)
    requires StoresMatch(ink, evm, q) && SafeWorker(wk) && step.AskMessage?
    ensures StepOf(RecodeWorker(wk), evm, commits, step) == RecodeWorker(WorkerStep(wk, ink, commits, step))
    ensures SafeWorker(WorkerStep(wk, ink, commits, step))
  {
    hide StoresMatch, SafeValues, SafeUpdates, Get, EvmAnchor.RemoteValue, RecodeTrace, RecodeMap, MessageQueue.MessageKey,
         EvmAnchor.MessageKey, MessageAt;
    if wk.phase.HasTail? && wk.session.currentIndex.Some? {
      var index := wk.session.currentIndex.value;
      if index >= wk.phase.tail {
        TraceSnoc(wk.trace, Empty);
      } else {
        MessagesMatch(ink, evm, q, index);
        MessageAtIs(ink, index, step.decodes);
        if MessageAt(ink, index, step.decodes).Ok? {
          TraceSnoc(wk.trace, Poll(MessageAt(ink, index, step.decodes).value));
        }
      }
    }
  }

  lemma MessageAtIs(ink: Store, index: nat, decodes: Bytes -> bool)
    ensures match Get(ink, MessageQueue.MessageKey(index))
            case None => MessageAt(ink, index, decodes) == Err(MissingMessage(index))
            case Some(m) => MessageAt(ink, index, decodes) == if decodes(m) then Ok(m) else Err(UndecodableMessage(index))
  {
  }
}
