/**
  A worker's session: the values it has read, the writes it has buffered and how far it has
  polled the queue. Each function is what one client call makes of the session, given the
  contract's store at the moment the call's remote read is answered.
 */
module Session {
  import opened Wrappers
  import opened ByteCodec
  import opened KvStore
  import opened MessageQueue
  import opened RollupErrors
  import opened RollupClient

  const VERSION_KEY: Key := [0x76, 0x2f, 0x5f, 0x6e, 0x75, 0x6d, 0x62, 0x65, 0x72]  // v/_number

  /** Errors the client raises on its own side. */
  datatype Thrown =
    | SessionNotStarted
    | UndecodableNumber
    | MissingMessage(index: nat)
    | UndecodableMessage(index: nat)
    | QueryFailed(error: Error)

  /** A map that remembers the order in which its keys were first set. */
  datatype OrderedMap = OrderedMap(keys: seq<Key>, entries: map<Key, Option<Value>>) {

    ghost predicate Valid() {
      && (forall i, j | 0 <= i < j < |keys| :: keys[i] != keys[j])
      && (forall i | 0 <= i < |keys| :: keys[i] in entries)
      && (forall k | k in entries :: k in keys)
    }

    function Put(key: Key, value: Option<Value>): (r: OrderedMap)
      ensures Valid() ==> r.Valid()
      ensures r.entries == entries[key := value]
      ensures keys <= r.keys
    {
      OrderedMap(if key in entries then keys else keys + [key], entries[key := value])
    }

    /** The entries as key-value pairs, in insertion order. */
    function Pairs(): (r: seq<KeyValue>)
      requires Valid()
      ensures |r| == |keys|
      ensures forall i | 0 <= i < |keys| :: r[i] == (keys[i], entries[keys[i]])
    {
      seq(|keys|, i requires 0 <= i < |keys| => (keys[i], entries[keys[i]]))
    }
  }

  type InsertionMap = m: OrderedMap | m.Valid() witness OrderedMap([], map[])

  const EMPTY_MAP: InsertionMap := OrderedMap([], map[])

  /** version is None while the session is not started; a started session may have read no version. */
  datatype SessionState = SessionState(
    version: Option<Option<nat>>,
    values: InsertionMap,
    updates: InsertionMap,
    actions: seq<Bytes>,
    currentIndex: Option<nat>,
    indexUpdated: bool)
  {
    predicate HasUpdates() {
      indexUpdated || updates.keys != [] || actions != []
    }
  }

  const NEW_SESSION: SessionState := SessionState(None, EMPTY_MAP, EMPTY_MAP, [], None, false)

  /** Buffered writes first, then cached reads, then the remote store, whose answer is cached. */
  function GetValue(s: SessionState, key: Key, remote: Store): (SessionState, Option<Value>) {
    if key in s.updates.entries then (s, s.updates.entries[key])
    else if key in s.values.entries then (s, s.values.entries[key])
    else (s.(values := s.values.Put(key, Get(remote, key))), Get(remote, key))
  }

  function SetValue(s: SessionState, key: Key, value: Option<Value>): SessionState {
    s.(updates := s.updates.Put(key, value))
  }

  function AddAction(s: SessionState, data: Bytes): SessionState {
    s.(actions := s.actions + [data])
  }

  /** A new session reads the version through the cache; its value is decoded afterwards. */
  function StartSession(remote: Store): (SessionState, Outcome<Thrown>) {
    var (s, value) := GetValue(NEW_SESSION, VERSION_KEY, remote);
    match value
    case None => (s.(version := Some(None)), Pass)
    case Some(bytes) =>
      match DecodeU32(bytes)
      case None => (s, Fail(UndecodableNumber))
      case Some(n) => (s.(version := Some(Some(n))), Pass)
  }

  /** A start throws exactly on a version of fewer than four bytes; the read is in the session either way. */
  lemma StartThrows(remote: Store)
    ensures var (s, outcome) := StartSession(remote);
            && outcome == (if VERSION_KEY in remote && |remote[VERSION_KEY]| < 4 then Fail(UndecodableNumber) else Pass)
            && (outcome.Fail? <==> s.version.None?)
            && s.values.keys == [VERSION_KEY] && s.values.entries == map[VERSION_KEY := Get(remote, VERSION_KEY)]
            && s == NEW_SESSION.(version := s.version, values := s.values)
  {
    hide DecodeLE;
  }

  /** An index read straight from the store: it does not enter the session's cache. */
  function RemoteIndex(remote: Store, key: Key): Result<nat, Thrown> {
    match ReadIndex(remote, key)
    case Ok(n) => Ok(n)
    case Err(_) => Err(UndecodableNumber)
  }

  /** Second read of a poll: only the first poll of a session asks for the head. */
  function PollHead(s: SessionState, remote: Store): (r: Result<SessionState, Thrown>)
    ensures r.Ok? ==> r.value.currentIndex.Some?
  {
    if s.currentIndex.Some? then Ok(s) else
    match RemoteIndex(remote, HEAD_KEY)
    case Ok(head) => Ok(s.(currentIndex := Some(head)))
    case Err(e) => Err(e)
  }

  /** One message of the queue; missing or undecodable bytes throw. */
  function MessageAt(remote: Store, index: nat, decodes: Bytes -> bool): Result<Bytes, Thrown> {
    match Get(remote, MessageKey(index))
    case None => Err(MissingMessage(index))
    case Some(m) => if decodes(m) then Ok(m) else Err(UndecodableMessage(index))
  }

  /** Third read of a poll: the message under the current index, when that is before the tail and decodes. */
  function PollItem(s: SessionState, tail: nat, remote: Store, decodes: Bytes -> bool)
    : Result<(SessionState, Option<Bytes>), Thrown>
    requires s.currentIndex.Some?
  {
    var index := s.currentIndex.value;
    if index >= tail then Ok((s, None)) else
    match MessageAt(remote, index, decodes)
    case Err(e) => Err(e)
    case Ok(m) => Ok((s.(currentIndex := Some(index + 1), indexUpdated := true), Some(m)))
  }

  /**
    A whole poll: tail, then head if the session has none yet, then the message. Each of the
    three reads may be answered by a different store, and a message that is missing or does not
    decode leaves the head it has read in the session.
   */
  function PollMessage(s: SessionState, atTail: Store, atHead: Store, atItem: Store, decodes: Bytes -> bool)
    : (SessionState, Result<Option<Bytes>, Thrown>)
  {
    match RemoteIndex(atTail, TAIL_KEY)
    case Err(e) => (s, Err(e))
    case Ok(tail) =>
      match PollHead(s, atHead)
      case Err(e) => (s, Err(e))
      case Ok(positioned) =>
        match PollItem(positioned, tail, atItem, decodes)
        case Err(e) => (positioned, Err(e))
        case Ok((after, message)) => (after, Ok(message))
  }

  /** A poll, from the outcomes of its three reads. */
  lemma PollByParts(s: SessionState, atTail: Store, atHead: Store, atItem: Store, decodes: Bytes -> bool)
    ensures PollMessage(s, atTail, atHead, atItem, decodes) ==
            var tail, positioned := RemoteIndex(atTail, TAIL_KEY), PollHead(s, atHead);
            if tail.Err? then (s, Err(tail.error))
            else if positioned.Err? then (s, Err(positioned.error))
            else
              var item := PollItem(positioned.value, tail.value, atItem, decodes);
              if item.Err? then (positioned.value, Err(item.error)) else (item.value.0, Ok(item.value.1))
    ensures s.currentIndex.Some? ==> PollHead(s, atHead) == Ok(s)
    ensures PollHead(s, atHead).Ok? ==>
              PollHead(s, atHead).value == s.(currentIndex := PollHead(s, atHead).value.currentIndex)
  {
    hide RemoteIndex, PollItem;
  }

  /** A stored index is the number whose four bytes it begins with; none is 0. */
  lemma IndexReads(kv: Store, key: Key, n: nat)
    ensures ReadIndex(kv, key) == Ok(n) <==>
            n < U32_LIMIT && if key in kv then EncodeU32(n) <= kv[key] else n == 0
    ensures ReadIndex(kv, key).Err? <==> key in kv && |kv[key]| < 4
  {
    hide EncodeLE, DecodeLE;
    if key in kv && |kv[key]| >= 4 {
      EncodeDecodeLE(kv[key][..4]);
      DecodeU32Bound(kv[key]);
      DecodeEncodeU32(n);
      if EncodeU32(n) <= kv[key] {
        assert kv[key][..4] == EncodeU32(n) && EncodeU32(n)[..4] == EncodeU32(n);
      }
    }
  }

  /** While the tail has fewer than four bytes nothing can be pushed, popped, asked for or polled. */
  lemma MalformedTailStops(kv: Store, data: Bytes, target: nat, s: SessionState, atHead: Store, atItem: Store, decodes: Bytes -> bool)
    requires TAIL_KEY in kv && |kv[TAIL_KEY]| < 4
    ensures Push(kv, data) == (kv, Err(FailedToDecode))
    ensures PopTo(kv, target) == (kv, Fail(FailedToDecode))
    ensures HasMessage(kv) == Err(FailedToDecode)
    ensures PollMessage(s, kv, atHead, atItem, decodes) == (s, Err(UndecodableNumber))
  {
  }

  /**
    A poll of a store that holds a queue: at or behind the tail it finds nothing, at an index popped
    since it throws, and else it takes the message at its index, the head's on the first poll.
   */
  lemma PollOnQueue(kv: Store, q: Queue, s: SessionState, decodes: Bytes -> bool)
    requires Represents(kv, q)
    ensures var index := s.currentIndex.GetOr(q.head);
            var at := s.(currentIndex := Some(index));
            PollMessage(s, kv, kv, kv, decodes) ==
            if index >= q.Tail() then (at, Ok(None))
            else if index < q.head then (at, Err(MissingMessage(index)))
            else if !decodes(q.items[index - q.head]) then (at, Err(UndecodableMessage(index)))
            else (s.(currentIndex := Some(index + 1), indexUpdated := true), Ok(Some(q.items[index - q.head])))
  {
    hide ReadIndex, MessageKey;
  }

  /** A key in characters. */
  function Ascii(s: string): Bytes
    requires forall i | 0 <= i < |s| :: s[i] < 128 as char
  {
    seq(|s|, i requires 0 <= i < |s| => s[i] as int)
  }

  /** The reserved keys as they are written. */
  lemma KeysSpelled(index: nat)
    ensures HEAD_KEY == Ascii("q/_head") && TAIL_KEY == Ascii("q/_tail") && VERSION_KEY == Ascii("v/_number")
    ensures MessageKey(index) == Ascii("q/") + EncodeLE(index, 4)
  {
  }

  function BumpVersion(s: SessionState): Result<nat, Thrown> {
    match s.version
    case None => Err(SessionNotStarted)
    case Some(None) => Ok(1)
    case Some(Some(n)) => Ok(n + 1)
  }

  function VersionUpdate(version: nat): KeyValue {
    (VERSION_KEY, Some(EncodeU32(version)))
  }

  function AsReplies(actions: seq<Bytes>): (r: seq<Action>)
    ensures |r| == |actions| && forall i | 0 <= i < |r| :: r[i] == Reply(actions[i])
  {
    seq(|actions|, i requires 0 <= i < |actions| => Reply(actions[i]))
  }

  function HeadMove(s: SessionState): seq<Action> {
    if s.indexUpdated && s.currentIndex.Some? then [SetQueueHead(s.currentIndex.value)] else []
  }

  function ParamsOf(s: SessionState, version: nat): RollupParams {
    RollupParams(
      s.values.Pairs(),
      [VersionUpdate(version)] + s.updates.Pairs(),
      HeadMove(s) + AsReplies(s.actions))
  }

  /** The transaction a commit sends; none when there is nothing to commit. */
  function CommitParams(s: SessionState): Result<Option<RollupParams>, Thrown> {
    if !s.HasUpdates() then Ok(None) else
    match BumpVersion(s)
    case Err(e) => Err(e)
    case Ok(version) =>
      Ok(Some(ParamsOf(s, version)))
  }

  /** A commit sends nothing exactly when nothing was polled, buffered or added; only an unstarted session throws. */
  lemma CommitSendsExactlyWhen(s: SessionState)
    ensures CommitParams(s) == Ok(None) <==> !s.indexUpdated && s.updates.entries == map[] && s.actions == []
    ensures CommitParams(s).Err? <==> CommitParams(s) != Ok(None) && s.version.None?
    ensures CommitParams(s).Err? ==> CommitParams(s).error == SessionNotStarted
  {
    hide ParamsOf;
    if s.updates.keys != [] {
      assert s.updates.keys[0] in s.updates.entries;
    }
    if k :| k in s.updates.entries {
      assert k in s.updates.keys;
    }
  }

  // ---------- what the session's own lists mean on chain ----------

  /** The conditions of a commit hold exactly when every cached read is still the store's value. */
  lemma ConditionsAreReads(kv: Store, values: InsertionMap)
    ensures ConditionsMet(kv, values.Pairs()) <==>
            forall k | k in values.entries :: Get(kv, k) == values.entries[k]
  {
    var pairs := values.Pairs();
    if ConditionsMet(kv, pairs) {
      forall k | k in values.entries ensures Get(kv, k) == values.entries[k] {
        var i :| 0 <= i < |values.keys| && values.keys[i] == k;
        assert pairs[i] == (k, values.entries[k]);
      }
    }
  }

  /** One update followed by the buffered writes. */
  lemma FirstThenWrites(kv: Store, first: KeyValue, updates: InsertionMap)
    ensures ApplyUpdates(kv, [first] + updates.Pairs()) == Overlay(Set(kv, first.0, first.1), updates.entries)
  {
    hide Set, Overlay;
    var pairs := updates.Pairs();
    var none: seq<KeyValue> := [];
    assert [first][..0] == none && ApplyUpdates(kv, none) == kv;
    UpdatesAppend(kv, [first], pairs);
    forall k | k in updates.entries ensures exists i :: 0 <= i < |pairs| && pairs[i].0 == k {
      var i :| 0 <= i < |updates.keys| && updates.keys[i] == k;
      assert pairs[i].0 == k;
    }
    UpdatesAreOverlay(ApplyUpdates(kv, [first]), pairs, updates.entries);
  }

  /**
    The updates of a commit write the new version and then lay the buffered writes over it: a
    session that buffers a write of the version key itself undoes the bump.
   */
  lemma UpdatesAreWrites(kv: Store, version: nat, updates: InsertionMap)
    ensures ApplyUpdates(kv, [VersionUpdate(version)] + updates.Pairs()) ==
            Overlay(Set(kv, VERSION_KEY, Some(EncodeU32(version))), updates.entries)
  {
    FirstThenWrites(kv, VersionUpdate(version), updates);
  }
}
