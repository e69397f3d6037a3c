/**
  The message queue of the contract, laid out over the flat key-value store:
  a head index, a tail index and one key per pending message.

  Push and PopTo return the store they leave behind together with their outcome,
  because the contract code may fail after it has already written.
 */
module MessageQueue {
  import opened Wrappers
  import opened ByteCodec
  import opened KvStore
  import opened RollupErrors

  const QUEUE_PREFIX: Bytes := [0x71, 0x2f]                           // q/
  const HEAD_KEY: Key := QUEUE_PREFIX + [0x5f, 0x68, 0x65, 0x61, 0x64] // q/_head
  const TAIL_KEY: Key := QUEUE_PREFIX + [0x5f, 0x74, 0x61, 0x69, 0x6c] // q/_tail

  function MessageKey(id: nat): Key {
    QUEUE_PREFIX + EncodeU32(id)
  }

  /** The index stored under a key: absent reads as 0, too few bytes is an error. */
  function ReadIndex(kv: Store, key: Key): Result<nat, Error> {
    match Get(kv, key)
    case None => Ok(0)
    case Some(v) =>
      match DecodeU32(v)
      case None => Err(FailedToDecode)
      case Some(n) => Ok(n)
  }

  function Push(kv: Store, data: Bytes): (Store, Result<nat, Error>) {
    match ReadIndex(kv, TAIL_KEY)
    case Err(e) => (kv, Err(e))
    case Ok(id) =>
      var written := kv[MessageKey(id) := data];
      if id + 1 >= U32_LIMIT then (written, Err(QueueIndexOverflow))
      else (written[TAIL_KEY := EncodeU32(id + 1)], Ok(id))
  }

  /** The message keys with an index in [lo, hi). */
  function MessageKeys(lo: nat, hi: nat): set<Key> {
    set i: nat | lo <= i < hi :: MessageKey(i)
  }

  function PopTo(kv: Store, target: nat): (Store, Outcome<Error>) {
    match ReadIndex(kv, TAIL_KEY)
    case Err(e) => (kv, Fail(e))
    case Ok(tail) =>
      if target > tail then (kv, Fail(InvalidPopTarget)) else
      match ReadIndex(kv, HEAD_KEY)
      case Err(e) => (kv, Fail(e))
      case Ok(head) =>
        if target < head then (kv, Fail(InvalidPopTarget))
        else if target == head then (kv, Pass)
        else ((kv - MessageKeys(head, target))[HEAD_KEY := EncodeU32(target)], Pass)
  }

  function HasMessage(kv: Store): Result<bool, Error> {
    match ReadIndex(kv, TAIL_KEY)
    case Err(e) => Err(e)
    case Ok(tail) =>
      match ReadIndex(kv, HEAD_KEY)
      case Err(e) => Err(e)
      case Ok(head) => Ok(tail > head)
  }

  predicate IsQueueKey(key: Key) {
    QUEUE_PREFIX <= key
  }

  /** The index a message key was made from. */
  function IndexOf(key: Key): nat {
    if |key| < 2 then 0 else DecodeLE(key[2..])
  }

  lemma IndexOfMessageKey(id: nat)
    requires id < U32_LIMIT
    ensures IndexOf(MessageKey(id)) == id
  {
    assert MessageKey(id)[2..] == EncodeU32(id);
    Widths();
    RoundTripLE(id, 4);
  }

  /** Different indices have different keys, and no message key is the head or the tail key. */
  lemma QueueKeysDistinct()
    ensures HEAD_KEY != TAIL_KEY
    ensures IsQueueKey(HEAD_KEY) && IsQueueKey(TAIL_KEY)
    ensures forall i: nat :: IsQueueKey(MessageKey(i)) && MessageKey(i) != HEAD_KEY && MessageKey(i) != TAIL_KEY
    ensures forall i: nat | i < U32_LIMIT :: IndexOf(MessageKey(i)) == i
  {
    assert HEAD_KEY[3] != TAIL_KEY[3];
    forall i: nat
      ensures IsQueueKey(MessageKey(i)) && MessageKey(i) != HEAD_KEY && MessageKey(i) != TAIL_KEY
    {
      assert |MessageKey(i)| == 6;
    }
    forall i: nat | i < U32_LIMIT ensures IndexOf(MessageKey(i)) == i {
      IndexOfMessageKey(i);
    }
  }

  /** The plain queue: how many messages have left it, and the pending ones in order. */
  datatype Queue = Queue(head: nat, items: seq<Bytes>) {
    function Tail(): nat {
      head + |items|
    }
  }

  /** The keys of the store hold exactly this queue. */
  ghost predicate Represents(kv: Store, q: Queue) {
    && q.Tail() < U32_LIMIT
    && ReadIndex(kv, HEAD_KEY) == Ok(q.head)
    && ReadIndex(kv, TAIL_KEY) == Ok(q.Tail())
    && (forall i: nat | q.head <= i < q.Tail() :: Get(kv, MessageKey(i)) == Some(q.items[i - q.head]))
    && (forall i: nat | i < U32_LIMIT && !(q.head <= i < q.Tail()) :: Get(kv, MessageKey(i)) == None)
  }

  /** Outside the queue's own keys two stores agree. */
  ghost predicate SameOutsideQueue(a: Store, b: Store) {
    forall k | !IsQueueKey(k) :: Get(a, k) == Get(b, k)
  }

  lemma EmptyStoreRepresentsEmptyQueue()
    ensures Represents(map[], Queue(0, []))
  {
  }

  /** A store that agrees on the queue keys holds the same queue. */
  lemma RepresentsFrame(a: Store, b: Store, q: Queue)
    requires Represents(a, q)
    requires forall k | IsQueueKey(k) :: Get(a, k) == Get(b, k)
    ensures Represents(b, q)
  {
    QueueKeysDistinct();
  }

  /** push_message appends at the tail, unless the tail index is used up. */
  lemma PushAppends(kv: Store, q: Queue, data: Bytes)
    requires Represents(kv, q)
    ensures Push(kv, data).1 ==
            if q.Tail() + 1 < U32_LIMIT then Ok(q.Tail()) else Err(QueueIndexOverflow)
    ensures q.Tail() + 1 < U32_LIMIT ==> Represents(Push(kv, data).0, Queue(q.head, q.items + [data]))
    ensures SameOutsideQueue(kv, Push(kv, data).0)
  {
    if q.Tail() + 1 < U32_LIMIT {
      PushRepresents(kv, q, data);
    }
    QueueKeysDistinct();
  }

  lemma PushRepresents(kv: Store, q: Queue, data: Bytes)
    requires Represents(kv, q) && q.Tail() + 1 < U32_LIMIT
    ensures Represents(Push(kv, data).0, Queue(q.head, q.items + [data]))
  {
    var after := Push(kv, data).0;
    PushedReads(kv, q.Tail(), data);
    AppendedReads(kv, after, q, data);
  }

  /** A store whose queue reads are those of a queue with one message more holds that queue. */
  lemma AppendedReads(kv: Store, after: Store, q: Queue, data: Bytes)
    requires Represents(kv, q) && q.Tail() + 1 < U32_LIMIT
    requires ReadIndex(after, HEAD_KEY) == ReadIndex(kv, HEAD_KEY)
    requires ReadIndex(after, TAIL_KEY) == Ok(q.Tail() + 1)
    requires forall i: nat | i < U32_LIMIT ::
               Get(after, MessageKey(i)) == if i == q.Tail() then Some(data) else Get(kv, MessageKey(i))
    ensures Represents(after, Queue(q.head, q.items + [data]))
  {
    hide ReadIndex, MessageKey, Get;
    var q' := Queue(q.head, q.items + [data]);
    forall i: nat | q'.head <= i < q'.Tail()
      ensures Get(after, MessageKey(i)) == Some(q'.items[i - q'.head])
    {
      if i < q.Tail() {
        assert q'.items[i - q'.head] == q.items[i - q.head];
      }
    }
  }

  /** What every queue read sees after a push at index tail. */
  lemma PushedReads(kv: Store, tail: nat, data: Bytes)
    requires ReadIndex(kv, TAIL_KEY) == Ok(tail) && tail + 1 < U32_LIMIT
    ensures var after := Push(kv, data).0;
            && ReadIndex(after, HEAD_KEY) == ReadIndex(kv, HEAD_KEY)
            && ReadIndex(after, TAIL_KEY) == Ok(tail + 1)
            && forall i: nat | i < U32_LIMIT ::
                 Get(after, MessageKey(i)) == if i == tail then Some(data) else Get(kv, MessageKey(i))
  {
    hide EncodeU32, DecodeU32, IndexOf, MessageKey, IsQueueKey;
    QueueKeysDistinct();
    DecodeEncodeU32(tail + 1);
    var after := Push(kv, data).0;
    forall i: nat | i < U32_LIMIT
      ensures Get(after, MessageKey(i)) == if i == tail then Some(data) else Get(kv, MessageKey(i))
    {
      if MessageKey(i) == MessageKey(tail) {
        assert IndexOf(MessageKey(i)) == IndexOf(MessageKey(tail));
      }
    }
  }

  /** pop_to drops the messages before its target, and fails exactly outside [head, tail]. */
  lemma PopToDrops(kv: Store, q: Queue, target: nat)
    requires Represents(kv, q)
    ensures PopTo(kv, target).1 ==
            if q.head <= target <= q.Tail() then Pass else Fail(InvalidPopTarget)
    ensures q.head <= target <= q.Tail() ==>
              Represents(PopTo(kv, target).0, Queue(target, q.items[target - q.head..]))
    ensures SameOutsideQueue(kv, PopTo(kv, target).0)
  {
    hide EncodeU32, DecodeU32, IndexOf, MessageKey, IsQueueKey;
    QueueKeysDistinct();
    if q.head < target <= q.Tail() {
      PoppedReads(kv, q.head, q.Tail(), target);
    } else if target == q.head {
      assert q.items[0..] == q.items;
    }
  }

  /** What every read sees after messages are popped. */
  lemma PoppedReads(kv: Store, head: nat, tail: nat, target: nat)
    requires ReadIndex(kv, HEAD_KEY) == Ok(head) && ReadIndex(kv, TAIL_KEY) == Ok(tail)
    requires head < target <= tail < U32_LIMIT
    ensures var after := PopTo(kv, target).0;
            && ReadIndex(after, HEAD_KEY) == Ok(target)
            && ReadIndex(after, TAIL_KEY) == Ok(tail)
            && (forall i: nat | i < U32_LIMIT ::
                  Get(after, MessageKey(i)) == if head <= i < target then None else Get(kv, MessageKey(i)))
            && SameOutsideQueue(kv, after)
  {
    hide EncodeU32, DecodeU32, IndexOf, MessageKey, IsQueueKey;
    QueueKeysDistinct();
    DecodeEncodeU32(target);
    var after := PopTo(kv, target).0;
    forall i: nat | i < U32_LIMIT
      ensures Get(after, MessageKey(i)) == if head <= i < target then None else Get(kv, MessageKey(i))
    {
      if MessageKey(i) in MessageKeys(head, target) {
        var j: nat :| head <= j < target && MessageKey(j) == MessageKey(i);
        assert IndexOf(MessageKey(i)) == IndexOf(MessageKey(j));
      }
    }
  }

  /** has_message is non-emptiness. */
  lemma HasMessageIsNonEmpty(kv: Store, q: Queue)
    requires Represents(kv, q)
    ensures HasMessage(kv) == Ok(q.items != [])
  {
  }

  // ---------- whole histories of queue calls ----------

  datatype QueueCall = PushCall(data: Bytes) | PopCall(target: nat)

  /** One queue call as a transaction: a call that fails leaves the store as it was. */
  function CallOnStore(kv: Store, call: QueueCall): (Store, Outcome<Error>) {
    match call
    case PushCall(data) =>
      (match Push(kv, data)
       case (after, Ok(_)) => (after, Pass)
       case (_, Err(e)) => (kv, Fail(e)))
    case PopCall(target) =>
      (match PopTo(kv, target)
       case (after, Pass) => (after, Pass)
       case (_, Fail(e)) => (kv, Fail(e)))
  }

  /** The same call on the plain queue. */
  function CallOnQueue(q: Queue, call: QueueCall): (Queue, Outcome<Error>) {
    match call
    case PushCall(data) =>
      if q.Tail() + 1 < U32_LIMIT then (q.(items := q.items + [data]), Pass)
      else (q, Fail(QueueIndexOverflow))
    case PopCall(target) =>
      if q.head <= target <= q.Tail() then (Queue(target, q.items[target - q.head..]), Pass)
      else (q, Fail(InvalidPopTarget))
  }

  function CallsOnStore(kv: Store, calls: seq<QueueCall>): (Store, seq<Outcome<Error>>) {
    if calls == [] then (kv, []) else
    var (before, outcomes) := CallsOnStore(kv, calls[..|calls| - 1]);
    var (after, outcome) := CallOnStore(before, calls[|calls| - 1]);
    (after, outcomes + [outcome])
  }

  function CallsOnQueue(q: Queue, calls: seq<QueueCall>): (Queue, seq<Outcome<Error>>) {
    if calls == [] then (q, []) else
    var (before, outcomes) := CallsOnQueue(q, calls[..|calls| - 1]);
    var (after, outcome) := CallOnQueue(before, calls[|calls| - 1]);
    (after, outcomes + [outcome])
  }

  /**
    The store refines the plain queue: under any sequence of pushes and pops both give the
    same outcomes, the keys still hold exactly the plain queue, and no other key moves.
   */
  lemma {:induction false} StoreRefinesQueue(kv: Store, q: Queue, calls: seq<QueueCall>)
    requires Represents(kv, q)
    ensures Represents(CallsOnStore(kv, calls).0, CallsOnQueue(q, calls).0)
    ensures CallsOnStore(kv, calls).1 == CallsOnQueue(q, calls).1
    ensures SameOutsideQueue(kv, CallsOnStore(kv, calls).0)
  {
    if calls == [] {
    } else {
      StoreRefinesQueue(kv, q, calls[..|calls| - 1]);
      var before := CallsOnStore(kv, calls[..|calls| - 1]).0;
      var plain := CallsOnQueue(q, calls[..|calls| - 1]).0;
      match calls[|calls| - 1]
      case PushCall(data) => PushAppends(before, plain, data);
      case PopCall(target) => PopToDrops(before, plain, target);
    }
  }
}
