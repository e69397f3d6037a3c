/** The Solidity anchor's queue against a plain sequence. */
module EvmQueue {
  import opened Wrappers
  import opened ByteCodec
  import opened KvStore
  import opened EvmAnchor
  import Session
  import MessageQueue

  // ---------- keys ----------

  function IndexOf(key: Key): nat {
    if |key| < 2 then 0 else DecodeBE(key[2..])
  }

  predicate IsQueueKey(key: Key) {
    QUEUE_PREFIX <= key
  }

  /** Message keys can be read back, so they are injective, and are never the head, tail or version key. */
  lemma KeysDistinct()
    ensures HEAD_KEY != TAIL_KEY
    ensures IsQueueKey(HEAD_KEY) && IsQueueKey(TAIL_KEY) && !IsQueueKey(Session.VERSION_KEY)
    ensures forall i: nat :: IsQueueKey(MessageKey(i)) && MessageKey(i) != HEAD_KEY && MessageKey(i) != TAIL_KEY
    ensures forall i: nat | i < U256_LIMIT :: IndexOf(MessageKey(i)) == i
  {
    assert HEAD_KEY[3] != TAIL_KEY[3] && Session.VERSION_KEY[0] != QUEUE_PREFIX[0];
    forall i: nat
      ensures IsQueueKey(MessageKey(i)) && MessageKey(i) != HEAD_KEY && MessageKey(i) != TAIL_KEY
    {
      assert |MessageKey(i)| == 34;
    }
    forall i: nat | i < U256_LIMIT ensures IndexOf(MessageKey(i)) == i {
      assert MessageKey(i)[2..] == EncodeUint(i);
      Widths();
      RoundTripBE(i, 32);
    }
  }

  // ---------- the queue ----------

  /** The keys hold this queue; an empty message is not told apart from none. */
  ghost predicate Represents(kv: Store, q: MessageQueue.Queue) {
    && q.Tail() < U256_LIMIT
    && QueueUint(kv, HEAD_KEY) == Ok(q.head)
    && QueueUint(kv, TAIL_KEY) == Ok(q.Tail())
    && (forall i: nat | q.head <= i < q.Tail() :: Load(kv, MessageKey(i)) == q.items[i - q.head])
    && (forall i: nat | i < U256_LIMIT && !(q.head <= i < q.Tail()) :: Load(kv, MessageKey(i)) == [])
  }

  /** What every read sees after a push at index tail. */
  lemma PushReads(kv: Store, tail: nat, data: Bytes, k: Key)
    requires QueueUint(kv, TAIL_KEY) == Ok(tail) && tail + 1 < U256_LIMIT
    ensures Load(Push(kv, data).0, k) ==
            if k == TAIL_KEY then EncodeUint(tail + 1)
            else if k == MessageKey(tail) then data
            else Load(kv, k)
  {
    hide EncodeUint, QueueUint, MessageKey;
  }

  lemma StoredUint(kv: Store, key: Key, n: nat)
    requires n < U256_LIMIT && Load(kv, key) == EncodeUint(n)
    ensures QueueUint(kv, key) == Ok(n)
  {
    DecodeEncodeUint(n, []);
    assert EncodeUint(n) + [] == EncodeUint(n);
  }

  lemma SameUint(a: Store, b: Store, key: Key)
    requires Load(a, key) == Load(b, key)
    ensures QueueUint(a, key) == QueueUint(b, key)
  {
  }

  lemma PushedReads(kv: Store, tail: nat, data: Bytes)
    requires QueueUint(kv, TAIL_KEY) == Ok(tail) && tail + 1 < U256_LIMIT
    ensures var after := Push(kv, data).0;
            && QueueUint(after, HEAD_KEY) == QueueUint(kv, HEAD_KEY)
            && QueueUint(after, TAIL_KEY) == Ok(tail + 1)
            && forall i: nat | i < U256_LIMIT ::
                 Load(after, MessageKey(i)) == if i == tail then data else Load(kv, MessageKey(i))
  {
    hide EncodeUint, QueueUint, MessageKey, Push, IndexOf;
    KeysDistinct();
    var after := Push(kv, data).0;
    PushReads(kv, tail, data, HEAD_KEY);
    PushReads(kv, tail, data, TAIL_KEY);
    SameUint(after, kv, HEAD_KEY);
    StoredUint(after, TAIL_KEY, tail + 1);
    forall i: nat | i < U256_LIMIT
      ensures Load(after, MessageKey(i)) == if i == tail then data else Load(kv, MessageKey(i))
    {
      PushReads(kv, tail, data, MessageKey(i));
      if MessageKey(i) == MessageKey(tail) {
        assert IndexOf(MessageKey(i)) == IndexOf(MessageKey(tail));
      }
    }
  }

  /** A store that agrees on the queue's keys holds the same queue. */
  lemma RepresentsFrame(a: Store, b: Store, q: MessageQueue.Queue)
    requires Represents(a, q)
    requires forall k | IsQueueKey(k) :: Load(a, k) == Load(b, k)
    ensures Represents(b, q)
  {
    KeysDistinct();
    hide MessageKey, IsQueueKey, Load, IndexOf, DecodeUint;
    assert QueueUint(a, HEAD_KEY) == QueueUint(b, HEAD_KEY) && QueueUint(a, TAIL_KEY) == QueueUint(b, TAIL_KEY);
  }

  /** Outside the queue's own keys two stores agree. */
  ghost predicate SameOutsideQueue(a: Store, b: Store) {
    forall k | !IsQueueKey(k) :: Load(a, k) == Load(b, k)
  }

  /** _pushMessage appends, up to the last uint256 index, and moves no other key. */
  lemma PushAppends(kv: Store, q: MessageQueue.Queue, data: Bytes)
    requires Represents(kv, q)
    ensures Push(kv, data).1 == if q.Tail() + 1 < U256_LIMIT then Ok(q.Tail()) else Err(ArithmeticPanic)
    ensures q.Tail() + 1 < U256_LIMIT ==>
              Represents(Push(kv, data).0, MessageQueue.Queue(q.head, q.items + [data]))
    ensures SameOutsideQueue(kv, Push(kv, data).0)
  {
    if q.Tail() + 1 < U256_LIMIT {
      PushedReads(kv, q.Tail(), data);
      AppendedReads(kv, Push(kv, data).0, q, data);
    }
    PushOutsideQueue(kv, data);
  }

  lemma PushOutsideQueue(kv: Store, data: Bytes)
    ensures SameOutsideQueue(kv, Push(kv, data).0)
  {
    KeysDistinct();
    hide MessageKey, IsQueueKey, QueueUint, EncodeUint, IndexOf;
  }

  lemma PopOutsideQueue(kv: Store, target: nat)
    ensures SameOutsideQueue(kv, PopTo(kv, target).0)
  {
    KeysDistinct();
    hide MessageKey, IsQueueKey, QueueUint, EncodeUint, IndexOf;
  }

  lemma AppendedReads(kv: Store, after: Store, q: MessageQueue.Queue, data: Bytes)
    requires Represents(kv, q) && q.Tail() + 1 < U256_LIMIT
    requires QueueUint(after, HEAD_KEY) == QueueUint(kv, HEAD_KEY) && QueueUint(after, TAIL_KEY) == Ok(q.Tail() + 1)
    requires forall i: nat | i < U256_LIMIT ::
               Load(after, MessageKey(i)) == if i == q.Tail() then data else Load(kv, MessageKey(i))
    ensures Represents(after, MessageQueue.Queue(q.head, q.items + [data]))
  {
    hide QueueUint, MessageKey, Load;
    var q' := MessageQueue.Queue(q.head, q.items + [data]);
    forall i: nat | q'.head <= i < q'.Tail()
      ensures Load(after, MessageKey(i)) == q'.items[i - q'.head]
    {
      if i < q.Tail() {
        assert q'.items[i - q'.head] == q.items[i - q.head];
      }
    }
  }

  /** What every read sees after a pop from head to target. */
  lemma PopReads(kv: Store, head: nat, target: nat, k: Key)
    requires QueueUint(kv, HEAD_KEY) == Ok(head)
    requires QueueUint(kv, TAIL_KEY).Ok? && target <= QueueUint(kv, TAIL_KEY).value
    ensures Load(PopTo(kv, target).0, k) ==
            if k == HEAD_KEY then EncodeUint(target)
            else if k in MessageKeys(head, target) then []
            else Load(kv, k)
  {
    hide EncodeUint, QueueUint, MessageKey, MessageKeys;
  }

  lemma IndexInRange(lo: nat, hi: nat, i: nat)
    requires i < U256_LIMIT && hi <= U256_LIMIT
    ensures MessageKey(i) in MessageKeys(lo, hi) <==> lo <= i < hi
  {
    KeysDistinct();
    hide MessageKey, IndexOf;
    if MessageKey(i) in MessageKeys(lo, hi) {
      var j: nat :| lo <= j < hi && MessageKey(j) == MessageKey(i);
      assert IndexOf(MessageKey(i)) == IndexOf(MessageKey(j));
    }
  }

  lemma PoppedReads(kv: Store, head: nat, target: nat)
    requires QueueUint(kv, HEAD_KEY) == Ok(head) && target < U256_LIMIT
    requires QueueUint(kv, TAIL_KEY).Ok? && target <= QueueUint(kv, TAIL_KEY).value
    ensures var after := PopTo(kv, target).0;
            && QueueUint(after, HEAD_KEY) == Ok(target)
            && QueueUint(after, TAIL_KEY) == QueueUint(kv, TAIL_KEY)
            && forall i: nat | i < U256_LIMIT ::
                 Load(after, MessageKey(i)) == if head <= i < target then [] else Load(kv, MessageKey(i))
  {
    hide EncodeUint, QueueUint, MessageKey, PopTo, MessageKeys, IndexOf;
    KeysDistinct();
    var after := PopTo(kv, target).0;
    PopReads(kv, head, target, HEAD_KEY);
    TailNotPopped(head, target);
    PopReads(kv, head, target, TAIL_KEY);
    SameUint(after, kv, TAIL_KEY);
    StoredUint(after, HEAD_KEY, target);
    forall i: nat | i < U256_LIMIT
      ensures Load(after, MessageKey(i)) == if head <= i < target then [] else Load(kv, MessageKey(i))
    {
      PopReads(kv, head, target, MessageKey(i));
      IndexInRange(head, target, i);
    }
  }

  lemma TailNotPopped(lo: nat, hi: nat)
    ensures TAIL_KEY !in MessageKeys(lo, hi)
  {
    KeysDistinct();
    hide MessageKey;
  }

  /** The queue from a target on; the slots of messages already popped read as empty ones. */
  function PoppedQueue(q: MessageQueue.Queue, target: nat): (r: MessageQueue.Queue)
    requires target <= q.Tail()
    ensures r.Tail() == q.Tail()
  {
    if target >= q.head then MessageQueue.Queue(target, q.items[target - q.head..])
    else MessageQueue.Queue(target, seq(q.head - target, _ => []) + q.items)
  }

  lemma DroppedReads(kv: Store, after: Store, q: MessageQueue.Queue, target: nat)
    requires Represents(kv, q) && target <= q.Tail()
    requires QueueUint(after, HEAD_KEY) == Ok(target) && QueueUint(after, TAIL_KEY) == QueueUint(kv, TAIL_KEY)
    requires forall i: nat | i < U256_LIMIT ::
               Load(after, MessageKey(i)) == if q.head <= i < target then [] else Load(kv, MessageKey(i))
    ensures Represents(after, PoppedQueue(q, target))
  {
    hide QueueUint, MessageKey, Load;
  }

  /**
    _popTo succeeds exactly up to the tail. From the head on it drops the messages before its
    target; before the head it moves the head back over slots that now read as empty messages.
   */
  lemma PopToDrops(kv: Store, q: MessageQueue.Queue, target: nat)
    requires Represents(kv, q)
    ensures PopTo(kv, target).1 == if target <= q.Tail() then Pass else Fail(InvalidPopTarget(target, q.Tail()))
    ensures target <= q.Tail() ==> Represents(PopTo(kv, target).0, PoppedQueue(q, target))
    ensures SameOutsideQueue(kv, PopTo(kv, target).0)
  {
    hide QueueUint, MessageKey, MessageKeys, Load;
    if target <= q.Tail() {
      PoppedReads(kv, q.head, target);
      DroppedReads(kv, PopTo(kv, target).0, q, target);
    }
    PopOutsideQueue(kv, target);
  }
}
