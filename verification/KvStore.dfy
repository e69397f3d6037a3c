/** The flat key-value store kept by the contract. */
module KvStore {
  import opened Wrappers
  import opened ByteCodec

  type Key = Bytes
  type Value = Bytes
  type Store = map<Key, Value>

  function Get(kv: Store, key: Key): Option<Value> {
    if key in kv then Some(kv[key]) else None
  }

  /** Inserts a value, or removes the key when there is none. */
  function Set(kv: Store, key: Key, value: Option<Value>): (r: Store)
    ensures Get(r, key) == value
    ensures forall k | k != key :: Get(r, k) == Get(kv, k)
  {
    match value
    case None => kv - {key}
    case Some(v) => kv[key := v]
  }

  /** Two stores with the same reads are the same store. */
  lemma SameReads(a: Store, b: Store)
    requires forall k :: Get(a, k) == Get(b, k)
    ensures a == b
  {
    forall k ensures k in a <==> k in b {
      assert Get(a, k) == Get(b, k);
    }
    forall k | k in a ensures a[k] == b[k] {
      assert Get(a, k) == Get(b, k);
    }
  }

  /** The store with a set of buffered writes laid over it. */
  function Overlay(kv: Store, writes: map<Key, Option<Value>>): (r: Store)
    ensures forall k :: Get(r, k) == if k in writes then writes[k] else Get(kv, k)
  {
    map k | k in kv.Keys + writes.Keys && (k in writes ==> writes[k].Some?)
      :: if k in writes then writes[k].value else kv[k]
  }

  /** One more buffered write is one more write on the overlaid store. */
  lemma OverlayWrite(kv: Store, writes: map<Key, Option<Value>>, key: Key, value: Option<Value>)
    ensures Set(Overlay(kv, writes), key, value) == Overlay(kv, writes[key := value])
  {
    SameReads(Set(Overlay(kv, writes), key, value), Overlay(kv, writes[key := value]));
  }

  /** A write outside the buffered keys can be made before or after them. */
  lemma OverlayCommutes(kv: Store, writes: map<Key, Option<Value>>, key: Key, value: Option<Value>)
    requires key !in writes
    ensures Set(Overlay(kv, writes), key, value) == Overlay(Set(kv, key, value), writes)
  {
    SameReads(Set(Overlay(kv, writes), key, value), Overlay(Set(kv, key, value), writes));
  }
}
