/**
  The trace of a session: every read with the value the worker was given, every buffered
  write, every message polled and every poll that found none. The session's cache is a
  function of the trace.
 */
module SessionCache {
  import opened Wrappers
  import opened ByteCodec
  import opened KvStore
  import opened Session

  datatype Op =
    | Read(key: Key, result: Option<Value>)
    | Write(key: Key, value: Option<Value>)
    | Poll(message: Bytes)
    | Empty

  function UpdatesOf(trace: seq<Op>): map<Key, Option<Value>> {
    if trace == [] then map[] else
    var front, last := UpdatesOf(trace[..|trace| - 1]), trace[|trace| - 1];
    if last.Write? then front[last.key := last.value] else front
  }

  /** The reads that went to the remote store: the first one of each key not written before. */
  function ReadsOf(trace: seq<Op>): map<Key, Option<Value>> {
    if trace == [] then map[] else
    var front, last := trace[..|trace| - 1], trace[|trace| - 1];
    if last.Read? && last.key !in UpdatesOf(front) && last.key !in ReadsOf(front)
    then ReadsOf(front)[last.key := last.result]
    else ReadsOf(front)
  }

  function Polls(trace: seq<Op>): seq<Bytes> {
    if trace == [] then [] else
    var front, last := Polls(trace[..|trace| - 1]), trace[|trace| - 1];
    if last.Poll? then front + [last.message] else front
  }

  /** There is something to commit: a buffered write, a polled message or a reply. */
  predicate HasWork(trace: seq<Op>, replies: seq<Bytes>) {
    UpdatesOf(trace) != map[] || Polls(trace) != [] || replies != []
  }

  /** The trace with the polls that found nothing left out. */
  function WithoutEmpty(trace: seq<Op>): seq<Op> {
    if trace == [] then [] else
    var front, last := WithoutEmpty(trace[..|trace| - 1]), trace[|trace| - 1];
    if last.Empty? then front else front + [last]
  }

  /** They are no part of what a session reads, writes or takes. */
  lemma {:induction false} EmptyAddsNothing(trace: seq<Op>)
    ensures UpdatesOf(WithoutEmpty(trace)) == UpdatesOf(trace)
    ensures ReadsOf(WithoutEmpty(trace)) == ReadsOf(trace)
    ensures Polls(WithoutEmpty(trace)) == Polls(trace)
  {
    if trace != [] {
      var front, last := trace[..|trace| - 1], trace[|trace| - 1];
      EmptyAddsNothing(front);
      if !last.Empty? {
        assert WithoutEmpty(trace)[..|WithoutEmpty(front)|] == WithoutEmpty(front);
      }
    }
  }

  /** Every read that did not go to the remote store returned what the session already had. */
  ghost predicate CacheOk(trace: seq<Op>) {
    trace == [] ||
    var front, last := trace[..|trace| - 1], trace[|trace| - 1];
    && CacheOk(front)
    && (last.Read? ==>
          && (last.key in UpdatesOf(front) ==> last.result == UpdatesOf(front)[last.key])
          && (last.key !in UpdatesOf(front) && last.key in ReadsOf(front) ==>
                last.result == ReadsOf(front)[last.key]))
  }

  /** The session's cache is the one its trace describes. */
  ghost predicate MatchesTrace(s: SessionState, trace: seq<Op>) {
    && s.values.entries == ReadsOf(trace)
    && s.updates.entries == UpdatesOf(trace)
    && CacheOk(trace)
  }

  lemma ReadKeepsTrace(s: SessionState, trace: seq<Op>, key: Key, remote: Store)
    requires MatchesTrace(s, trace)
    ensures var (s', r) := GetValue(s, key, remote);
            MatchesTrace(s', trace + [Read(key, r)])
  {
    var trace' := trace + [Read(key, GetValue(s, key, remote).1)];
    assert trace'[..|trace'| - 1] == trace;
  }

  lemma WriteKeepsTrace(s: SessionState, trace: seq<Op>, key: Key, value: Option<Value>)
    requires MatchesTrace(s, trace)
    ensures MatchesTrace(SetValue(s, key, value), trace + [Write(key, value)])
  {
    var trace' := trace + [Write(key, value)];
    assert trace'[..|trace'| - 1] == trace;
  }

  lemma PollKeepsTrace(s: SessionState, trace: seq<Op>, message: Bytes)
    requires MatchesTrace(s, trace)
    ensures MatchesTrace(s, trace + [Poll(message)])
    ensures Polls(trace + [Poll(message)]) == Polls(trace) + [message]
  {
    var trace' := trace + [Poll(message)];
    assert trace'[..|trace'| - 1] == trace;
  }

  lemma EmptyKeepsTrace(s: SessionState, trace: seq<Op>)
    requires MatchesTrace(s, trace)
    ensures MatchesTrace(s, trace + [Empty])
    ensures Polls(trace + [Empty]) == Polls(trace)
  {
    var trace' := trace + [Empty];
    assert trace'[..|trace'| - 1] == trace;
  }

  // ---------- any sequence of calls, the remote store changing in between ----------

  datatype Call = ReadCall(key: Key, remote: Store) | WriteCall(key: Key, value: Option<Value>)

  /** A new session after some calls. */
  function SessionAfter(calls: seq<Call>): SessionState {
    if calls == [] then NEW_SESSION else
    var before := SessionAfter(calls[..|calls| - 1]);
    match calls[|calls| - 1]
    case ReadCall(key, remote) => GetValue(before, key, remote).0
    case WriteCall(key, value) => SetValue(before, key, value)
  }

  /** Call i is the last write of a key. */
  ghost predicate LastWriteAt(calls: seq<Call>, i: nat, key: Key) {
    && i < |calls| && calls[i].WriteCall? && calls[i].key == key
    && forall j | i < j < |calls| :: !(calls[j].WriteCall? && calls[j].key == key)
  }

  /** Call i is the first call about a key, and it is a read. */
  ghost predicate FirstReadAt(calls: seq<Call>, i: nat, key: Key) {
    && i < |calls| && calls[i].ReadCall? && calls[i].key == key
    && forall j | 0 <= j < i :: calls[j].key != key
  }

  /** How the last call changes the buffered writes and the cached reads. */
  lemma LastCallStep(calls: seq<Call>)
    requires calls != []
    ensures var n := |calls| - 1;
            var before, after := SessionAfter(calls[..n]), SessionAfter(calls);
            match calls[n]
            case WriteCall(k, v) =>
              after.updates.entries == before.updates.entries[k := v] && after.values == before.values
            case ReadCall(k, remote) =>
              && after.updates == before.updates
              && after.values.entries ==
                 if k in before.updates.entries || k in before.values.entries then before.values.entries
                 else before.values.entries[k := Get(remote, k)]
  {
  }

  lemma LastWriteExtends(calls: seq<Call>, i: nat, key: Key)
    requires calls != [] && !(calls[|calls| - 1].WriteCall? && calls[|calls| - 1].key == key)
    requires LastWriteAt(calls[..|calls| - 1], i, key)
    ensures LastWriteAt(calls, i, key)
  {
    var front := calls[..|calls| - 1];
    forall j | i < j < |calls| ensures !(calls[j].WriteCall? && calls[j].key == key) {
      if j < |front| {
        assert calls[j] == front[j];
      }
    }
  }

  lemma {:induction false} LastWriteIsBuffered(calls: seq<Call>, i: nat, key: Key)
    requires LastWriteAt(calls, i, key)
    ensures key in SessionAfter(calls).updates.entries
    ensures SessionAfter(calls).updates.entries[key] == calls[i].value
  {
    hide SessionAfter;
    LastCallStep(calls);
    var n := |calls| - 1;
    if i < n {
      LastWriteIsBuffered(calls[..n], i, key);
    }
  }

  lemma {:induction false} BufferedWasWritten(calls: seq<Call>, key: Key) returns (i: nat)
    requires key in SessionAfter(calls).updates.entries
    ensures LastWriteAt(calls, i, key)
  {
    var n := |calls| - 1;
    if calls[n].WriteCall? && calls[n].key == key {
      i := n;
    } else {
      LastCallStep(calls);
      i := BufferedWasWritten(calls[..n], key);
      LastWriteExtends(calls, i, key);
    }
  }

  /** Any call about a key leaves the key buffered or cached. */
  lemma {:induction false} TouchedIsHeld(calls: seq<Call>, j: nat, key: Key)
    requires j < |calls| && calls[j].key == key
    ensures key in SessionAfter(calls).updates.entries || key in SessionAfter(calls).values.entries
  {
    hide SessionAfter;
    LastCallStep(calls);
    var n := |calls| - 1;
    if j < n {
      TouchedIsHeld(calls[..n], j, key);
    }
  }

  lemma {:induction false} UntouchedIsNotHeld(calls: seq<Call>, key: Key)
    requires forall j | 0 <= j < |calls| :: calls[j].key != key
    ensures key !in SessionAfter(calls).updates.entries && key !in SessionAfter(calls).values.entries
  {
    if calls != [] {
      var n := |calls| - 1;
      assert calls[n].key != key;
      UntouchedIsNotHeld(calls[..n], key);
    }
  }

  lemma {:induction false} FirstReadIsCached(calls: seq<Call>, i: nat, key: Key)
    requires FirstReadAt(calls, i, key)
    ensures key in SessionAfter(calls).values.entries
    ensures SessionAfter(calls).values.entries[key] == Get(calls[i].remote, key)
  {
    hide SessionAfter;
    LastCallStep(calls);
    var n := |calls| - 1;
    if i < n {
      FirstReadIsCached(calls[..n], i, key);
    } else {
      UntouchedIsNotHeld(calls[..n], key);
    }
  }

  lemma {:induction false} CachedWasFirstRead(calls: seq<Call>, key: Key) returns (i: nat)
    requires key in SessionAfter(calls).values.entries
    ensures FirstReadAt(calls, i, key)
  {
    var n := |calls| - 1;
    var front := calls[..n];
    if key in SessionAfter(front).values.entries {
      i := CachedWasFirstRead(front, key);
      assert forall j | 0 <= j < i :: calls[j] == front[j];
    } else {
      i := n;
      LastCallStep(calls);
      forall j | 0 <= j < n ensures calls[j].key != key {
        if front[j].key == key {
          TouchedIsHeld(front, j, key);
        }
      }
    }
  }

  /**
    getValue after any calls, whatever the remote store did in between, is the latest write
    of the key; failing that, what the remote store held when the key was first read; and
    only for a key never seen before, what it holds now.
   */
  lemma GetValueMeaning(calls: seq<Call>, key: Key, remote: Store)
    ensures var result := GetValue(SessionAfter(calls), key, remote).1;
            && (forall i: nat | LastWriteAt(calls, i, key) :: result == calls[i].value)
            && ((forall i: nat :: !LastWriteAt(calls, i, key)) ==>
                  && (forall i: nat | FirstReadAt(calls, i, key) :: result == Get(calls[i].remote, key))
                  && ((forall i: nat :: !FirstReadAt(calls, i, key)) ==> result == Get(remote, key)))
  {
    var s := SessionAfter(calls);
    forall i: nat | LastWriteAt(calls, i, key) ensures GetValue(s, key, remote).1 == calls[i].value {
      LastWriteIsBuffered(calls, i, key);
    }
    forall i: nat | FirstReadAt(calls, i, key)
      ensures key in s.values.entries && s.values.entries[key] == Get(calls[i].remote, key)
    {
      FirstReadIsCached(calls, i, key);
    }
    if key in s.updates.entries {
      var i := BufferedWasWritten(calls, key);
    } else if key in s.values.entries {
      var i := CachedWasFirstRead(calls, key);
    }
  }

  /** Some call was the first about this key, and a read that gave this value. */
  ghost predicate IsFirstRead(calls: seq<Call>, pair: (Key, Option<Value>)) {
    exists i: nat :: FirstReadAt(calls, i, pair.0) && pair.1 == Get(calls[i].remote, pair.0)
  }

  lemma CachedIsFirstRead(calls: seq<Call>, key: Key)
    requires key in SessionAfter(calls).values.entries
    ensures IsFirstRead(calls, (key, SessionAfter(calls).values.entries[key]))
  {
    hide SessionAfter;
    var i := CachedWasFirstRead(calls, key);
    FirstReadIsCached(calls, i, key);
  }

  /**
    The conditions a commit sends are exactly the first reads: one entry for each key whose
    first call was a read, with the value read then, and no key twice.
   */
  lemma ConditionsAreFirstReads(calls: seq<Call>)
    ensures var pairs := SessionAfter(calls).values.Pairs();
            && (forall a, b | 0 <= a < b < |pairs| :: pairs[a].0 != pairs[b].0)
            && (forall a | 0 <= a < |pairs| :: IsFirstRead(calls, pairs[a]))
            && (forall i: nat, key | FirstReadAt(calls, i, key) ::
                  exists a :: 0 <= a < |pairs| && pairs[a] == (key, Get(calls[i].remote, key)))
  {
    hide SessionAfter, IsFirstRead;
    var values := SessionAfter(calls).values;
    var pairs := values.Pairs();
    forall a | 0 <= a < |pairs| ensures IsFirstRead(calls, pairs[a]) {
      CachedIsFirstRead(calls, values.keys[a]);
    }
    forall i: nat, key | FirstReadAt(calls, i, key)
      ensures exists a :: 0 <= a < |pairs| && pairs[a] == (key, Get(calls[i].remote, key))
    {
      FirstReadIsCached(calls, i, key);
      var a :| 0 <= a < |values.keys| && values.keys[a] == key;
      assert pairs[a] == (key, values.entries[key]);
    }
  }
}
