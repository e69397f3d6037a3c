/**
  The Solidity anchor and the client's representation of store and actions for it. The
  contract's mapping has no absence: a key without a value reads as the empty byte string.
  A revert restores the storage; the functions here give what is left before that.
 */
module EvmAnchor {
  import opened Wrappers
  import opened ByteCodec
  import opened KvStore
  import opened AccessControl
  import MessageQueue
  import RollupClient

  type Nonces = RollupClient.Nonces

  const QUEUE_PREFIX: Bytes := MessageQueue.QUEUE_PREFIX
  const HEAD_KEY: Key := MessageQueue.HEAD_KEY
  const TAIL_KEY: Key := MessageQueue.TAIL_KEY

  datatype Revert =
    | BadAttestor
    | InvalidSignature
    | MetaTxSignatureNotMatch
    | BadCondLen
    | BadUpdateLen
    | CondNotMet(key: Key)
    | CannotDecodeAction(id: nat)
    | UnsupportedAction(id: nat)
    | InvalidPopTarget(target: nat, tail: nat)
    | BadEncoding
    | ArithmeticPanic
    | IndexPanic
    | HandlerReverted

  datatype Anchor<H> = Anchor(kv: Store, attestors: set<Address>, nonces: Nonces, app: H)

  /** _onMessageReceived; None is a revert. */
  type EvmHandler<!H> = (H, Bytes) -> Option<H>

  datatype EvmParams = EvmParams(
    condKeys: seq<Bytes>, condValues: seq<Bytes>, updateKeys: seq<Bytes>, updateValues: seq<Bytes>, actions: seq<Bytes>)

  // ---------- storage ----------

  function Load(kv: Store, key: Key): Bytes {
    if key in kv then kv[key] else []
  }

  /** Writing the empty string is the same as deleting. */
  function Save(kv: Store, key: Key, value: Bytes): (r: Store)
    ensures Load(r, key) == value
    ensures forall k | k != key :: Load(r, k) == Load(kv, k)
  {
    if value == [] then kv - {key} else kv[key := value]
  }

  /** abi.encode of a uint. */
  function EncodeUint(n: nat): (b: Bytes)
    ensures |b| == 32
  {
    EncodeBE(n, 32)
  }

  /** abi.decode of a uint: fewer than 32 bytes reverts, more are ignored. */
  function DecodeUint(b: Bytes): Option<nat> {
    if |b| < 32 then None else Some(DecodeBE(b[..32]))
  }

  lemma DecodeEncodeUint(n: nat, tail: Bytes)
    requires n < U256_LIMIT
    ensures DecodeUint(EncodeUint(n) + tail) == Some(n)
  {
    Widths();
    RoundTripBE(n, 32);
    assert (EncodeUint(n) + tail)[..32] == EncodeUint(n);
  }

  function QueueUint(kv: Store, key: Key): Result<nat, Revert> {
    var stored := Load(kv, key);
    if stored == [] then Ok(0) else
    match DecodeUint(stored)
    case None => Err(BadEncoding)
    case Some(n) => Ok(n)
  }

  function MessageKey(index: nat): Key {
    QUEUE_PREFIX + EncodeUint(index)
  }

  /** A word is big-endian, and a message's key is the prefix and the word of its index. */
  lemma WordBytes(n: nat, i: nat)
    requires i < 32
    ensures EncodeUint(n)[31 - i] == n / Pow256(i) % 256
    ensures MessageKey(n) == [0x71, 0x2f] + EncodeUint(n)
  {
    BytePositions(n, 32, i);
  }

  function MessageKeys(lo: nat, hi: nat): set<Key> {
    set i: nat | lo <= i < hi :: MessageKey(i)
  }

  function Push(kv: Store, data: Bytes): (Store, Result<nat, Revert>) {
    match QueueUint(kv, TAIL_KEY)
    case Err(e) => (kv, Err(e))
    case Ok(tail) =>
      var written := Save(kv, MessageKey(tail), data);
      if tail + 1 >= U256_LIMIT then (written, Err(ArithmeticPanic))
      else (Save(written, TAIL_KEY, EncodeUint(tail + 1)), Ok(tail))
  }

  /** Unlike the ink! contract's, this pop has no lower bound: the head always moves to the target. */
  function PopTo(kv: Store, target: nat): (Store, Outcome<Revert>) {
    match QueueUint(kv, TAIL_KEY)
    case Err(e) => (kv, Fail(e))
    case Ok(tail) =>
      if target > tail then (kv, Fail(InvalidPopTarget(target, tail))) else
      match QueueUint(kv, HEAD_KEY)
      case Err(e) => (kv, Fail(e))
      case Ok(head) => (Save(kv - MessageKeys(head, target), HEAD_KEY, EncodeUint(target)), Pass)
  }

  // ---------- actions ----------

  datatype EvmAction =
    | Reply(data: Bytes)
    | SetQueueHead(index: nat)
    | GrantAttestor(account: Address)
    | RevokeAttestor(account: Address)

  /** abi.decode of an address: one word whose upper twelve bytes are zero. */
  function DecodeAddress(b: Bytes): Option<Address> {
    if |b| < 32 || b[..12] != EncodeBE(0, 12) then None else Some(b[12..32])
  }

  function DecodeAction(action: Bytes): Result<EvmAction, Revert> {
    if action == [] then Err(IndexPanic) else
    var id, rest := action[0], action[1..];
    if id == 0 then Ok(Reply(rest))
    else if id == 1 then
      (match DecodeUint(rest)
       case None => Err(CannotDecodeAction(1))
       case Some(index) => Ok(SetQueueHead(index)))
    else if id == 2 || id == 3 then
      if |action| < 21 then Err(CannotDecodeAction(id)) else
      (match DecodeAddress(rest)
       case None => Err(BadEncoding)
       case Some(account) => Ok(if id == 2 then GrantAttestor(account) else RevokeAttestor(account)))
    else Err(UnsupportedAction(id))
  }

  function HandleAction<H>(handler: EvmHandler<H>, s: Anchor<H>, action: Bytes): (Anchor<H>, Outcome<Revert>) {
    match DecodeAction(action)
    case Err(e) => (s, Fail(e))
    case Ok(Reply(data)) =>
      (match handler(s.app, data)
       case None => (s, Fail(HandlerReverted))
       case Some(app) => (s.(app := app), Pass))
    case Ok(SetQueueHead(index)) =>
      var (kv, outcome) := PopTo(s.kv, index);
      (s.(kv := kv), outcome)
    case Ok(GrantAttestor(account)) => (s.(attestors := s.attestors + {account}), Pass)
    case Ok(RevokeAttestor(account)) => (s.(attestors := s.attestors - {account}), Pass)
  }

  function HandleActions<H>(handler: EvmHandler<H>, s: Anchor<H>, actions: seq<Bytes>): (Anchor<H>, Outcome<Revert>) {
    if actions == [] then (s, Pass) else
    match HandleActions(handler, s, actions[..|actions| - 1])
    case (mid, Fail(e)) => (mid, Fail(e))
    case (mid, Pass) => HandleAction(handler, mid, actions[|actions| - 1])
  }

  // ---------- the rollup ----------

  function ApplyWrites(kv: Store, keys: seq<Bytes>, values: seq<Bytes>): Store
    requires |keys| == |values|
  {
    if keys == [] then kv else
    var n := |keys| - 1;
    Save(ApplyWrites(kv, keys[..n], values[..n]), keys[n], values[n])
  }

  /** The first condition that does not hold, if any. */
  function FirstUnmet(kv: Store, keys: seq<Bytes>, values: seq<Bytes>): Option<Key>
    requires |keys| == |values|
  {
    if keys == [] then None
    else if Load(kv, keys[0]) != values[0] then Some(keys[0])
    else FirstUnmet(kv, keys[1..], values[1..])
  }

  function RollupInternal<H>(handler: EvmHandler<H>, s: Anchor<H>, params: EvmParams): (Anchor<H>, Outcome<Revert>) {
    if |params.condKeys| != |params.condValues| then (s, Fail(BadCondLen))
    else if |params.updateKeys| != |params.updateValues| then (s, Fail(BadUpdateLen))
    else
      match FirstUnmet(s.kv, params.condKeys, params.condValues)
      case Some(key) => (s, Fail(CondNotMet(key)))
      case None =>
        HandleActions(handler, s.(kv := ApplyWrites(s.kv, params.updateKeys, params.updateValues)), params.actions)
  }

  /** The contract may call itself; anybody else needs the role. */
  function RollupInner<H>(handler: EvmHandler<H>, self: Address, s: Anchor<H>, sender: Address, params: EvmParams)
    : (Anchor<H>, Outcome<Revert>)
  {
    if sender != self && sender !in s.attestors then (s, Fail(BadAttestor)) else RollupInternal(handler, s, params)
  }

  /** A transaction that reverts leaves the storage as it found it. */
  function Transaction<H>(before: Anchor<H>, result: (Anchor<H>, Outcome<Revert>)): (Anchor<H>, Outcome<Revert>) {
    if result.1.Pass? then result else (before, result.1)
  }

  function Rollup<H>(handler: EvmHandler<H>, self: Address, s: Anchor<H>, sender: Address, params: EvmParams)
    : (Anchor<H>, Outcome<Revert>)
  {
    Transaction(s, RollupInner(handler, self, s, sender, params))
  }

  // ---------- the client's encoding ----------

  function EncodeKeyValue(entry: RollupClient.KeyValue): (Bytes, Bytes) {
    (entry.0, entry.1.GetOr([]))
  }

  function EncodeReply(data: Bytes): Bytes {
    [0] + data
  }

  function EncodeSetQueueHead(index: nat): Bytes {
    [1] + EncodeUint(index)
  }

  /** A remote read: an empty answer is no value. */
  function RemoteValue(kv: Store, key: Key): Option<Value> {
    var value := Load(kv, key);
    if value == [] then None else Some(value)
  }

  function KeysOf(entries: seq<RollupClient.KeyValue>): (r: seq<Bytes>)
    ensures |r| == |entries| && forall i | 0 <= i < |r| :: r[i] == EncodeKeyValue(entries[i]).0
  {
    seq(|entries|, i requires 0 <= i < |entries| => EncodeKeyValue(entries[i]).0)
  }

  function ValuesOf(entries: seq<RollupClient.KeyValue>): (r: seq<Bytes>)
    ensures |r| == |entries| && forall i | 0 <= i < |r| :: r[i] == EncodeKeyValue(entries[i]).1
  {
    seq(|entries|, i requires 0 <= i < |entries| => EncodeKeyValue(entries[i]).1)
  }

  // ---------- the store against the Option-valued one ----------

  /** Every read agrees, absence reading as empty. */
  ghost predicate LoadsAgree(evm: Store, ink: Store) {
    forall k :: Load(evm, k) == Get(ink, k).GetOr([])
  }

  /** Where no value is empty, a client reads the same from both. */
  lemma RemoteReadsAgree(evm: Store, ink: Store, key: Key)
    requires LoadsAgree(evm, ink)
    ensures RemoteValue(evm, key) == Get(ink, key) <==> Get(ink, key) != Some([])
  {
    assert Load(evm, key) == Get(ink, key).GetOr([]);
  }

  /**
    One condition. Whatever the ink! store accepts the Solidity store accepts; it accepts more
    exactly when one side is absent and the other is the empty value.
   */
  lemma ConditionAgreesExactlyWhen(evm: Store, ink: Store, entry: RollupClient.KeyValue)
    requires LoadsAgree(evm, ink)
    ensures var inkHolds := Get(ink, entry.0) == entry.1;
            var evmHolds := Load(evm, entry.0) == EncodeKeyValue(entry).1;
            && (inkHolds ==> evmHolds)
            && (evmHolds && !inkHolds <==>
                  (Get(ink, entry.0) == None && entry.1 == Some([])) || (Get(ink, entry.0) == Some([]) && entry.1 == None))
  {
    assert Load(evm, entry.0) == Get(ink, entry.0).GetOr([]);
  }

  lemma {:induction false} FirstUnmetMeaning(kv: Store, keys: seq<Bytes>, values: seq<Bytes>)
    requires |keys| == |values|
    ensures FirstUnmet(kv, keys, values) == None <==> forall i | 0 <= i < |keys| :: Load(kv, keys[i]) == values[i]
  {
    if keys == [] {
    } else {
      FirstUnmetMeaning(kv, keys[1..], values[1..]);
      if FirstUnmet(kv, keys, values) == None {
        forall i | 0 <= i < |keys| ensures Load(kv, keys[i]) == values[i] {
          if i > 0 {
            assert keys[i] == keys[1..][i - 1] && values[i] == values[1..][i - 1];
          }
        }
      } else if Load(kv, keys[0]) == values[0] {
        var i :| 0 <= i < |keys[1..]| && Load(kv, keys[1..][i]) != values[1..][i];
        assert Load(kv, keys[i + 1]) != values[i + 1];
      }
    }
  }

  /**
    A whole list of conditions. The ink! store accepts it exactly when the Solidity store does and
    no key is absent on one side and present on the other, which only an empty value can hide.
   */
  lemma ConditionsAgree(evm: Store, ink: Store, conditions: seq<RollupClient.KeyValue>)
    requires forall i | 0 <= i < |conditions| :: Load(evm, conditions[i].0) == Get(ink, conditions[i].0).GetOr([])
    ensures RollupClient.ConditionsMet(ink, conditions) <==>
              && FirstUnmet(evm, KeysOf(conditions), ValuesOf(conditions)) == None
              && forall i | 0 <= i < |conditions| :: Get(ink, conditions[i].0).None? <==> conditions[i].1.None?
  {
    FirstUnmetMeaning(evm, KeysOf(conditions), ValuesOf(conditions));
    forall i | 0 <= i < |conditions|
      ensures Load(evm, KeysOf(conditions)[i]) == ValuesOf(conditions)[i] <==>
              Get(ink, conditions[i].0).GetOr([]) == conditions[i].1.GetOr([])
    {
    }
  }

  /** So where neither store nor list has an empty value, both accept the same lists. */
  lemma ConditionsAgreeWithoutEmpty(evm: Store, ink: Store, conditions: seq<RollupClient.KeyValue>)
    requires forall i | 0 <= i < |conditions| ::
               Load(evm, conditions[i].0) == Get(ink, conditions[i].0).GetOr([]) && Get(ink, conditions[i].0) != Some([])
    requires forall i | 0 <= i < |conditions| :: conditions[i].1 != Some([])
    ensures FirstUnmet(evm, KeysOf(conditions), ValuesOf(conditions)) == None <==>
            RollupClient.ConditionsMet(ink, conditions)
  {
    ConditionsAgree(evm, ink, conditions);
    FirstUnmetMeaning(evm, KeysOf(conditions), ValuesOf(conditions));
    if FirstUnmet(evm, KeysOf(conditions), ValuesOf(conditions)) == None {
      forall i | 0 <= i < |conditions| ensures Get(ink, conditions[i].0).None? <==> conditions[i].1.None? {
        assert Load(evm, KeysOf(conditions)[i]) == ValuesOf(conditions)[i];
      }
    }
  }

  /** Key by key, updates keep the reads in agreement, whatever they write. */
  lemma {:induction false} UpdatesAgreeAt(evm: Store, ink: Store, updates: seq<RollupClient.KeyValue>, key: Key)
    requires Load(evm, key) == Get(ink, key).GetOr([])
    ensures Load(ApplyWrites(evm, KeysOf(updates), ValuesOf(updates)), key) ==
            Get(RollupClient.ApplyUpdates(ink, updates), key).GetOr([])
  {
    hide Load, Get, Set, Save;
    if updates != [] {
      var n := |updates| - 1;
      UpdatesAgreeAt(evm, ink, updates[..n], key);
      assert KeysOf(updates)[..n] == KeysOf(updates[..n]);
      assert ValuesOf(updates)[..n] == ValuesOf(updates[..n]);
    }
  }

  lemma UpdatesAgree(evm: Store, ink: Store, updates: seq<RollupClient.KeyValue>)
    requires LoadsAgree(evm, ink)
    ensures LoadsAgree(ApplyWrites(evm, KeysOf(updates), ValuesOf(updates)), RollupClient.ApplyUpdates(ink, updates))
  {
    forall k
      ensures Load(ApplyWrites(evm, KeysOf(updates), ValuesOf(updates)), k) ==
              Get(RollupClient.ApplyUpdates(ink, updates), k).GetOr([])
    {
      UpdatesAgreeAt(evm, ink, updates, k);
    }
  }

  /** Updates that write no empty value leave none at a key that had none. */
  lemma {:induction false} UpdatesKeepNoEmptyValue(ink: Store, updates: seq<RollupClient.KeyValue>, key: Key)
    requires Get(ink, key) != Some([])
    requires forall i | 0 <= i < |updates| :: updates[i].1 != Some([])
    ensures Get(RollupClient.ApplyUpdates(ink, updates), key) != Some([])
  {
    if updates != [] {
      UpdatesKeepNoEmptyValue(ink, updates[..|updates| - 1], key);
    }
  }

  // ---------- actions ----------

  /** The contract recovers exactly the reply or the head index the client encoded. */
  lemma ActionsRecovered(data: Bytes, index: nat)
    requires index < U256_LIMIT
    ensures DecodeAction(EncodeReply(data)) == Ok(Reply(data))
    ensures DecodeAction(EncodeSetQueueHead(index)) == Ok(SetQueueHead(index))
  {
    assert EncodeReply(data)[1..] == data;
    assert EncodeSetQueueHead(index)[1..] == EncodeUint(index) + [];
    DecodeEncodeUint(index, []);
  }

  /** abi.encode of an address: twelve zero bytes before it. */
  function EncodeAddress(account: Address): (b: Bytes)
    ensures |b| == 32
  {
    seq(12, _ => 0) + account
  }

  lemma {:induction false} ZeroBytes(w: nat)
    ensures EncodeBE(0, w) == seq(w, _ => 0)
    decreases w
  {
    if w > 0 {
      ZeroBytes(w - 1);
    }
  }

  /**
    Which bytes are read as which action: the kind's own byte, then the whole rest as a reply, and
    for the other kinds one word, behind which everything is ignored.
   */
  lemma ActionsAreRead(action: Bytes, data: Bytes, index: nat, account: Address)
    ensures DecodeAction(action) == Ok(Reply(data)) <==> action == [0] + data
    ensures index < U256_LIMIT ==>
              (DecodeAction(action) == Ok(SetQueueHead(index)) <==> [1] + EncodeUint(index) <= action)
    ensures DecodeAction(action) == Ok(GrantAttestor(account)) <==> [2] + EncodeAddress(account) <= action
    ensures DecodeAction(action) == Ok(RevokeAttestor(account)) <==> [3] + EncodeAddress(account) <= action
  {
    hide EncodeBE, DecodeBE;
    if action != [] {
      assert action == [action[0]] + action[1..];
      if index < U256_LIMIT {
        WordIsRead(action, index);
      }
      AddressIsRead(action, account);
    }
  }

  lemma WordIsRead(action: Bytes, index: nat)
    requires action != [] && index < U256_LIMIT
    ensures DecodeUint(action[1..]) == Some(index) <==> [action[0]] + EncodeUint(index) <= action
  {
    hide EncodeBE, DecodeBE;
    var rest := action[1..];
    if |rest| >= 32 {
      EncodeDecodeBE(rest[..32]);
      assert action[..33] == [action[0]] + rest[..32];
      if [action[0]] + EncodeUint(index) <= action {
        assert ([action[0]] + EncodeUint(index))[1..] == EncodeUint(index);
        assert rest[..32] == EncodeUint(index);
        DecodeEncodeUint(index, []);
        assert EncodeUint(index) + [] == EncodeUint(index);
      }
    }
  }

  lemma AddressIsRead(action: Bytes, account: Address)
    requires action != []
    ensures DecodeAddress(action[1..]) == Some(account) <==> [action[0]] + EncodeAddress(account) <= action
  {
    hide EncodeBE;
    ZeroBytes(12);
    var rest := action[1..];
    if |rest| >= 32 {
      assert action[..33] == [action[0]] + (rest[..12] + rest[12..32]);
      if [action[0]] + EncodeAddress(account) <= action {
        assert ([action[0]] + EncodeAddress(account))[1..] == EncodeAddress(account);
        assert rest[..32] == EncodeAddress(account);
        assert rest[..12] == EncodeAddress(account)[..12] && rest[12..32] == EncodeAddress(account)[12..];
      }
    }
  }

  /** Bytes that are none of these, and how they revert. */
  lemma UnreadableActions(action: Bytes)
    ensures action == [] ==> DecodeAction(action) == Err(IndexPanic)
    ensures action != [] && action[0] > 3 ==> DecodeAction(action) == Err(UnsupportedAction(action[0]))
    ensures action != [] && action[0] == 1 && |action| < 33 ==> DecodeAction(action) == Err(CannotDecodeAction(1))
    ensures action != [] && 2 <= action[0] <= 3 && |action| < 21 ==> DecodeAction(action) == Err(CannotDecodeAction(action[0]))
    ensures action != [] && 2 <= action[0] <= 3 && |action| >= 21 ==>
              (DecodeAction(action).Ok? <==> |action| >= 33 && forall i | 1 <= i <= 12 :: action[i] == 0)
              && (DecodeAction(action).Err? ==> DecodeAction(action) == Err(BadEncoding))
  {
    hide EncodeBE;
    ZeroBytes(12);
    if |action| >= 33 {
      assert forall i | 1 <= i <= 12 :: action[i] == action[1..][..12][i - 1];
    }
  }

  // ---------- why a rollup reverts ----------

  /** The first condition that does not hold. */
  ghost predicate FirstUnmetAt(kv: Store, params: EvmParams, i: nat) {
    && i < |params.condKeys| == |params.condValues|
    && Load(kv, params.condKeys[i]) != params.condValues[i]
    && forall j | 0 <= j < i :: Load(kv, params.condKeys[j]) == params.condValues[j]
  }

  lemma {:induction false} FirstUnmetIsFirst(kv: Store, keys: seq<Bytes>, values: seq<Bytes>) returns (i: nat)
    requires |keys| == |values| && FirstUnmet(kv, keys, values).Some?
    ensures i < |keys| && FirstUnmet(kv, keys, values) == Some(keys[i]) && Load(kv, keys[i]) != values[i]
    ensures forall j | 0 <= j < i :: Load(kv, keys[j]) == values[j]
  {
    if Load(kv, keys[0]) != values[0] {
      i := 0;
    } else {
      var k := FirstUnmetIsFirst(kv, keys[1..], values[1..]);
      i := k + 1;
      forall j | 0 <= j < i ensures Load(kv, keys[j]) == values[j] {
        if j > 0 {
          assert keys[j] == keys[1..][j - 1] && values[j] == values[1..][j - 1];
        }
      }
    }
  }

  /**
    A rollup of anybody but an attestor or the contract itself reverts, then one with lists of
    different lengths, then one with a condition that does not hold, by the first such; what is left
    can only be refused by an action. A revert changes nothing.
   */
  lemma RevertReasons<H>(handler: EvmHandler<H>, self: Address, s: Anchor<H>, sender: Address, params: EvmParams)
    ensures var (after, outcome) := Rollup(handler, self, s, sender, params);
            && (outcome.Fail? ==> after == s)
            && (if sender != self && sender !in s.attestors then outcome == Fail(BadAttestor)
                else if |params.condKeys| != |params.condValues| then outcome == Fail(BadCondLen)
                else if |params.updateKeys| != |params.updateValues| then outcome == Fail(BadUpdateLen)
                else if forall i | 0 <= i < |params.condKeys| :: Load(s.kv, params.condKeys[i]) == params.condValues[i] then
                  outcome == HandleActions(
                    handler, s.(kv := ApplyWrites(s.kv, params.updateKeys, params.updateValues)), params.actions).1
                else exists i: nat :: FirstUnmetAt(s.kv, params, i) && outcome == Fail(CondNotMet(params.condKeys[i])))
  {
    hide HandleActions, ApplyWrites, Load;
    if |params.condKeys| == |params.condValues| {
      FirstUnmetMeaning(s.kv, params.condKeys, params.condValues);
      if FirstUnmet(s.kv, params.condKeys, params.condValues).Some? {
        var i := FirstUnmetIsFirst(s.kv, params.condKeys, params.condValues);
        assert FirstUnmetAt(s.kv, params, i);
      }
    }
  }

  // ---------- attestors ----------

  /** The action grants, or revokes, the role of the account. */
  predicate Grants(action: Bytes, account: Address) {
    DecodeAction(action) == Ok(GrantAttestor(account))
  }

  predicate Revokes(action: Bytes, account: Address) {
    DecodeAction(action) == Ok(RevokeAttestor(account))
  }

  /** The last action about the account decides whether it has the role. */
  ghost predicate AttestorAfter(was: bool, actions: seq<Bytes>, account: Address) {
    || (was && forall j | 0 <= j < |actions| :: !Revokes(actions[j], account))
    || exists i :: 0 <= i < |actions| && Grants(actions[i], account)
                   && forall j | i < j < |actions| :: !Revokes(actions[j], account)
  }

  lemma AttestorStep(was: bool, actions: seq<Bytes>, action: Bytes, account: Address)
    ensures AttestorAfter(was, actions + [action], account) <==>
            if Grants(action, account) then true
            else if Revokes(action, account) then false
            else AttestorAfter(was, actions, account)
  {
    var all, n := actions + [action], |actions|;
    assert all[n] == action && forall j | 0 <= j < n :: all[j] == actions[j];
    hide Grants, Revokes;
    if i :| 0 <= i < n && Grants(actions[i], account) && forall j | i < j < n :: !Revokes(actions[j], account) {
      assert Grants(all[i], account);
    }
  }

  lemma OneActionMeaning<H>(handler: EvmHandler<H>, s: Anchor<H>, action: Bytes, account: Address)
    ensures account in HandleAction(handler, s, action).0.attestors <==>
            if Grants(action, account) then true else if Revokes(action, account) then false else account in s.attestors
    ensures Grants(action, account) || Revokes(action, account) ==> HandleAction(handler, s, action).1.Pass?
  {
    hide DecodeAction, PopTo;
  }

  /** Granting and revoking never revert here; afterwards the last action about an account decides. */
  lemma {:induction false} AttestorsMeaning<H>(handler: EvmHandler<H>, s: Anchor<H>, actions: seq<Bytes>, account: Address)
    requires HandleActions(handler, s, actions).1.Pass?
    ensures account in HandleActions(handler, s, actions).0.attestors <==> AttestorAfter(account in s.attestors, actions, account)
  {
    if actions != [] {
      hide HandleAction, AttestorAfter, Grants, Revokes;
      var front, last := actions[..|actions| - 1], actions[|actions| - 1];
      AttestorsMeaning(handler, s, front, account);
      OneActionMeaning(handler, HandleActions(handler, s, front).0, last, account);
      AttestorStep(account in s.attestors, front, last, account);
      assert front + [last] == actions;
    }
  }
}
