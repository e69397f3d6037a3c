/** The Solidity anchor as an object, each method against its specification. */
module EvmContract {
  import opened Wrappers
  import opened ByteCodec
  import opened KvStore
  import opened AccessControl
  import opened EvmAnchor
  import opened EvmMetaTransaction

  class PhatRollupAnchor<H> {
    var kvStore: Store
    var attestors: set<Address>
    var nonces: Nonces
    var app: H
    const onMessageReceived: EvmHandler<H>
    const crypto: EvmCrypto

    ghost function State(): Anchor<H>
      reads this
    {
      Anchor(kvStore, attestors, nonces, app)
    }

    constructor (attestor: Address, app: H, onMessageReceived: EvmHandler<H>, crypto: EvmCrypto)
      ensures State() == Anchor(map[], {attestor}, map[], app)
      ensures this.onMessageReceived == onMessageReceived && this.crypto == crypto
    {
      this.kvStore := map[];
      this.attestors := {attestor};
      this.nonces := map[];
      this.app := app;
      this.onMessageReceived := onMessageReceived;
      this.crypto := crypto;
    }

    method SetBytes(key: Key, value: Bytes)
      modifies this`kvStore
      ensures kvStore == Save(old(kvStore), key, value)
    {
      if value == [] {
        kvStore := kvStore - {key};
      } else {
        kvStore := kvStore[key := value];
      }
    }

    method GetUint(key: Key) returns (n: Result<nat, Revert>)
      ensures n == QueueUint(kvStore, key)
    {
      var stored := Load(kvStore, key);
      if stored == [] {
        return Ok(0);
      }
      match DecodeUint(stored)
      case None => return Err(BadEncoding);
      case Some(v) => return Ok(v);
    }

    method PushMessage(data: Bytes) returns (index: Result<nat, Revert>)
      modifies this`kvStore
      ensures (kvStore, index) == Push(old(kvStore), data)
    {
      index := GetUint(TAIL_KEY);
      if index.Err? {
        return;
      }
      var tail := index.value;
      SetBytes(MessageKey(tail), data);
      if tail + 1 >= U256_LIMIT {
        return Err(ArithmeticPanic);
      }
      SetBytes(TAIL_KEY, EncodeUint(tail + 1));
    }

    method PopMessagesTo(target: nat) returns (outcome: Outcome<Revert>)
      modifies this`kvStore
      ensures (kvStore, outcome) == PopTo(old(kvStore), target)
    {
      hide QueueUint, EncodeUint, MessageKey;
      var tail := GetUint(TAIL_KEY);
      if tail.Err? {
        return Fail(tail.error);
      }
      if target > tail.value {
        return Fail(InvalidPopTarget(target, tail.value));
      }
      var head := GetUint(HEAD_KEY);
      if head.Err? {
        return Fail(head.error);
      }
      var i := head.value;
      while i < target
        invariant head.value <= i && (i <= target || i == head.value)
        invariant kvStore == old(kvStore) - MessageKeys(head.value, i)
      {
        MessageKeysGrow(head.value, i);
        SetBytes(MessageKey(i), []);
        i := i + 1;
      }
      assert i > target ==> MessageKeys(head.value, target) == MessageKeys(head.value, i);
      SetBytes(HEAD_KEY, EncodeUint(target));
      return Pass;
    }

    method HandleOne(action: Bytes) returns (outcome: Outcome<Revert>)
      modifies this
      ensures (State(), outcome) == HandleAction(onMessageReceived, old(State()), action)
    {
      match DecodeAction(action)
      case Err(e) => return Fail(e);
      case Ok(Reply(data)) =>
        match onMessageReceived(app, data) {
          case None => return Fail(HandlerReverted);
          case Some(next) =>
            app := next;
            return Pass;
        }
      case Ok(SetQueueHead(index)) => outcome := PopMessagesTo(index);
      case Ok(GrantAttestor(account)) =>
        attestors := attestors + {account};
        return Pass;
      case Ok(RevokeAttestor(account)) =>
        attestors := attestors - {account};
        return Pass;
    }

    /** Three loops over parallel arrays; the first failure stops with everything so far written. */
    method RollupU256CondEqInternal(params: EvmParams) returns (outcome: Outcome<Revert>)
      modifies this
      ensures (State(), outcome) == RollupInternal(onMessageReceived, old(State()), params)
    {
      if |params.condKeys| != |params.condValues| {
        return Fail(BadCondLen);
      }
      if |params.updateKeys| != |params.updateValues| {
        return Fail(BadUpdateLen);
      }
      for i := 0 to |params.condKeys|
        invariant State() == old(State())
        invariant FirstUnmet(kvStore, params.condKeys, params.condValues) ==
                  FirstUnmet(kvStore, params.condKeys[i..], params.condValues[i..])
      {
        if Load(kvStore, params.condKeys[i]) != params.condValues[i] {
          return Fail(CondNotMet(params.condKeys[i]));
        }
      }
      for i := 0 to |params.updateKeys|
        invariant State() == old(State()).(kv := ApplyWrites(old(kvStore), params.updateKeys[..i], params.updateValues[..i]))
      {
        assert params.updateKeys[..i + 1][..i] == params.updateKeys[..i];
        assert params.updateValues[..i + 1][..i] == params.updateValues[..i];
        SetBytes(params.updateKeys[i], params.updateValues[i]);
      }
      assert params.updateKeys[..|params.updateKeys|] == params.updateKeys;
      assert params.updateValues[..|params.updateValues|] == params.updateValues;
      outcome := RunActions(params.actions);
    }

    method RunActions(actions: seq<Bytes>) returns (outcome: Outcome<Revert>)
      modifies this
      ensures (State(), outcome) == HandleActions(onMessageReceived, old(State()), actions)
    {
      for i := 0 to |actions|
        invariant (State(), Pass) == HandleActions(onMessageReceived, old(State()), actions[..i])
      {
        assert actions[..i + 1][..i] == actions[..i];
        outcome := HandleOne(actions[i]);
        if outcome.Fail? {
          FailureStops(onMessageReceived, old(State()), actions, i + 1);
          return;
        }
      }
      assert actions[..|actions|] == actions;
      return Pass;
    }

    /** Calls from the contract itself need no role. */
    method RollupU256CondEqInner(sender: Address, params: EvmParams) returns (outcome: Outcome<Revert>)
      modifies this
      ensures (State(), outcome) == RollupInner(onMessageReceived, crypto.self, old(State()), sender, params)
    {
      if sender != crypto.self && sender !in attestors {
        return Fail(BadAttestor);
      }
      outcome := RollupU256CondEqInternal(params);
    }

    /** The transaction rollupU256CondEq: a revert puts everything back. */
    method RollupU256CondEq(sender: Address, params: EvmParams) returns (outcome: Outcome<Revert>)
      modifies this
      ensures (State(), outcome) == Rollup(onMessageReceived, crypto.self, old(State()), sender, params)
      ensures outcome.Fail? ==> State() == old(State())
    {
      var saved := (kvStore, attestors, nonces, app);
      outcome := RollupU256CondEqInner(sender, params);
      if outcome.Fail? {
        kvStore, attestors, nonces, app := saved.0, saved.1, saved.2, saved.3;
      }
    }

    // ---------- meta-transactions ----------

    method MetaTxVerify(request: EvmRequest, signature: Bytes) returns (r: Result<bool, Revert>)
      ensures r == Verify(crypto, nonces, request, signature)
    {
      var signer := crypto.recover(request, signature);
      match signer
      case None => return Err(InvalidSignature);
      case Some(account) =>
        var nonce := if request.from in nonces then nonces[request.from] else 0;
        return Ok(nonce == request.nonce && account == request.from);
    }

    method UseNonce(request: EvmRequest, signature: Bytes) returns (outcome: Outcome<Revert>)
      modifies this`nonces
      ensures (nonces, outcome) == UseMetaTx(crypto, old(nonces), request, signature)
    {
      var verified := MetaTxVerify(request, signature);
      if verified.Err? {
        return Fail(verified.error);
      }
      if !verified.value {
        return Fail(MetaTxSignatureNotMatch);
      }
      if request.nonce + 1 >= U256_LIMIT {
        return Fail(ArithmeticPanic);
      }
      nonces := nonces[request.from := request.nonce + 1];
      return Pass;
    }

    method MetaTxInner(request: EvmRequest, signature: Bytes) returns (outcome: Outcome<Revert>)
      modifies this
      ensures (State(), outcome) == MetaRollupInner(onMessageReceived, crypto, old(State()), request, signature)
    {
      outcome := UseNonce(request, signature);
      if outcome.Fail? {
        return;
      }
      if request.from !in attestors {
        return Fail(BadAttestor);
      }
      var params := crypto.decode(request.data);
      match params
      case None => return Fail(BadEncoding);
      case Some(p) => outcome := RollupU256CondEqInner(crypto.self, p);
    }

    /** The transaction metaTxRollupU256CondEq: a revert puts everything back, the nonce included. */
    method MetaTxRollupU256CondEq(request: EvmRequest, signature: Bytes) returns (outcome: Outcome<Revert>)
      modifies this
      ensures (State(), outcome) == MetaRollup(onMessageReceived, crypto, old(State()), request, signature)
      ensures outcome.Fail? ==> State() == old(State())
    {
      var saved := (kvStore, attestors, nonces, app);
      outcome := MetaTxInner(request, signature);
      if outcome.Fail? {
        kvStore, attestors, nonces, app := saved.0, saved.1, saved.2, saved.3;
      }
    }
  }

  lemma MessageKeysGrow(lo: nat, i: nat)
    requires lo <= i
    ensures MessageKeys(lo, i + 1) == MessageKeys(lo, i) + {MessageKey(i)}
  {
    hide MessageKey;
  }

  lemma {:induction false} FailureStops<H>(handler: EvmHandler<H>, s: Anchor<H>, actions: seq<Bytes>, i: nat)
    requires i <= |actions| && HandleActions(handler, s, actions[..i]).1.Fail?
    ensures HandleActions(handler, s, actions) == HandleActions(handler, s, actions[..i])
  {
    if i == |actions| {
      assert actions[..i] == actions;
    } else {
      var n := |actions| - 1;
      assert actions[..n][..i] == actions[..i];
      FailureStops(handler, s, actions[..n], i);
    }
  }
}
