/**
  The rollup contract as an object: storage fields changed step by step, with early error
  returns. Inner methods may stop half way; a message that ends in an error restores the
  storage it found.
 */
module RollupContract {
  import opened Wrappers
  import opened ByteCodec
  import opened KvStore
  import opened RollupErrors
  import opened AccessControl
  import opened MessageQueue
  import opened RollupClient
  import opened MetaTransaction

  class Contract<H> {
    var kv: Store
    var roles: Roles
    var nonces: Nonces
    var app: H

    const onMessageReceived: Handler<H>
    const crypto: Crypto

    /** The storage as one value. */
    ghost function State(): Chain<H>
      reads this
    {
      Chain(kv, roles, nonces, app)
    }

    /** A deployed contract: its deployer is admin and attestor. */
    constructor (deployer: Address, app: H, onMessageReceived: Handler<H>, crypto: Crypto)
      ensures State() == Chain(map[], {(deployer, AdminRole), (deployer, AttestorRole)}, map[], app)
      ensures this.onMessageReceived == onMessageReceived && this.crypto == crypto
    {
      this.kv := map[];
      this.roles := {(deployer, AdminRole), (deployer, AttestorRole)};
      this.nonces := map[];
      this.app := app;
      this.onMessageReceived := onMessageReceived;
      this.crypto := crypto;
    }

    // ---------- the key-value store ----------

    method InnerGetValue(key: Key) returns (value: Option<Value>)
      ensures value == Get(kv, key)
    {
      if key in kv {
        value := Some(kv[key]);
      } else {
        value := None;
      }
    }

    method InnerSetValue(key: Key, value: Option<Value>)
      modifies this`kv
      ensures kv == Set(old(kv), key, value)
    {
      match value
      case None => kv := kv - {key};
      case Some(v) => kv := kv[key := v];
    }

    // ---------- the message queue ----------

    method GetIndex(key: Key) returns (index: Result<nat, Error>)
      ensures index == ReadIndex(kv, key)
    {
      var stored := InnerGetValue(key);
      match stored
      case None => index := Ok(0);
      case Some(v) =>
        match DecodeU32(v)
        case None => index := Err(FailedToDecode);
        case Some(n) => index := Ok(n);
    }

    /** Writes the message before it knows whether the tail can still move. */
    method PushMessage(data: Bytes) returns (id: Result<nat, Error>)
      modifies this`kv
      ensures (kv, id) == Push(old(kv), data)
    {
      var tail := GetIndex(TAIL_KEY);
      if tail.Err? {
        return tail;
      }
      InnerSetValue(MessageKey(tail.value), Some(data));
      if tail.value + 1 >= U32_LIMIT {
        return Err(QueueIndexOverflow);
      }
      InnerSetValue(TAIL_KEY, Some(EncodeU32(tail.value + 1)));
      return tail;
    }

    /** A message as its type: absent is no error, bytes that do not decode are one. */
    method GetMessage<M>(id: nat, decode: Bytes -> Option<M>) returns (message: Result<Option<M>, Error>)
      ensures match Get(kv, MessageKey(id))
              case None => message == Ok(None)
              case Some(v) => message == if decode(v).Some? then Ok(decode(v)) else Err(FailedToDecode)
    {
      var stored := InnerGetValue(MessageKey(id));
      match stored
      case None => return Ok(None);
      case Some(v) =>
        var decoded := decode(v);
        if decoded.None? {
          return Err(FailedToDecode);
        }
        return Ok(decoded);
    }

    method QueueHasMessage() returns (r: Result<bool, Error>)
      ensures r == HasMessage(kv)
    {
      var tail := GetIndex(TAIL_KEY);
      if tail.Err? {
        return Err(tail.error);
      }
      var head := GetIndex(HEAD_KEY);
      if head.Err? {
        return Err(head.error);
      }
      return Ok(tail.value > head.value);
    }

    method PopMessagesTo(target: nat) returns (outcome: Outcome<Error>)
      modifies this`kv
      ensures (kv, outcome) == PopTo(old(kv), target)
    {
      hide EncodeU32, MessageKey, ReadIndex, Get;
      var tail := GetIndex(TAIL_KEY);
      if tail.Err? {
        return Fail(tail.error);
      }
      if target > tail.value {
        return Fail(InvalidPopTarget);
      }
      var head := GetIndex(HEAD_KEY);
      if head.Err? {
        return Fail(head.error);
      }
      if target < head.value {
        return Fail(InvalidPopTarget);
      }
      if target == head.value {
        return Pass;
      }
      for id := head.value to target
        invariant kv == old(kv) - MessageKeys(head.value, id)
      {
        MessageKeysGrow(head.value, id);
        InnerSetValue(MessageKey(id), None);
      }
      InnerSetValue(HEAD_KEY, Some(EncodeU32(target)));
      return Pass;
    }

    // ---------- roles ----------

    method GrantRoleUnchecked(role: Role, account: Address) returns (outcome: Outcome<Error>)
      modifies this`roles
      ensures (roles, outcome) == GrantUnchecked(old(roles), role, account)
    {
      if (account, role) in roles {
        return Fail(AccessControlFailure(RoleRedundant));
      }
      roles := roles + {(account, role)};
      return Pass;
    }

    method RevokeRoleUnchecked(role: Role, account: Address) returns (outcome: Outcome<Error>)
      modifies this`roles
      ensures (roles, outcome) == RevokeUnchecked(old(roles), role, account)
    {
      if (account, role) !in roles {
        return Fail(AccessControlFailure(MissingRole));
      }
      roles := roles - {(account, role)};
      return Pass;
    }

    // ---------- the rollup ----------

    method HandleOne(action: Action) returns (outcome: Outcome<Error>)
      modifies this
      ensures (State(), outcome) == HandleAction(onMessageReceived, old(State()), action)
    {
      match action
      case Reply(data) =>
        match onMessageReceived(app, data) {
          case Ok(next) =>
            app := next;
            outcome := Pass;
          case Err(e) => outcome := Fail(e);
        }
      case SetQueueHead(index) => outcome := PopMessagesTo(index);
      case GrantAttestor(account) => outcome := GrantRoleUnchecked(AttestorRole, account);
      case RevokeAttestor(account) => outcome := RevokeRoleUnchecked(AttestorRole, account);
    }

    /** Checks, then updates, then actions; an error returns at once, whatever was already written. */
    method InnerRollupCondEq(attestor: Address, params: RollupParams) returns (outcome: Outcome<Error>)
      modifies this
      ensures (State(), outcome) == RollupInner(onMessageReceived, old(State()), attestor, params)
    {
      if (attestor, AttestorRole) !in roles {
        return Fail(AccessControlFailure(MissingRole));
      }
      for i := 0 to |params.conditions|
        invariant State() == old(State())
        invariant forall j | 0 <= j < i :: Get(kv, params.conditions[j].0) == params.conditions[j].1
      {
        var current := InnerGetValue(params.conditions[i].0);
        match (current, params.conditions[i].1)
        case (None, None) =>
        case (Some(v1), Some(v2)) =>
          if v1 != v2 {
            return Fail(ConditionNotMet);
          }
        case _ => return Fail(ConditionNotMet);
      }
      for i := 0 to |params.updates|
        invariant State() == old(State()).(kv := ApplyUpdates(old(kv), params.updates[..i]))
      {
        assert params.updates[..i + 1][..i] == params.updates[..i];
        InnerSetValue(params.updates[i].0, params.updates[i].1);
      }
      assert params.updates[..|params.updates|] == params.updates;
      outcome := RunActions(params.actions);
    }

    method RunActions(actions: seq<Action>) returns (outcome: Outcome<Error>)
      modifies this
      ensures (State(), outcome) == HandleActions(onMessageReceived, old(State()), actions)
    {
      for i := 0 to |actions|
        invariant (State(), Pass) == HandleActions(onMessageReceived, old(State()), actions[..i])
      {
        assert actions[..i + 1][..i] == actions[..i];
        outcome := HandleOne(actions[i]);
        if outcome.Fail? {
          FailureStops(onMessageReceived, old(State()), actions, i + 1);
          return;
        }
      }
      assert actions[..|actions|] == actions;
      return Pass;
    }

    /** The message rollup_cond_eq: all or nothing. */
    method RollupCondEq(caller: Address, params: RollupParams) returns (outcome: Outcome<Error>)
      modifies this
      ensures (State(), outcome) == Rollup(onMessageReceived, old(State()), caller, params)
      ensures outcome.Fail? ==> State() == old(State())
    {
      var saved := (kv, roles, nonces, app);
      outcome := InnerRollupCondEq(caller, params);
      if outcome.Fail? {
        kv, roles, nonces, app := saved.0, saved.1, saved.2, saved.3;
      }
    }

    // ---------- meta-transactions ----------

    method VerifyRequest(request: ForwardRequest, signature: Signature) returns (outcome: Outcome<Error>)
      ensures outcome == Verify(crypto, nonces, request, signature)
    {
      if request.to != crypto.self {
        return Fail(InvalidDestination);
      }
      var nonce := if request.from in nonces then nonces[request.from] else 0;
      if request.nonce != nonce {
        return Fail(NonceTooLow);
      }
      match crypto.recover(request, signature)
      case None => return Fail(IncorrectSignature);
      case Some(signer) =>
        if request.from != signer {
          return Fail(PublicKeyNotMatch);
        }
        return Pass;
    }

    method EnsureMetaTxValid(request: ForwardRequest, signature: Signature) returns (outcome: Outcome<Error>)
      modifies this`nonces
      ensures (nonces, outcome) == EnsureValid(crypto, old(nonces), request, signature)
    {
      outcome := VerifyRequest(request, signature);
      if outcome.Fail? {
        return;
      }
      if request.nonce + 1 >= NONCE_LIMIT {
        return Fail(NonceOverflow);
      }
      nonces := nonces[request.from := request.nonce + 1];
    }

    method InnerMetaTxRollupCondEq(request: ForwardRequest, signature: Signature) returns (outcome: Outcome<Error>)
      modifies this
      ensures (State(), outcome) == MetaRollupInner(onMessageReceived, crypto, old(State()), request, signature)
    {
      outcome := EnsureMetaTxValid(request, signature);
      if outcome.Fail? {
        return;
      }
      match crypto.decode(request.data)
      case None => return Fail(FailedToDecode);
      case Some(params) => outcome := InnerRollupCondEq(request.from, params);
    }

    /** The message meta_tx_rollup_cond_eq: all or nothing, the nonce included. */
    method MetaTxRollupCondEq(request: ForwardRequest, signature: Signature) returns (outcome: Outcome<Error>)
      modifies this
      ensures (State(), outcome) == MetaRollup(onMessageReceived, crypto, old(State()), request, signature)
      ensures outcome.Fail? ==> State() == old(State())
    {
      var saved := (kv, roles, nonces, app);
      outcome := InnerMetaTxRollupCondEq(request, signature);
      if outcome.Fail? {
        kv, roles, nonces, app := saved.0, saved.1, saved.2, saved.3;
      }
    }
  }

  /** One more removed index is one more removed key. */
  lemma MessageKeysGrow(lo: nat, id: nat)
    requires lo <= id
    ensures MessageKeys(lo, id + 1) == MessageKeys(lo, id) + {MessageKey(id)}
  {
  }

  /** The first failing action decides the outcome of the whole list. */
  lemma {:induction false} FailureStops<H>(handler: Handler<H>, s: Chain<H>, actions: seq<Action>, i: nat)
    requires i <= |actions| && HandleActions(handler, s, actions[..i]).1.Fail?
    ensures HandleActions(handler, s, actions) == HandleActions(handler, s, actions[..i])
  {
    if i == |actions| {
      assert actions[..i] == actions;
    } else {
      var n := |actions| - 1;
      assert actions[..n][..i] == actions[..i];
      FailureStops(handler, s, actions[..n], i);
    }
  }
}
