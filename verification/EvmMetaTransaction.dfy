/**
  Meta-transactions of the Solidity anchor: a signed request runs the rollup of its signer by a
  call of the contract to itself, and uses up one nonce.
 */
module EvmMetaTransaction {
  import opened Wrappers
  import opened ByteCodec
  import opened AccessControl
  import opened EvmAnchor

  /** The request has no destination; its domain is part of the signed hash. */
  datatype EvmRequest = EvmRequest(from: Address, nonce: nat, data: Bytes)

  /** What the contract cannot compute itself: its address, key recovery, and the data decoder. */
  datatype EvmCrypto = EvmCrypto(
    self: Address,
    recover: (EvmRequest, Bytes) -> Option<Address>,
    decode: Bytes -> Option<EvmParams>)

  function NonceOf(nonces: Nonces, from: Address): nat {
    if from in nonces then nonces[from] else 0
  }

  /** metaTxPrepareWithNonce: a nonce already used reverts, a later one may be prepared ahead. */
  function PrepareWithNonce(nonces: Nonces, from: Address, data: Bytes, nonce: nat): Option<EvmRequest> {
    if nonce < NonceOf(nonces, from) then None else Some(EvmRequest(from, nonce, data))
  }

  /** metaTxVerify: a signature no key can be recovered from reverts before anything is compared. */
  function Verify(crypto: EvmCrypto, nonces: Nonces, request: EvmRequest, signature: Bytes): Result<bool, Revert> {
    match crypto.recover(request, signature)
    case None => Err(InvalidSignature)
    case Some(signer) => Ok(NonceOf(nonces, request.from) == request.nonce && signer == request.from)
  }

  /** useMetaTx: the nonce moves before the guarded call. */
  function UseMetaTx(crypto: EvmCrypto, nonces: Nonces, request: EvmRequest, signature: Bytes): (Nonces, Outcome<Revert>) {
    match Verify(crypto, nonces, request, signature)
    case Err(e) => (nonces, Fail(e))
    case Ok(false) => (nonces, Fail(MetaTxSignatureNotMatch))
    case Ok(true) =>
      if request.nonce + 1 >= U256_LIMIT then (nonces, Fail(ArithmeticPanic))
      else (nonces[request.from := request.nonce + 1], Pass)
  }

  function MetaRollupInner<H>(
      handler: EvmHandler<H>, crypto: EvmCrypto, s: Anchor<H>, request: EvmRequest, signature: Bytes)
    : (Anchor<H>, Outcome<Revert>)
  {
    match UseMetaTx(crypto, s.nonces, request, signature)
    case (nonces, Fail(e)) => (s.(nonces := nonces), Fail(e))
    case (nonces, Pass) =>
      var used := s.(nonces := nonces);
      if request.from !in s.attestors then (used, Fail(BadAttestor)) else
      match crypto.decode(request.data)
      case None => (used, Fail(BadEncoding))
      case Some(params) => RollupInner(handler, crypto.self, used, crypto.self, params)
  }

  function MetaRollup<H>(
      handler: EvmHandler<H>, crypto: EvmCrypto, s: Anchor<H>, request: EvmRequest, signature: Bytes)
    : (Anchor<H>, Outcome<Revert>)
  {
    Transaction(s, MetaRollupInner(handler, crypto, s, request, signature))
  }

  // ---------- the self-call is the signer's rollup ----------

  lemma {:induction false} RollupIgnoresNonces<H>(handler: EvmHandler<H>, s: Anchor<H>, actions: seq<Bytes>, nonces: Nonces)
    ensures var (a, outcome) := HandleActions(handler, s, actions);
            a.nonces == s.nonces &&
            HandleActions(handler, s.(nonces := nonces), actions) == (a.(nonces := nonces), outcome)
  {
    hide DecodeAction, PopTo;
    if actions != [] {
      RollupIgnoresNonces(handler, s, actions[..|actions| - 1], nonces);
    }
  }

  /**
    A meta-transaction passes exactly when its nonce is current, not the last there is, its signer
    is its sender and has the role, its data decodes and the signer's own rollup would pass; then it is that rollup
    with the nonce used up. Otherwise nothing changes.
   */
  lemma MetaRollupIsRollup<H>(
      handler: EvmHandler<H>, crypto: EvmCrypto, s: Anchor<H>, request: EvmRequest, signature: Bytes)
    ensures var (after, outcome) := MetaRollup(handler, crypto, s, request, signature);
            && outcome == (
                 if crypto.recover(request, signature) == None then Fail(InvalidSignature)
                 else if crypto.recover(request, signature) != Some(request.from) then Fail(MetaTxSignatureNotMatch)
                 else if request.nonce != NonceOf(s.nonces, request.from) then Fail(MetaTxSignatureNotMatch)
                 else if request.nonce + 1 >= U256_LIMIT then Fail(ArithmeticPanic)
                 else if request.from !in s.attestors then Fail(BadAttestor)
                 else if crypto.decode(request.data) == None then Fail(BadEncoding)
                 else Rollup(handler, crypto.self, s, request.from, crypto.decode(request.data).value).1)
            && after ==
               if outcome.Fail? then s else
               Rollup(handler, crypto.self, s, request.from, crypto.decode(request.data).value).0
                 .(nonces := s.nonces[request.from := request.nonce + 1])
  {
    hide HandleActions, FirstUnmet, ApplyWrites;
    if crypto.decode(request.data).Some? {
      var params := crypto.decode(request.data).value;
      var nonces := s.nonces[request.from := request.nonce + 1];
      if |params.updateKeys| == |params.updateValues| {
        RollupIgnoresNonces(handler, s.(kv := ApplyWrites(s.kv, params.updateKeys, params.updateValues)), params.actions, nonces);
      }
    }
  }

  // ---------- nonces over whole runs ----------

  /** A run mixes meta-transactions with anything else that leaves the nonces alone. */
  datatype EvmStep<H> =
    | Send(request: EvmRequest, signature: Bytes)
    | Other(anchor: Anchor<H>)

  function Apply<H>(handler: EvmHandler<H>, crypto: EvmCrypto, s: Anchor<H>, step: EvmStep<H>): Anchor<H> {
    match step
    case Send(request, signature) => MetaRollup(handler, crypto, s, request, signature).0
    case Other(anchor) => anchor.(nonces := s.nonces)
  }

  function Run<H>(handler: EvmHandler<H>, crypto: EvmCrypto, s: Anchor<H>, steps: seq<EvmStep<H>>): Anchor<H> {
    if steps == [] then s else
    Apply(handler, crypto, Run(handler, crypto, s, steps[..|steps| - 1]), steps[|steps| - 1])
  }

  /** The requests of one account that succeeded, in order. */
  function Successes<H>(handler: EvmHandler<H>, crypto: EvmCrypto, s: Anchor<H>, steps: seq<EvmStep<H>>, from: Address)
    : seq<EvmRequest>
  {
    if steps == [] then [] else
    var front, last := steps[..|steps| - 1], steps[|steps| - 1];
    var before := Successes(handler, crypto, s, front, from);
    if last.Send? && last.request.from == from
       && MetaRollup(handler, crypto, Run(handler, crypto, s, front), last.request, last.signature).1.Pass?
    then before + [last.request] else before
  }

  lemma SendMovesNonce<H>(handler: EvmHandler<H>, crypto: EvmCrypto, s: Anchor<H>, request: EvmRequest, signature: Bytes)
    ensures var (after, outcome) := MetaRollup(handler, crypto, s, request, signature);
            if outcome.Pass?
            then NonceOf(s.nonces, request.from) == request.nonce && after.nonces == s.nonces[request.from := request.nonce + 1]
            else after == s
  {
    hide HandleActions, FirstUnmet, ApplyWrites;
    if crypto.decode(request.data).Some? {
      var params := crypto.decode(request.data).value;
      var nonces := s.nonces[request.from := request.nonce + 1];
      if |params.updateKeys| == |params.updateValues| {
        RollupIgnoresNonces(handler, s.(kv := ApplyWrites(s.kv, params.updateKeys, params.updateValues), nonces := nonces),
                            params.actions, nonces);
      }
    }
  }

  /**
    At most once: over any run from zero nonces an account's nonce is the number of its requests
    that succeeded, and these carried the nonces 0, 1, 2, ... in that order.
   */
  lemma {:induction false} NoncesCountSuccesses<H>(
      handler: EvmHandler<H>, crypto: EvmCrypto, s: Anchor<H>, steps: seq<EvmStep<H>>, from: Address)
    requires s.nonces == map[]
    ensures var successes := Successes(handler, crypto, s, steps, from);
            && NonceOf(Run(handler, crypto, s, steps).nonces, from) == |successes|
            && forall i | 0 <= i < |successes| :: successes[i].from == from && successes[i].nonce == i
  {
    hide MetaRollup;
    if steps != [] {
      var front, last := steps[..|steps| - 1], steps[|steps| - 1];
      NoncesCountSuccesses(handler, crypto, s, front, from);
      if last.Send? {
        SendMovesNonce(handler, crypto, Run(handler, crypto, s, front), last.request, last.signature);
      }
    }
  }

  lemma {:induction false} SuccessesGrow<H>(
      handler: EvmHandler<H>, crypto: EvmCrypto, s: Anchor<H>, steps: seq<EvmStep<H>>, more: seq<EvmStep<H>>, from: Address)
    ensures Successes(handler, crypto, s, steps, from) <= Successes(handler, crypto, s, steps + more, from)
  {
    hide MetaRollup, Run;
    if more == [] {
      assert steps + more == steps;
    } else {
      SuccessesGrow(handler, crypto, s, steps, more[..|more| - 1], from);
      assert (steps + more)[..|steps + more| - 1] == steps + more[..|more| - 1];
    }
  }

  /**
    Preparing ahead, at any point of any run. A nonce that was used up cannot be prepared, and no
    such request ever verifies again; one that can be prepared verifies, after any further steps,
    exactly when as many requests of the account have succeeded as its nonce says.
   */
  lemma PreparedAhead<H>(
      handler: EvmHandler<H>, crypto: EvmCrypto, s: Anchor<H>, steps: seq<EvmStep<H>>, more: seq<EvmStep<H>>,
      from: Address, data: Bytes, nonce: nat, signature: Bytes)
    requires s.nonces == map[]
    ensures var prepared := PrepareWithNonce(Run(handler, crypto, s, steps).nonces, from, data, nonce);
            var later := Run(handler, crypto, s, steps + more).nonces;
            && (prepared.None? <==> nonce < |Successes(handler, crypto, s, steps, from)|)
            && (prepared.None? ==> Verify(crypto, later, EvmRequest(from, nonce, data), signature) != Ok(true))
            && (prepared.Some? ==>
                  (Verify(crypto, later, prepared.value, signature) == Ok(true) <==>
                     && |Successes(handler, crypto, s, steps + more, from)| == nonce
                     && crypto.recover(prepared.value, signature) == Some(from)))
  {
    hide Run, Successes;
    NoncesCountSuccesses(handler, crypto, s, steps, from);
    NoncesCountSuccesses(handler, crypto, s, steps + more, from);
    SuccessesGrow(handler, crypto, s, steps, more, from);
  }
}
