/**
  Meta-transactions: a request signed by one account and sent by another. Each account has a
  nonce that every accepted request uses up.
 */
module MetaTransaction {
  import opened Wrappers
  import opened ByteCodec
  import opened RollupErrors
  import opened AccessControl
  import opened RollupClient

  const NONCE_LIMIT: nat := U128_LIMIT

  datatype ForwardRequest = ForwardRequest(from: Address, to: Address, nonce: nat, data: Bytes)

  type Signature = b: Bytes | |b| == 65 witness EncodeLE(0, 65)

  /** What the contract cannot compute itself: its address, key recovery, and the data decoder. */
  datatype Crypto = Crypto(
    self: Address,
    recover: (ForwardRequest, Signature) -> Option<Address>,
    decode: Bytes -> Option<RollupParams>)

  function NonceOf(nonces: Nonces, from: Address): nat {
    if from in nonces then nonces[from] else 0
  }

  function Prepare(crypto: Crypto, nonces: Nonces, from: Address, data: Bytes): ForwardRequest {
    ForwardRequest(from, crypto.self, NonceOf(nonces, from), data)
  }

  function Verify(crypto: Crypto, nonces: Nonces, request: ForwardRequest, signature: Signature): Outcome<Error> {
    if request.to != crypto.self then Fail(InvalidDestination)
    else if request.nonce != NonceOf(nonces, request.from) then Fail(NonceTooLow)
    else
      match crypto.recover(request, signature)
      case None => Fail(IncorrectSignature)
      case Some(signer) => if request.from != signer then Fail(PublicKeyNotMatch) else Pass
  }

  function EnsureValid(crypto: Crypto, nonces: Nonces, request: ForwardRequest, signature: Signature)
    : (Nonces, Outcome<Error>)
  {
    match Verify(crypto, nonces, request, signature)
    case Fail(e) => (nonces, Fail(e))
    case Pass =>
      if request.nonce + 1 >= NONCE_LIMIT then (nonces, Fail(NonceOverflow))
      else (nonces[request.from := request.nonce + 1], Pass)
  }

  /** The state left behind by a meta-transaction: the nonce moves before the rollup is tried. */
  function MetaRollupInner<H>(
      handler: Handler<H>, crypto: Crypto, s: Chain<H>, request: ForwardRequest, signature: Signature)
    : (Chain<H>, Outcome<Error>)
  {
    match EnsureValid(crypto, s.nonces, request, signature)
    case (nonces, Fail(e)) => (s.(nonces := nonces), Fail(e))
    case (nonces, Pass) =>
      match crypto.decode(request.data)
      case None => (s.(nonces := nonces), Fail(FailedToDecode))
      case Some(params) => RollupInner(handler, s.(nonces := nonces), request.from, params)
  }

  function MetaRollup<H>(
      handler: Handler<H>, crypto: Crypto, s: Chain<H>, request: ForwardRequest, signature: Signature)
    : (Chain<H>, Outcome<Error>)
  {
    Transaction(s, MetaRollupInner(handler, crypto, s, request, signature))
  }

  // ---------- nonces over whole runs ----------

  /** A run mixes meta-transactions with anything else that leaves the nonces alone. */
  datatype MetaStep<H> =
    | Send(request: ForwardRequest, signature: Signature)
    | Other(chain: Chain<H>)

  function MetaApply<H>(handler: Handler<H>, crypto: Crypto, s: Chain<H>, step: MetaStep<H>): Chain<H> {
    match step
    case Send(request, signature) => MetaRollup(handler, crypto, s, request, signature).0
    case Other(chain) => chain.(nonces := s.nonces)
  }

  function MetaRun<H>(handler: Handler<H>, crypto: Crypto, s: Chain<H>, steps: seq<MetaStep<H>>): Chain<H> {
    if steps == [] then s else
    MetaApply(handler, crypto, MetaRun(handler, crypto, s, steps[..|steps| - 1]), steps[|steps| - 1])
  }

  predicate Succeeds<H>(handler: Handler<H>, crypto: Crypto, s: Chain<H>, step: MetaStep<H>) {
    step.Send? && MetaRollup(handler, crypto, s, step.request, step.signature).1.Pass?
  }

  /** The requests of one account that succeeded, in order. */
  function Successes<H>(handler: Handler<H>, crypto: Crypto, s: Chain<H>, steps: seq<MetaStep<H>>, from: Address)
    : seq<ForwardRequest>
  {
    if steps == [] then [] else
    var front, last := steps[..|steps| - 1], steps[|steps| - 1];
    var before := Successes(handler, crypto, s, front, from);
    if Succeeds(handler, crypto, MetaRun(handler, crypto, s, front), last) && last.request.from == from
    then before + [last.request] else before
  }

  /** A rollup never touches the nonces. */
  lemma {:induction false} ActionsKeepNonces<H>(handler: Handler<H>, s: Chain<H>, actions: seq<Action>)
    ensures HandleActions(handler, s, actions).0.nonces == s.nonces
  {
    if actions != [] {
      ActionsKeepNonces(handler, s, actions[..|actions| - 1]);
    }
  }

  /** A success uses up exactly the sender's current nonce; a failure uses up none. */
  lemma SendMovesNonce<H>(
      handler: Handler<H>, crypto: Crypto, s: Chain<H>, request: ForwardRequest, signature: Signature)
    ensures var (after, outcome) := MetaRollup(handler, crypto, s, request, signature);
            if outcome.Pass? then
              && request.nonce == NonceOf(s.nonces, request.from)
              && after.nonces == s.nonces[request.from := request.nonce + 1]
            else after == s
  {
    if EnsureValid(crypto, s.nonces, request, signature).1.Pass? && crypto.decode(request.data).Some? {
      var params := crypto.decode(request.data).value;
      var nonces := s.nonces[request.from := request.nonce + 1];
      ActionsKeepNonces(handler, s.(nonces := nonces, kv := ApplyUpdates(s.kv, params.updates)), params.actions);
    }
  }

  /**
    At most once. Over any run from zero nonces, an account's nonce is the number of its
    requests that succeeded, and these carried the nonces 0, 1, 2, ... in that order, so no
    nonce of an account is ever used twice.
   */
  lemma {:induction false} NoncesCountSuccesses<H>(
      handler: Handler<H>, crypto: Crypto, s: Chain<H>, steps: seq<MetaStep<H>>, from: Address)
    requires s.nonces == map[]
    ensures var successes := Successes(handler, crypto, s, steps, from);
            && NonceOf(MetaRun(handler, crypto, s, steps).nonces, from) == |successes|
            && (forall i | 0 <= i < |successes| :: successes[i].from == from && successes[i].nonce == i)
  {
    if steps != [] {
      var front, last := steps[..|steps| - 1], steps[|steps| - 1];
      NoncesCountSuccesses(handler, crypto, s, front, from);
      if last.Send? {
        SendMovesNonce(handler, crypto, MetaRun(handler, crypto, s, front), last.request, last.signature);
      }
    }
  }

  /** A request that has succeeded is refused for ever after. */
  lemma NoReplay<H>(
      handler: Handler<H>, crypto: Crypto, s: Chain<H>, steps: seq<MetaStep<H>>, request: ForwardRequest, signature: Signature)
    requires s.nonces == map[]
    requires request in Successes(handler, crypto, s, steps, request.from)
    ensures MetaRollup(handler, crypto, MetaRun(handler, crypto, s, steps), request, signature).1 ==
            Fail(if request.to != crypto.self then InvalidDestination else NonceTooLow)
  {
    NoncesCountSuccesses(handler, crypto, s, steps, request.from);
  }

  /**
    A freshly prepared request passes the nonce check after any further steps exactly as long
    as no request of the same account has succeeded in between.
   */
  lemma {:induction false} PreparedStaysAcceptable<H>(
      handler: Handler<H>, crypto: Crypto, s: Chain<H>, steps: seq<MetaStep<H>>, from: Address, data: Bytes)
    ensures var request := Prepare(crypto, s.nonces, from, data);
            var later := MetaRun(handler, crypto, s, steps);
            && NonceOf(later.nonces, from) == NonceOf(s.nonces, from) + |Successes(handler, crypto, s, steps, from)|
            && (request.nonce == NonceOf(later.nonces, from) <==> Successes(handler, crypto, s, steps, from) == [])
  {
    if steps != [] {
      var front, last := steps[..|steps| - 1], steps[|steps| - 1];
      PreparedStaysAcceptable(handler, crypto, s, front, from, data);
      if last.Send? {
        SendMovesNonce(handler, crypto, MetaRun(handler, crypto, s, front), last.request, last.signature);
      }
    }
  }

  /**
    A meta-transaction that is for this contract, carries the present nonce and its sender's
    signature and is well formed is the rollup of its sender, with the nonce used up; any other
    is refused for the first of these that fails.
   */
  lemma MetaRollupIsRollup<H>(
      handler: Handler<H>, crypto: Crypto, s: Chain<H>, request: ForwardRequest, signature: Signature)
    ensures var (after, outcome) := MetaRollup(handler, crypto, s, request, signature);
            outcome == (
              if request.to != crypto.self then Fail(InvalidDestination)
              else if request.nonce != NonceOf(s.nonces, request.from) then Fail(NonceTooLow)
              else if crypto.recover(request, signature) == None then Fail(IncorrectSignature)
              else if crypto.recover(request, signature) != Some(request.from) then Fail(PublicKeyNotMatch)
              else if request.nonce + 1 >= U128_LIMIT then Fail(NonceOverflow)
              else if crypto.decode(request.data) == None then Fail(FailedToDecode)
              else Rollup(handler, s, request.from, crypto.decode(request.data).value).1)
    ensures var (after, outcome) := MetaRollup(handler, crypto, s, request, signature);
            outcome.Pass? ==>
              after == Rollup(handler, s, request.from, crypto.decode(request.data).value).0
                       .(nonces := s.nonces[request.from := request.nonce + 1])
  {
    if crypto.decode(request.data).Some? {
      var params := crypto.decode(request.data).value;
      var nonces := s.nonces[request.from := request.nonce + 1];
      RollupIgnoresNonces(handler, s.(kv := ApplyUpdates(s.kv, params.updates)), params.actions, nonces);
    }
  }

  lemma {:induction false} RollupIgnoresNonces<H>(handler: Handler<H>, s: Chain<H>, actions: seq<Action>, nonces: Nonces)
    ensures var (a, outcome) := HandleActions(handler, s, actions);
            HandleActions(handler, s.(nonces := nonces), actions) == (a.(nonces := nonces), outcome)
  {
    if actions != [] {
      RollupIgnoresNonces(handler, s, actions[..|actions| - 1], nonces);
    }
  }
}
