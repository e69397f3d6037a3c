/** Signed commits: a session's version protects its nonce as well. */
module MetaSessions {
  import opened Wrappers
  import opened ByteCodec
  import opened KvStore
  import opened RollupErrors
  import opened AccessControl
  import opened MessageQueue
  import opened RollupClient
  import opened MetaTransaction
  import opened Session
  import opened Serializability
  import Interleavings

  /** The stored version is that of n commits. */
  predicate VersionIs(kv: Store, n: nat) {
    n < U32_LIMIT && Get(kv, VERSION_KEY) == VersionValue(n)
  }

  /** What a session started at version n sends. */
  ghost predicate FromSession(params: RollupParams, n: nat) {
    exists s: SessionState ::
      && params == ParamsOf(s, n + 1)
      && VERSION_KEY in s.values.entries && s.values.entries[VERSION_KEY] == VersionValue(n)
      && VERSION_KEY !in s.updates.entries
  }

  // ---------- an accepted session moves the version by one ----------

  lemma {:induction false} ActionsKeepVersion<H>(handler: Handler<H>, s: Chain<H>, actions: seq<Action>)
    ensures Get(HandleActions(handler, s, actions).0.kv, VERSION_KEY) == Get(s.kv, VERSION_KEY)
  {
    hide PopTo, GrantUnchecked, RevokeUnchecked, Get;
    if actions != [] {
      var n := |actions| - 1;
      ActionsKeepVersion(handler, s, actions[..n]);
      if actions[n].SetQueueHead? {
        VersionKeyIsNotQueueKey();
        Interleavings.PopToOutsideQueue(HandleActions(handler, s, actions[..n]).0.kv, actions[n].index);
      }
    }
  }

  lemma AcceptedMovesVersion<H>(handler: Handler<H>, s: Chain<H>, attestor: Address, params: RollupParams, n: nat)
    requires FromSession(params, n) && Rollup(handler, s, attestor, params).1.Pass?
    ensures Get(s.kv, VERSION_KEY) == VersionValue(n)
    ensures Get(Rollup(handler, s, attestor, params).0.kv, VERSION_KEY) == VersionValue(n + 1)
  {
    var session: SessionState :|
      && params == ParamsOf(session, n + 1)
      && VERSION_KEY in session.values.entries && session.values.entries[VERSION_KEY] == VersionValue(n)
      && VERSION_KEY !in session.updates.entries;
    ConditionsAreReads(s.kv, session.values);
    UpdatesAreWrites(s.kv, n + 1, session.updates);
    ActionsKeepVersion(handler, s.(kv := ApplyUpdates(s.kv, params.updates)), params.actions);
    hide ConditionsMet, HandleActions, ApplyUpdates, HeadMove, AsReplies, OrderedMap.Valid, EncodeU32;
  }

  // ---------- runs in which only sessions use nonces ----------

  /** Version n is stored; every signed request is a session's; anything else leaves the version or raises it. */
  ghost predicate SessionStep<H>(crypto: Crypto, s: Chain<H>, step: MetaStep<H>) {
    match step
    case Send(request, _) =>
      crypto.decode(request.data).Some? ==> exists n: nat :: n + 1 < U32_LIMIT && FromSession(crypto.decode(request.data).value, n)
    case Other(chain) => forall n: nat | VersionIs(s.kv, n) :: exists m: nat :: n <= m && VersionIs(chain.kv, m)
  }

  ghost predicate SessionSteps<H>(handler: Handler<H>, crypto: Crypto, s: Chain<H>, steps: seq<MetaStep<H>>) {
    forall i {:trigger steps[i]} | 0 <= i < |steps| :: SessionStep(crypto, MetaRun(handler, crypto, s, steps[..i]), steps[i])
  }

  lemma VersionIsUnique(kv: Store, a: nat, b: nat)
    requires VersionIs(kv, a) && VersionIs(kv, b)
    ensures a == b
  {
    VersionValueInjective(a, b);
  }

  /** One step keeps the version and, if it does, every nonce; or it raises the version. */
  lemma StepKeepsOrRaises<H>(handler: Handler<H>, crypto: Crypto, s: Chain<H>, step: MetaStep<H>, n: nat) returns (m: nat)
    requires SessionStep(crypto, s, step) && VersionIs(s.kv, n)
    ensures n <= m && VersionIs(MetaApply(handler, crypto, s, step).kv, m)
    ensures m == n ==> MetaApply(handler, crypto, s, step).nonces == s.nonces && !Succeeds(handler, crypto, s, step)
  {
    match step
    case Other(chain) =>
      m :| n <= m && VersionIs(chain.kv, m);
    case Send(request, signature) =>
      hide MetaRollup, Rollup, FromSession, VersionIs;
      SendMovesNonce(handler, crypto, s, request, signature);
      MetaRollupIsRollup(handler, crypto, s, request, signature);
      m := n;
      if MetaRollup(handler, crypto, s, request, signature).1.Pass? {
        m := SentRaises(handler, crypto, s, request, n);
      }
  }

  lemma SentRaises<H>(handler: Handler<H>, crypto: Crypto, s: Chain<H>, request: ForwardRequest, n: nat) returns (m: nat)
    requires VersionIs(s.kv, n) && crypto.decode(request.data).Some?
    requires exists k: nat :: k + 1 < U32_LIMIT && FromSession(crypto.decode(request.data).value, k)
    requires Rollup(handler, s, request.from, crypto.decode(request.data).value).1.Pass?
    ensures m == n + 1 && VersionIs(Rollup(handler, s, request.from, crypto.decode(request.data).value).0.kv, m)
  {
    hide FromSession, Rollup;
    var k: nat :| k + 1 < U32_LIMIT && FromSession(crypto.decode(request.data).value, k);
    AcceptedMovesVersion(handler, s, request.from, crypto.decode(request.data).value, k);
    VersionIsUnique(s.kv, n, k);
    m := n + 1;
  }

  lemma {:induction false} RunKeepsOrRaises<H>(
      handler: Handler<H>, crypto: Crypto, s: Chain<H>, steps: seq<MetaStep<H>>, n: nat) returns (m: nat)
    requires SessionSteps(handler, crypto, s, steps) && VersionIs(s.kv, n)
    ensures n <= m && VersionIs(MetaRun(handler, crypto, s, steps).kv, m)
    ensures m == n ==> MetaRun(handler, crypto, s, steps).nonces == s.nonces
  {
    hide VersionIs, MetaApply, SessionStep;
    if steps == [] {
      m := n;
    } else {
      var front := steps[..|steps| - 1];
      forall i | 0 <= i < |front| ensures front[..i] == steps[..i] && front[i] == steps[i] {
      }
      var k := RunKeepsOrRaises(handler, crypto, s, front, n);
      m := StepKeepsOrRaises(handler, crypto, MetaRun(handler, crypto, s, front), steps[|steps| - 1], k);
    }
  }

  /**
    A session's version protects its nonce. As long as the version stands, no request has succeeded
    since: whatever was prepared under it still has the current nonce and is not refused for it.
   */
  lemma VersionProtectsNonce<H>(
      handler: Handler<H>, crypto: Crypto, s: Chain<H>, steps: seq<MetaStep<H>>, n: nat, from: Address, data: Bytes,
      signature: Signature)
    requires SessionSteps(handler, crypto, s, steps) && VersionIs(s.kv, n)
    requires VersionIs(MetaRun(handler, crypto, s, steps).kv, n)
    ensures MetaRun(handler, crypto, s, steps).nonces == s.nonces
    ensures Verify(crypto, MetaRun(handler, crypto, s, steps).nonces, Prepare(crypto, s.nonces, from, data), signature) !=
            Fail(NonceTooLow)
  {
    hide SessionSteps, MetaRun, VersionIs;
    var m := RunKeepsOrRaises(handler, crypto, s, steps, n);
    VersionIsUnique(MetaRun(handler, crypto, s, steps).kv, m, n);
  }
}
