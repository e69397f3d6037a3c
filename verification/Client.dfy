/**
  The worker's client as an object. The contract keeps changing while a session runs: remote(n)
  is its store, and nonces(n) are its nonces, at the moment the client's n-th query is answered.
  Both can be any sequences at all.
 */
module Client {
  import opened Wrappers
  import opened ByteCodec
  import opened KvStore
  import opened RollupErrors
  import opened AccessControl
  import opened MessageQueue
  import opened RollupClient
  import opened Session
  import opened MetaTransaction
  import Protocol
  import RollupContract

  /** The mutable record behind a session. */
  class SessionRecord {
    var version: Option<Option<nat>>
    var values: InsertionMap
    var updates: InsertionMap
    var actions: seq<Bytes>
    var currentIndex: Option<nat>
    var indexUpdated: bool

    ghost function View(): SessionState
      reads this
    {
      SessionState(version, values, updates, actions, currentIndex, indexUpdated)
    }

    constructor ()
      ensures View() == NEW_SESSION
    {
      version, values, updates, actions, currentIndex, indexUpdated := None, EMPTY_MAP, EMPTY_MAP, [], None, false;
    }

    predicate HasUpdates()
      reads this
    {
      indexUpdated || updates.keys != [] || actions != []
    }
  }

  /** What became of a commit. */
  datatype CommitResult =
    | NothingToCommit
    | Sent
    | SentThenThrown(thrown: Thrown)
    | Rejected(error: Error)
    | NotSent(thrown: Thrown)
  {
    predicate Accepted() {
      Sent? || SentThenThrown?
    }
  }

  /** The account that signs for a client whose transactions another account sends. */
  datatype Signer = Signer(account: Address, encode: RollupParams -> Bytes, sign: ForwardRequest -> Signature)

  function Request(crypto: Crypto, nonces: Nonces, signing: Signer, params: RollupParams): ForwardRequest {
    MetaTransaction.Prepare(crypto, nonces, signing.account, signing.encode(params))
  }

  /** What becomes of a commit's transaction, sent by the attestor itself or signed as a meta-transaction. */
  function Submit<H>(
      handler: Handler<H>, crypto: Crypto, s: Chain<H>, attestor: Address, signer: Option<Signer>, nonces: Nonces,
      params: RollupParams)
    : (Chain<H>, Outcome<Error>)
  {
    match signer
    case None => Rollup(handler, s, attestor, params)
    case Some(signing) =>
      var request := Request(crypto, nonces, signing, params);
      MetaRollup(handler, crypto, s, request, signing.sign(request))
  }

  /**
    A commit sent directly is the commit step of the protocol: the same session sends the same
    transaction, and it is accepted by the contract object exactly when the step changes anything.
   */
  lemma DirectCommitIsStep<H>(
      handler: Handler<H>, crypto: Crypto, c: Protocol.Config<H>, w: Protocol.WorkerId, attestor: Address, nonces: Nonces)
    ensures var sent, after := CommitParams(c.WorkerAt(w).session), Protocol.Apply(handler, c, Protocol.Commit(w, attestor));
            if sent.Ok? && sent.value.Some? then
              var (chain, outcome) := Submit(handler, crypto, c.chain, attestor, None, nonces, sent.value.value);
              after.chain == chain && (outcome.Pass? <==> after != c)
            else after == c
  {
    hide RollupInner, CommitParams;
    var after := Protocol.Apply(handler, c, Protocol.Commit(w, attestor));
    assert after != c ==> |after.events| == |c.events| + 1;
  }

  /**
    A signed commit does what the signer's own would do and uses up its nonce, provided the
    contract reads data and signature as the client wrote them, and exactly if no other request of
    the signer has succeeded since the nonce was asked for.
   */
  lemma SignedCommitIsCommit<H>(
      handler: Handler<H>, crypto: Crypto, s: Chain<H>, attestor: Address, signing: Signer, nonces: Nonces, params: RollupParams)
    requires crypto.decode(signing.encode(params)) == Some(params)
    requires crypto.recover(Request(crypto, nonces, signing, params), signing.sign(Request(crypto, nonces, signing, params))) == Some(signing.account)
    requires NonceOf(nonces, signing.account) + 1 < NONCE_LIMIT
    ensures var (after, outcome) := Submit(handler, crypto, s, attestor, Some(signing), nonces, params);
            && (outcome.Pass? <==>
                  NonceOf(nonces, signing.account) == NonceOf(s.nonces, signing.account) && Rollup(handler, s, signing.account, params).1.Pass?)
            && (outcome.Fail? ==> after == s)
            && (outcome.Pass? ==>
                  after == Rollup(handler, s, signing.account, params).0
                             .(nonces := s.nonces[signing.account := NonceOf(s.nonces, signing.account) + 1]))
  {
    hide Rollup, MetaRollup;
    var request := Request(crypto, nonces, signing, params);
    assert request.from == signing.account && request.data == signing.encode(params) && request.to == crypto.self;
    MetaRollupIsRollup(handler, crypto, s, request, signing.sign(request));
    SendMovesNonce(handler, crypto, s, request, signing.sign(request));
  }

  class WorkerClient {
    const remote: nat -> Store
    const nonces: nat -> Nonces
    const decodes: Bytes -> bool
    const signer: Option<Signer>
    var asked: nat
    var currentSession: SessionRecord

    constructor (remote: nat -> Store, nonces: nat -> Nonces, decodes: Bytes -> bool, signer: Option<Signer>)
      ensures this.remote == remote && this.nonces == nonces && this.decodes == decodes && this.signer == signer && asked == 0
      ensures fresh(currentSession) && currentSession.View() == NEW_SESSION
    {
      this.remote := remote;
      this.nonces := nonces;
      this.decodes := decodes;
      this.signer := signer;
      this.asked := 0;
      this.currentSession := new SessionRecord();
    }

    method GetRemoteValue(key: Key) returns (value: Option<Value>)
      modifies this`asked
      ensures value == Get(remote(old(asked)), key)
      ensures asked == old(asked) + 1
    {
      value := Get(remote(asked), key);
      asked := asked + 1;
    }

    method GetRemoteIndex(key: Key) returns (index: Result<nat, Thrown>)
      modifies this`asked
      ensures index == RemoteIndex(remote(old(asked)), key)
      ensures asked == old(asked) + 1
    {
      var stored := GetRemoteValue(key);
      match stored
      case None => index := Ok(0);
      case Some(v) =>
        match DecodeU32(v)
        case None => index := Err(UndecodableNumber);
        case Some(n) => index := Ok(n);
    }

    /** Asks the contract only for a key the session neither wrote nor read before. */
    method GetValueOf(key: Key) returns (value: Option<Value>)
      modifies this`asked, currentSession
      ensures (currentSession.View(), value) == GetValue(old(currentSession.View()), key, remote(old(asked)))
      ensures old(asked) <= asked <= old(asked) + 1
    {
      if key in currentSession.updates.entries {
        return currentSession.updates.entries[key];
      }
      if key in currentSession.values.entries {
        return currentSession.values.entries[key];
      }
      value := GetRemoteValue(key);
      currentSession.values := currentSession.values.Put(key, value);
    }

    /** The contract's own has_message, asked of the store of the moment. */
    method QueryHasMessage() returns (r: Result<bool, Thrown>)
      modifies this`asked
      ensures asked == old(asked) + 1
      ensures match HasMessage(remote(old(asked)))
              case Ok(b) => r == Ok(b)
              case Err(e) => r == Err(QueryFailed(e))
    {
      var answer := HasMessage(remote(asked));
      asked := asked + 1;
      match answer
      case Ok(b) => return Ok(b);
      case Err(e) => return Err(QueryFailed(e));
    }

    method SetValueOf(key: Key, value: Option<Value>)
      modifies currentSession
      ensures currentSession.View() == SetValue(old(currentSession.View()), key, value)
    {
      currentSession.updates := currentSession.updates.Put(key, value);
    }

    method AddReply(data: Bytes)
      modifies currentSession
      ensures currentSession.View() == AddAction(old(currentSession.View()), data)
    {
      currentSession.actions := currentSession.actions + [data];
    }

    /** The session is replaced before the version is read, and keeps the read in its cache. */
    method Start() returns (outcome: Outcome<Thrown>)
      modifies this
      ensures fresh(currentSession)
      ensures (currentSession.View(), outcome) == StartSession(remote(old(asked)))
      ensures old(asked) <= asked <= old(asked) + 1
    {
      currentSession := new SessionRecord();
      var value := GetValueOf(VERSION_KEY);
      match value
      case None =>
        currentSession.version := Some(None);
        return Pass;
      case Some(bytes) =>
        match DecodeU32(bytes)
        case None => return Fail(UndecodableNumber);
        case Some(n) =>
          currentSession.version := Some(Some(n));
          return Pass;
    }

    method Rollback() returns (outcome: Outcome<Thrown>)
      modifies this
      ensures fresh(currentSession)
      ensures (currentSession.View(), outcome) == StartSession(remote(old(asked)))
    {
      outcome := Start();
    }

    method GetMessage(index: nat) returns (message: Result<Bytes, Thrown>)
      modifies this`asked
      ensures message == MessageAt(remote(old(asked)), index, decodes)
      ensures asked == old(asked) + 1
    {
      var stored := GetRemoteValue(MessageKey(index));
      match stored
      case None => return Err(MissingMessage(index));
      case Some(m) =>
        if !decodes(m) {
          return Err(UndecodableMessage(index));
        }
        return Ok(m);
    }

    /** Up to three remote reads, none of which enters the session's cache. */
    method Poll() returns (message: Result<Option<Bytes>, Thrown>)
      modifies this`asked, currentSession
      ensures (currentSession.View(), message) ==
              PollMessage(old(currentSession.View()), remote(old(asked)), remote(old(asked) + 1),
                          remote(if old(currentSession.currentIndex).None? then old(asked) + 2 else old(asked) + 1), decodes)
    {
      hide RemoteIndex, PollItem, PollMessage, PollHead;
      ghost var before, at := currentSession.View(), asked;
      ghost var atItem := remote(if before.currentIndex.None? then at + 2 else at + 1);
      PollByParts(before, remote(at), remote(at + 1), atItem, decodes);
      var tail := GetRemoteIndex(TAIL_KEY);
      if tail.Err? {
        return Err(tail.error);
      }
      var positioned := Position();
      if positioned.Fail? {
        return Err(positioned.error);
      }
      message := TakeNext(tail.value);
    }

    /** The message under the current index, when that is before the tail. */
    method TakeNext(tail: nat) returns (message: Result<Option<Bytes>, Thrown>)
      requires currentSession.currentIndex.Some?
      modifies this`asked, currentSession
      ensures match PollItem(old(currentSession.View()), tail, remote(old(asked)), decodes)
              case Ok((session, m)) => message == Ok(m) && currentSession.View() == session
              case Err(e) => message == Err(e) && currentSession.View() == old(currentSession.View())
    {
      hide MessageAt;
      var index := currentSession.currentIndex.value;
      if index >= tail {
        return Ok(None);
      }
      var found := GetMessage(index);
      if found.Err? {
        return Err(found.error);
      }
      currentSession.currentIndex := Some(index + 1);
      currentSession.indexUpdated := true;
      return Ok(Some(found.value));
    }

    /** The first poll of a session asks for the head. */
    method Position() returns (outcome: Outcome<Thrown>)
      modifies this`asked, currentSession
      ensures match PollHead(old(currentSession.View()), remote(old(asked)))
              case Ok(session) => outcome == Pass && currentSession.View() == session
              case Err(e) => outcome == Fail(e) && currentSession.View() == old(currentSession.View())
      ensures asked == if old(currentSession.currentIndex).None? then old(asked) + 1 else old(asked)
    {
      hide RemoteIndex;
      if currentSession.currentIndex.None? {
        var head := GetRemoteIndex(HEAD_KEY);
        if head.Err? {
          return Fail(head.error);
        }
        currentSession.currentIndex := Some(head.value);
      }
      return Pass;
    }

    /** Lists conditions, updates and actions entry by entry. */
    method Prepare() returns (params: Result<Option<RollupParams>, Thrown>)
      ensures params == CommitParams(currentSession.View())
    {
      hide EncodeU32;
      if !currentSession.HasUpdates() {
        return Ok(None);
      }
      var conditions := PairsOf(currentSession.values);
      var version: nat;
      match currentSession.version {
        case None => return Err(SessionNotStarted);
        case Some(None) => version := 1;
        case Some(Some(n)) => version := n + 1;
      }
      var updates := [VersionUpdate(version)];
      var written := PairsOf(currentSession.updates);
      updates := updates + written;
      var actions: seq<Action> := [];
      if currentSession.indexUpdated && currentSession.currentIndex.Some? {
        actions := actions + [SetQueueHead(currentSession.currentIndex.value)];
      }
      for i := 0 to |currentSession.actions|
        invariant actions == HeadMove(currentSession.View()) + AsReplies(currentSession.actions[..i])
      {
        actions := actions + [Reply(currentSession.actions[i])];
      }
      assert currentSession.actions[..|currentSession.actions|] == currentSession.actions;
      return Ok(Some(RollupParams(conditions, updates, actions)));
    }

    method PairsOf(m: InsertionMap) returns (pairs: seq<KeyValue>)
      ensures pairs == m.Pairs()
    {
      pairs := [];
      for i := 0 to |m.keys|
        invariant pairs == m.Pairs()[..i]
      {
        pairs := pairs + [(m.keys[i], m.entries[m.keys[i]])];
      }
    }

    /** Asks for the signer's nonce, signs, and sends the request. */
    method SendMetaTransaction<H>(contract: RollupContract.Contract<H>, signing: Signer, params: RollupParams)
      returns (outcome: Outcome<Error>)
      modifies this`asked, contract
      ensures asked == old(asked) + 1
      ensures var request := Request(contract.crypto, nonces(old(asked)), signing, params);
              (contract.State(), outcome) ==
              MetaRollup(contract.onMessageReceived, contract.crypto, old(contract.State()), request, signing.sign(request))
      ensures outcome.Fail? ==> contract.State() == old(contract.State())
    {
      var request := Request(contract.crypto, nonces(asked), signing, params);
      asked := asked + 1;
      outcome := contract.MetaTxRollupCondEq(request, signing.sign(request));
    }

    /** Sends it directly, or signed if the client has a signer. */
    method Send<H>(contract: RollupContract.Contract<H>, attestor: Address, params: RollupParams)
      returns (outcome: Outcome<Error>)
      modifies this`asked, contract
      ensures asked == if signer.Some? then old(asked) + 1 else old(asked)
      ensures (contract.State(), outcome) ==
              Submit(contract.onMessageReceived, contract.crypto, old(contract.State()), attestor, signer, nonces(old(asked)), params)
      ensures outcome.Fail? ==> contract.State() == old(contract.State())
    {
      hide Rollup, MetaRollup;
      match signer
      case None => outcome := contract.RollupCondEq(attestor, params);
      case Some(signing) => outcome := SendMetaTransaction(contract, signing, params);
    }

    /**
      Sends the transaction. A refused one leaves contract and session as they are; after an
      accepted one the next session is started, which may still throw on the version it reads.
     */
    method Commit<H>(contract: RollupContract.Contract<H>, attestor: Address) returns (r: CommitResult)
      modifies this, currentSession, contract
      ensures match CommitParams(old(currentSession.View()))
              case Err(thrown) => r == NotSent(thrown)
              case Ok(None) => r == NothingToCommit
              case Ok(Some(params)) =>
                match Submit(contract.onMessageReceived, contract.crypto, old(contract.State()), attestor, signer,
                             nonces(old(asked)), params)
                case (after, Pass) => r.Accepted() && contract.State() == after
                case (_, Fail(e)) => r == Rejected(e)
      ensures var next := remote(if signer.Some? then old(asked) + 1 else old(asked));
              r.Accepted() ==>
                && currentSession.View() == StartSession(next).0
                && (r.SentThenThrown? <==> StartSession(next).1 == Fail(UndecodableNumber))
      ensures !r.Accepted() ==> contract.State() == old(contract.State())
      ensures !r.Accepted() ==> currentSession == old(currentSession) && currentSession.View() == old(currentSession.View())
    {
      hide Submit, StartSession, CommitParams;
      var params := Prepare();
      match params
      case Err(thrown) => return NotSent(thrown);
      case Ok(None) => return NothingToCommit;
      case Ok(Some(p)) =>
        var outcome := Send(contract, attestor, p);
        if outcome.Fail? {
          return Rejected(outcome.error);
        }
        StartThrows(remote(asked));
        var started := Start();
        if started.Fail? {
          return SentThenThrown(started.error);
        }
        return Sent;
    }
  }
}
