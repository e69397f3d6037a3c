/**
  The token contract behind the game's attempt limits: five mappings changed step by step.
  The functions give the storage an internal call leaves behind even when it stops half way;
  a message that fails, or panics, restores the storage it found.
 */
module Erc721 {
  import opened Wrappers
  import opened ByteCodec
  import opened AccessControl

  type TokenId = U32

  datatype TokenError = NotOwner | NotApproved | TokenExists | TokenNotFound | CannotInsert | CannotFetchValue | NotAllowed

  datatype TokenOutcome = Done | Failed(error: TokenError) | Panicked

  datatype Tokens = Tokens(
    owners: map<TokenId, Address>,
    approvals: map<TokenId, Address>,
    counts: map<Address, U32>,
    operators: set<(Address, Address)>,
    maxAttempts: map<TokenId, U32>)

  const NO_TOKENS: Tokens := Tokens(map[], map[], map[], {}, map[])

  datatype TokenCall =
    | SetApprovalForAll(to: Address, approved: bool)
    | Approve(to: Address, id: TokenId)
    | TransferFrom(from: Address, to: Address, id: TokenId)
    | Mint(id: TokenId, maxAttempts: U32)
    | Burn(id: TokenId)

  function BalanceOf(s: Tokens, account: Address): U32 {
    if account in s.counts then s.counts[account] else 0
  }

  function OwnerOf(s: Tokens, id: TokenId): Option<Address> {
    if id in s.owners then Some(s.owners[id]) else None
  }

  predicate ApprovedOrOwner(s: Tokens, from: Address, id: TokenId, owner: Address) {
    && from != ZERO_ADDRESS
    && (from == owner || (id in s.approvals && s.approvals[id] == from) || (owner, from) in s.operators)
  }

  function RemoveTokenFrom(s: Tokens, from: Address, id: TokenId): (Tokens, TokenOutcome) {
    if id !in s.owners then (s, Failed(TokenNotFound))
    else if from !in s.counts then (s, Failed(CannotFetchValue))
    else if s.counts[from] == 0 then (s, Panicked)
    else (s.(counts := s.counts[from := s.counts[from] - 1], owners := s.owners - {id}), Done)
  }

  function AddTokenTo(s: Tokens, to: Address, id: TokenId): (Tokens, TokenOutcome) {
    if id in s.owners then (s, Failed(TokenExists))
    else if to == ZERO_ADDRESS then (s, Failed(NotAllowed))
    else if BalanceOf(s, to) + 1 >= U32_LIMIT then (s, Panicked)
    else (s.(counts := s.counts[to := BalanceOf(s, to) + 1], owners := s.owners[id := to]), Done)
  }

  function TransferTokenFrom(s: Tokens, caller: Address, from: Address, to: Address, id: TokenId): (Tokens, TokenOutcome) {
    match OwnerOf(s, id)
    case None => (s, Failed(TokenNotFound))
    case Some(owner) =>
      if !ApprovedOrOwner(s, caller, id, owner) then (s, Failed(NotApproved))
      else if owner != from then (s, Failed(NotOwner))
      else
        match RemoveTokenFrom(s.(approvals := s.approvals - {id}), from, id)
        case (removed, Done) => AddTokenTo(removed, to, id)
        case stopped => stopped
  }

  function MintToken(s: Tokens, caller: Address, id: TokenId, maxAttempts: U32): (Tokens, TokenOutcome) {
    if id in s.maxAttempts then (s, Failed(TokenExists))
    else AddTokenTo(s.(maxAttempts := s.maxAttempts[id := maxAttempts]), caller, id)
  }

  function BurnToken(s: Tokens, caller: Address, id: TokenId): (Tokens, TokenOutcome) {
    match OwnerOf(s, id)
    case None => (s, Failed(TokenNotFound))
    case Some(owner) =>
      if owner != caller then (s, Failed(NotOwner))
      else if id !in s.maxAttempts then (s, Failed(TokenNotFound))
      else if caller !in s.counts then (s, Failed(CannotFetchValue))
      else if s.counts[caller] == 0 then (s, Panicked)
      else (s.(counts := s.counts[caller := s.counts[caller] - 1],
               owners := s.owners - {id},
               maxAttempts := s.maxAttempts - {id},
               approvals := s.approvals - {id}), Done)
  }

  function ApproveFor(s: Tokens, caller: Address, to: Address, id: TokenId): (Tokens, TokenOutcome) {
    match OwnerOf(s, id)
    case None => (s, Failed(TokenNotFound))
    case Some(owner) =>
      if !(owner == caller || (owner, caller) in s.operators) then (s, Failed(NotAllowed))
      else if to == ZERO_ADDRESS then (s, Failed(NotAllowed))
      else if id in s.approvals then (s, Failed(CannotInsert))
      else (s.(approvals := s.approvals[id := to]), Done)
  }

  function ApproveForAll(s: Tokens, caller: Address, to: Address, approved: bool): (Tokens, TokenOutcome) {
    if to == caller then (s, Failed(NotAllowed))
    else (s.(operators := if approved then s.operators + {(caller, to)} else s.operators - {(caller, to)}), Done)
  }

  function CallInner(s: Tokens, caller: Address, call: TokenCall): (Tokens, TokenOutcome) {
    match call
    case SetApprovalForAll(to, approved) => ApproveForAll(s, caller, to, approved)
    case Approve(to, id) => ApproveFor(s, caller, to, id)
    case TransferFrom(from, to, id) => TransferTokenFrom(s, caller, from, to, id)
    case Mint(id, maxAttempts) => MintToken(s, caller, id, maxAttempts)
    case Burn(id) => BurnToken(s, caller, id)
  }

  /** One message: all or nothing. */
  function CallTokens(s: Tokens, caller: Address, call: TokenCall): (Tokens, TokenOutcome) {
    var (after, outcome) := CallInner(s, caller, call);
    if outcome.Done? then (after, Done) else (s, outcome)
  }

  function RunTokens(s: Tokens, calls: seq<(Address, TokenCall)>): Tokens {
    if calls == [] then s else
    var last := calls[|calls| - 1];
    CallTokens(RunTokens(s, calls[..|calls| - 1]), last.0, last.1).0
  }

  /** From deployment these messages lead to this storage. */
  predicate Reaches(calls: seq<(Address, TokenCall)>, s: Tokens) {
    s == RunTokens(NO_TOKENS, calls)
  }

  // ---------- the invariant ----------

  ghost function Owned(owners: map<TokenId, Address>, account: Address): set<TokenId> {
    set id | id in owners && owners[id] == account
  }

  ghost predicate CountsOk(s: Tokens) {
    forall a: Address :: BalanceOf(s, a) == |Owned(s.owners, a)|
  }

  ghost predicate DomainsOk(s: Tokens) {
    && s.owners.Keys == s.maxAttempts.Keys
    && s.approvals.Keys <= s.owners.Keys
    && forall id | id in s.owners :: s.owners[id] != ZERO_ADDRESS
  }

  lemma OwnedWithout(owners: map<TokenId, Address>, id: TokenId, a: Address)
    requires id in owners
    ensures |Owned(owners - {id}, a)| == |Owned(owners, a)| - if owners[id] == a then 1 else 0
  {
    if owners[id] == a {
      assert Owned(owners - {id}, a) == Owned(owners, a) - {id};
    } else {
      assert Owned(owners - {id}, a) == Owned(owners, a);
    }
  }

  lemma OwnedWith(owners: map<TokenId, Address>, id: TokenId, to: Address, a: Address)
    requires id !in owners
    ensures |Owned(owners[id := to], a)| == |Owned(owners, a)| + if to == a then 1 else 0
  {
    if to == a {
      assert Owned(owners[id := to], a) == Owned(owners, a) + {id};
    } else {
      assert Owned(owners[id := to], a) == Owned(owners, a);
    }
  }

  /** An owner of a token has a positive count: neither the panic nor CannotFetchValue can be reached. */
  lemma OwnersAreCounted(s: Tokens, id: TokenId)
    requires CountsOk(s) && id in s.owners
    ensures s.owners[id] in s.counts && s.counts[s.owners[id]] > 0
  {
    assert id in Owned(s.owners, s.owners[id]);
    assert BalanceOf(s, s.owners[id]) == |Owned(s.owners, s.owners[id])|;
  }

  lemma RemoveKeepsCounts(s: Tokens, id: TokenId)
    requires CountsOk(s) && id in s.owners
    ensures var (after, outcome) := RemoveTokenFrom(s, s.owners[id], id);
            outcome == Done && CountsOk(after)
  {
    OwnersAreCounted(s, id);
    var after := RemoveTokenFrom(s, s.owners[id], id).0;
    forall a: Address ensures BalanceOf(after, a) == |Owned(after.owners, a)| {
      OwnedWithout(s.owners, id, a);
      assert BalanceOf(s, a) == |Owned(s.owners, a)|;
    }
  }

  lemma AddKeepsCounts(s: Tokens, to: Address, id: TokenId)
    requires CountsOk(s) && AddTokenTo(s, to, id).1.Done?
    ensures CountsOk(AddTokenTo(s, to, id).0)
  {
    var after := AddTokenTo(s, to, id).0;
    forall a: Address ensures BalanceOf(after, a) == |Owned(after.owners, a)| {
      OwnedWith(s.owners, id, to, a);
      assert BalanceOf(s, a) == |Owned(s.owners, a)|;
    }
  }

  /** Removing the owner's token and adding it again puts every count back: a self-transfer is neutral. */
  lemma TransferMeaning(s: Tokens, caller: Address, from: Address, to: Address, id: TokenId)
    requires CountsOk(s) && DomainsOk(s)
    ensures var (after, outcome) := CallTokens(s, caller, TransferFrom(from, to, id));
            && outcome == (match OwnerOf(s, id)
                           case None => Failed(TokenNotFound)
                           case Some(owner) =>
                             if !ApprovedOrOwner(s, caller, id, owner) then Failed(NotApproved)
                             else if from != owner then Failed(NotOwner)
                             else if to == ZERO_ADDRESS then Failed(NotAllowed)
                             else if from != to && BalanceOf(s, to) == U32_LIMIT - 1 then Panicked
                             else Done)
            && (outcome.Done? ==>
                  && after.owners == s.owners[id := to]
                  && after.approvals == s.approvals - {id}
                  && after.operators == s.operators && after.maxAttempts == s.maxAttempts
                  && CountsOk(after)
                  && (from == to ==> forall a: Address :: BalanceOf(after, a) == BalanceOf(s, a)))
  {
    if OwnerOf(s, id) == Some(from) {
      var cleared := s.(approvals := s.approvals - {id});
      SameCounts(s, cleared);
      MovedCounts(cleared, from, to, id);
      hide CountsOk, ApprovedOrOwner;
    }
  }

  /** Taking a token from its owner and giving it to an account that can hold one more. */
  lemma MovedCounts(s: Tokens, from: Address, to: Address, id: TokenId)
    requires CountsOk(s) && OwnerOf(s, id) == Some(from)
    ensures RemoveTokenFrom(s, from, id).1.Done?
    ensures var (after, outcome) := AddTokenTo(RemoveTokenFrom(s, from, id).0, to, id);
            outcome.Done? ==>
              && after.owners == s.owners[id := to]
              && CountsOk(after)
              && (from == to ==> forall a: Address :: BalanceOf(after, a) == BalanceOf(s, a))
  {
    RemoveKeepsCounts(s, id);
    OwnersAreCounted(s, id);
    var removed := RemoveTokenFrom(s, from, id).0;
    hide CountsOk;
    if AddTokenTo(removed, to, id).1.Done? {
      AddKeepsCounts(removed, to, id);
      assert s.owners[id := to] == (s.owners - {id})[id := to];
    }
  }

  lemma BurnMeaning(s: Tokens, caller: Address, id: TokenId)
    requires CountsOk(s) && DomainsOk(s)
    ensures var (after, outcome) := CallTokens(s, caller, Burn(id));
            && outcome == (match OwnerOf(s, id)
                           case None => Failed(TokenNotFound)
                           case Some(owner) => if owner == caller then Done else Failed(NotOwner))
            && (outcome.Done? ==>
                  && CountsOk(after)
                  && after == Tokens(s.owners - {id}, s.approvals - {id}, after.counts, s.operators, s.maxAttempts - {id}))
  {
    if OwnerOf(s, id) == Some(caller) {
      OwnersAreCounted(s, id);
      RemoveKeepsCounts(s, id);
      var removed, after := RemoveTokenFrom(s, caller, id).0, BurnToken(s, caller, id).0;
      assert after.counts == removed.counts && after.owners == removed.owners;
      SameCounts(removed, after);
    }
  }

  lemma SameCounts(a: Tokens, b: Tokens)
    requires CountsOk(a) && a.counts == b.counts && a.owners == b.owners
    ensures CountsOk(b)
  {
    forall x: Address ensures BalanceOf(b, x) == |Owned(b.owners, x)| {
      assert BalanceOf(a, x) == |Owned(a.owners, x)|;
    }
  }

  lemma MintMeaning(s: Tokens, caller: Address, id: TokenId, maxAttempts: U32)
    requires CountsOk(s) && DomainsOk(s)
    ensures var (after, outcome) := CallTokens(s, caller, Mint(id, maxAttempts));
            && outcome == (if id in s.owners then Failed(TokenExists)
                           else if caller == ZERO_ADDRESS then Failed(NotAllowed)
                           else if BalanceOf(s, caller) + 1 >= U32_LIMIT then Panicked
                           else Done)
            && (outcome.Done? ==>
                  && CountsOk(after) && id !in after.approvals
                  && after == Tokens(s.owners[id := caller], s.approvals, after.counts, s.operators, s.maxAttempts[id := maxAttempts]))
  {
    var registered := s.(maxAttempts := s.maxAttempts[id := maxAttempts]);
    SameCounts(s, registered);
    if AddTokenTo(registered, caller, id).1.Done? {
      AddKeepsCounts(registered, caller, id);
    }
  }

  lemma CallKeepsDomains(s: Tokens, caller: Address, call: TokenCall)
    requires DomainsOk(s)
    ensures DomainsOk(CallTokens(s, caller, call).0)
  {
    hide ApprovedOrOwner;
  }

  lemma CallKeepsCounts(s: Tokens, caller: Address, call: TokenCall)
    requires CountsOk(s) && DomainsOk(s)
    ensures CountsOk(CallTokens(s, caller, call).0)
  {
    hide CountsOk, ApprovedOrOwner;
    match call
    case SetApprovalForAll(to, approved) => SameCounts(s, CallTokens(s, caller, call).0);
    case Approve(to, id) => SameCounts(s, CallTokens(s, caller, call).0);
    case TransferFrom(from, to, id) =>
      hide CallInner;
      TransferMeaning(s, caller, from, to, id);
    case Mint(id, maxAttempts) =>
      hide CallInner;
      MintMeaning(s, caller, id, maxAttempts);
    case Burn(id) =>
      hide CallInner;
      BurnMeaning(s, caller, id);
  }

  lemma CallKeepsInvariant(s: Tokens, caller: Address, call: TokenCall)
    requires CountsOk(s) && DomainsOk(s)
    ensures var (after, outcome) := CallTokens(s, caller, call); CountsOk(after) && DomainsOk(after)
  {
    hide CountsOk, DomainsOk, CallTokens;
    CallKeepsCounts(s, caller, call);
    CallKeepsDomains(s, caller, call);
  }

  /**
    In every reachable state each stored balance is the number of tokens its account owns, the
    owned ids are the ids with a limit, every approval is for a live token and nobody's token
    belongs to the zero address.
   */
  lemma {:induction false} InvariantOverRuns(calls: seq<(Address, TokenCall)>)
    ensures CountsOk(RunTokens(NO_TOKENS, calls)) && DomainsOk(RunTokens(NO_TOKENS, calls))
  {
    if calls == [] {
      forall a: Address ensures BalanceOf(NO_TOKENS, a) == |Owned(NO_TOKENS.owners, a)| {
        assert Owned(NO_TOKENS.owners, a) == {};
      }
    } else {
      var n := |calls| - 1;
      InvariantOverRuns(calls[..n]);
      CallKeepsInvariant(RunTokens(NO_TOKENS, calls[..n]), calls[n].0, calls[n].1);
    }
  }

  /**
    In every reachable state no call returns CannotFetchValue, and a call panics only when its
    receiver already holds 2^32 - 1 tokens: the underflow panic is never reached.
   */
  lemma NoUnderflow(calls: seq<(Address, TokenCall)>, s: Tokens, caller: Address, call: TokenCall)
    requires Reaches(calls, s)
    ensures var outcome := CallTokens(s, caller, call).1;
            && outcome != Failed(CannotFetchValue)
            && (outcome.Panicked? ==>
                  match call
                  case Mint(_, _) => BalanceOf(s, caller) == U32_LIMIT - 1
                  case TransferFrom(from, to, _) => from != to && BalanceOf(s, to) == U32_LIMIT - 1
                  case _ => false)
  {
    InvariantOverRuns(calls);
    match call
    case TransferFrom(from, to, id) =>
      TransferMeaning(s, caller, from, to, id);
      if id in s.owners {
        OwnersAreCounted(s, id);
      }
    case Mint(id, maxAttempts) => MintMeaning(s, caller, id, maxAttempts);
    case Burn(id) => BurnMeaning(s, caller, id);
    case _ =>
  }

  // ---------- the total ----------

  ghost function Pick(accounts: set<Address>): Address
    requires accounts != {}
    ensures Pick(accounts) in accounts
  {
    var a :| a in accounts; a
  }

  ghost function SumOfCounts(counts: map<Address, U32>, accounts: set<Address>): nat
    requires accounts <= counts.Keys
  {
    if accounts == {} then 0 else
    var a := Pick(accounts);
    counts[a] + SumOfCounts(counts, accounts - {a})
  }

  ghost function OwnedByAny(owners: map<TokenId, Address>, accounts: set<Address>): set<TokenId> {
    set id | id in owners && owners[id] in accounts
  }

  lemma {:induction false} SumIsOwned(s: Tokens, accounts: set<Address>)
    requires CountsOk(s) && accounts <= s.counts.Keys
    ensures SumOfCounts(s.counts, accounts) == |OwnedByAny(s.owners, accounts)|
  {
    if accounts == {} {
      assert OwnedByAny(s.owners, accounts) == {};
    } else {
      var a := Pick(accounts);
      SumIsOwned(s, accounts - {a});
      assert BalanceOf(s, a) == |Owned(s.owners, a)|;
      hide CountsOk, Pick;
      OwnedByOneAndRest(s.owners, accounts, a);
    }
  }

  lemma OwnedByOneAndRest(owners: map<TokenId, Address>, accounts: set<Address>, a: Address)
    requires a in accounts
    ensures |OwnedByAny(owners, accounts)| == |Owned(owners, a)| + |OwnedByAny(owners, accounts - {a})|
  {
    assert OwnedByAny(owners, accounts) == Owned(owners, a) + OwnedByAny(owners, accounts - {a});
    assert Owned(owners, a) !! OwnedByAny(owners, accounts - {a});
  }

  /** In every reachable state the balances add up to the number of live tokens. */
  lemma BalancesSumToSupply(calls: seq<(Address, TokenCall)>, s: Tokens)
    requires Reaches(calls, s)
    ensures SumOfCounts(s.counts, s.counts.Keys) == |s.owners|
  {
    InvariantOverRuns(calls);
    SumIsOwned(s, s.counts.Keys);
    forall id | id in s.owners ensures s.owners[id] in s.counts {
      OwnersAreCounted(s, id);
    }
    assert OwnedByAny(s.owners, s.counts.Keys) == s.owners.Keys;
  }

  // ---------- approvals and authority ----------

  function StateAt(calls: seq<(Address, TokenCall)>, k: nat): Tokens
    requires k <= |calls|
  {
    RunTokens(NO_TOKENS, calls[..k])
  }

  predicate Moves(call: TokenCall, id: TokenId) {
    (call.TransferFrom? || call.Mint? || call.Burn?) && call.id == id
  }

  function OutcomeAt(calls: seq<(Address, TokenCall)>, k: nat): TokenOutcome
    requires k < |calls|
  {
    CallTokens(StateAt(calls, k), calls[k].0, calls[k].1).1
  }

  /** The caller says whether this account is its operator. */
  predicate SaysFor(message: (Address, TokenCall), owner: Address, operator: Address) {
    message.0 == owner && message.1.SetApprovalForAll? && message.1.to == operator
  }

  /** Call j made the account an operator of the owner, who has not said otherwise since. */
  ghost predicate MadeOperator(calls: seq<(Address, TokenCall)>, j: nat, owner: Address, operator: Address) {
    && j < |calls|
    && SaysFor(calls[j], owner, operator) && calls[j].1.approved && OutcomeAt(calls, j).Done?
    && (forall k | j < k < |calls| :: SaysFor(calls[k], owner, operator) && OutcomeAt(calls, k).Done? ==> calls[k].1.approved)
  }

  /** The account is the owner, or one the owner has made its operator. */
  ghost predicate ActsFor(calls: seq<(Address, TokenCall)>, owner: Address, account: Address) {
    account == owner || exists j: nat :: MadeOperator(calls, j, owner, account)
  }

  /** Nobody is made operator of himself; any other account is made or unmade one by the owner's word alone. */
  lemma OperatorStep(s: Tokens, caller: Address, call: TokenCall, owner: Address, operator: Address)
    ensures var (after, outcome) := CallTokens(s, caller, call);
            && (call.SetApprovalForAll? ==> outcome == if call.to == caller then Failed(NotAllowed) else Done)
            && ((owner, operator) in after.operators <==>
                  if SaysFor((caller, call), owner, operator) && outcome.Done? then call.approved
                  else (owner, operator) in s.operators)
  {
    hide ApprovedOrOwner;
  }

  /** Up to any call the history without the last one is the same. */
  lemma SameAt(calls: seq<(Address, TokenCall)>, k: nat)
    requires k < |calls|
    ensures var front := calls[..|calls| - 1];
            && front[..k] == calls[..k] && StateAt(front, k) == StateAt(calls, k)
            && (k < |front| ==> OutcomeAt(front, k) == OutcomeAt(calls, k))
  {
    hide RunTokens, CallTokens;
    assert calls[..|calls| - 1][..k] == calls[..k];
  }

  lemma OperatorGoesOn(calls: seq<(Address, TokenCall)>, j: nat, owner: Address, operator: Address)
    requires calls != [] && j < |calls| - 1
    ensures var n := |calls| - 1;
            MadeOperator(calls, j, owner, operator) <==>
              && MadeOperator(calls[..n], j, owner, operator)
              && (SaysFor(calls[n], owner, operator) && OutcomeAt(calls, n).Done? ==> calls[n].1.approved)
  {
    hide StateAt, OutcomeAt, SaysFor;
    var n := |calls| - 1;
    SameAt(calls, j);
    forall k: nat | k < n ensures calls[..n][k] == calls[k] && OutcomeAt(calls[..n], k) == OutcomeAt(calls, k) {
      SameAt(calls, k);
    }
    if MadeOperator(calls, j, owner, operator) {
      assert MadeOperator(calls[..n], j, owner, operator);
    }
  }

  /** In every reachable state an account is an owner's operator exactly when the owner's last word on it was yes. */
  lemma {:induction false} OperatorExactlyWhen(calls: seq<(Address, TokenCall)>, owner: Address, operator: Address)
    ensures (owner, operator) in RunTokens(NO_TOKENS, calls).operators <==>
            exists j: nat :: MadeOperator(calls, j, owner, operator)
  {
    if calls != [] {
      var n := |calls| - 1;
      var front := calls[..n];
      OperatorExactlyWhen(front, owner, operator);
      OperatorStep(RunTokens(NO_TOKENS, front), calls[n].0, calls[n].1, owner, operator);
      hide RunTokens, CallTokens, MadeOperator, SaysFor;
      if j: nat :| MadeOperator(front, j, owner, operator) {
        InFront(front, j, owner, operator);
        OperatorGoesOn(calls, j, owner, operator);
      }
      LastWord(calls, owner, operator);
      if j: nat :| MadeOperator(calls, j, owner, operator) {
        InFront(calls, j, owner, operator);
        if j < n {
          OperatorGoesOn(calls, j, owner, operator);
        }
      }
    }
  }

  lemma InFront(calls: seq<(Address, TokenCall)>, j: nat, owner: Address, operator: Address)
    requires MadeOperator(calls, j, owner, operator)
    ensures j < |calls|
  {
  }

  lemma LastWord(calls: seq<(Address, TokenCall)>, owner: Address, operator: Address)
    requires calls != []
    ensures var n := |calls| - 1;
            MadeOperator(calls, n, owner, operator) <==>
            SaysFor(calls[n], owner, operator) && calls[n].1.approved && OutcomeAt(calls, n).Done?
  {
    hide OutcomeAt;
  }

  /** Exactly when an approval is given, and what it changes: an existing one is never replaced. */
  lemma ApproveMeaning(s: Tokens, caller: Address, to: Address, id: TokenId)
    ensures var (after, outcome) := CallTokens(s, caller, Approve(to, id));
            && outcome == (if id !in s.owners then Failed(TokenNotFound)
                           else if caller != s.owners[id] && (s.owners[id], caller) !in s.operators then Failed(NotAllowed)
                           else if to == ZERO_ADDRESS then Failed(NotAllowed)
                           else if id in s.approvals then Failed(CannotInsert)
                           else Done)
            && (outcome.Done? ==> after == s.(approvals := s.approvals[id := to]))
  {
  }

  /**
    Call j approved this account for the token, which nobody has moved since, not even to its own
    holder; it came from the token's owner at that moment, or from an operator of that owner.
   */
  ghost predicate ApprovedBy(calls: seq<(Address, TokenCall)>, j: nat, id: TokenId, to: Address) {
    && j < |calls|
    && calls[j].1 == Approve(to, id) && OutcomeAt(calls, j).Done?
    && OwnerOf(StateAt(calls, j), id).Some?
    && ActsFor(calls[..j], OwnerOf(StateAt(calls, j), id).value, calls[j].0)
    && (forall k | j < k < |calls| :: Moves(calls[k].1, id) ==> !OutcomeAt(calls, k).Done?)
    && (forall k | j < k <= |calls| :: OwnerOf(StateAt(calls, k), id) == OwnerOf(StateAt(calls, j), id))
  }

  /** What one call makes of a token's approval and owner, when it leaves an approval. */
  ghost predicate KeepsApproval(s: Tokens, caller: Address, call: TokenCall, id: TokenId) {
    var (after, outcome) := CallTokens(s, caller, call);
    id in after.approvals ==>
      && (Moves(call, id) ==> !outcome.Done?)
      && OwnerOf(after, id) == OwnerOf(s, id)
      && if id in s.approvals then after.approvals[id] == s.approvals[id]
         else outcome.Done? && call == Approve(after.approvals[id], id)
  }

  lemma TransferAndApproval(s: Tokens, caller: Address, from: Address, to: Address, moved: TokenId, id: TokenId)
    requires CountsOk(s) && DomainsOk(s)
    ensures KeepsApproval(s, caller, TransferFrom(from, to, moved), id)
  {
    TransferMeaning(s, caller, from, to, moved);
    hide CountsOk, DomainsOk, CallInner, ApprovedOrOwner;
  }

  lemma MintAndApproval(s: Tokens, caller: Address, minted: TokenId, maxAttempts: U32, id: TokenId)
    requires CountsOk(s) && DomainsOk(s)
    ensures KeepsApproval(s, caller, Mint(minted, maxAttempts), id)
  {
    hide CountsOk;
  }

  lemma BurnAndApproval(s: Tokens, caller: Address, burnt: TokenId, id: TokenId)
    ensures KeepsApproval(s, caller, Burn(burnt), id)
  {
  }

  /** One call keeps an approval only if it moves the token nowhere; it can add one only by approving. */
  lemma ApprovalStep(s: Tokens, caller: Address, call: TokenCall, id: TokenId)
    requires CountsOk(s) && DomainsOk(s)
    ensures KeepsApproval(s, caller, call, id)
  {
    hide CountsOk, DomainsOk;
    match call
    case TransferFrom(from, to, moved) => TransferAndApproval(s, caller, from, to, moved, id);
    case Mint(minted, maxAttempts) => MintAndApproval(s, caller, minted, maxAttempts, id);
    case Burn(burnt) => BurnAndApproval(s, caller, burnt, id);
    case _ =>
  }

  lemma ApprovalGoesOn(calls: seq<(Address, TokenCall)>, j: nat, id: TokenId, to: Address)
    requires calls != [] && ApprovedBy(calls[..|calls| - 1], j, id, to)
    requires Moves(calls[|calls| - 1].1, id) ==> !OutcomeAt(calls, |calls| - 1).Done?
    requires OwnerOf(StateAt(calls, |calls|), id) == OwnerOf(StateAt(calls, |calls| - 1), id)
    ensures ApprovedBy(calls, j, id, to)
  {
    hide StateAt, OutcomeAt, OwnerOf, Moves, ActsFor;
    var front := calls[..|calls| - 1];
    SameAt(calls, j);
    forall k: nat | j < k < |calls| ensures Moves(calls[k].1, id) ==> !OutcomeAt(calls, k).Done? {
      SameAt(calls, k);
      assert k < |front| ==> calls[k] == front[k];
    }
    forall k: nat | j < k <= |calls| ensures OwnerOf(StateAt(calls, k), id) == OwnerOf(StateAt(calls, j), id) {
      SameAt(calls, if k < |calls| then k else |front|);
    }
  }

  /**
    Every approval is for the present holding: one successful call of the token's owner or of an
    operator gave it, and since then no transfer, burn or mint of the token has succeeded and its
    owner has not changed.
   */
  lemma {:induction false} ApprovalIsForThisHolding(calls: seq<(Address, TokenCall)>, id: TokenId)
    requires id in RunTokens(NO_TOKENS, calls).approvals
    ensures exists j: nat :: ApprovedBy(calls, j, id, RunTokens(NO_TOKENS, calls).approvals[id])
  {
    var n := |calls| - 1;
    var front, to := calls[..n], RunTokens(NO_TOKENS, calls).approvals[id];
    InvariantOverRuns(front);
    ApprovalStep(RunTokens(NO_TOKENS, front), calls[n].0, calls[n].1, id);
    ApproveMeaning(RunTokens(NO_TOKENS, front), calls[n].0, to, id);
    if id in RunTokens(NO_TOKENS, front).owners {
      OperatorExactlyWhen(front, RunTokens(NO_TOKENS, front).owners[id], calls[n].0);
    }
    assert calls[..|calls|] == calls;
    hide CallTokens, Moves, MadeOperator;
    if id in RunTokens(NO_TOKENS, front).approvals {
      ApprovalIsForThisHolding(front, id);
      var j: nat :| ApprovedBy(front, j, id, to);
      ApprovalGoesOn(calls, j, id, to);
    } else {
      assert ApprovedBy(calls, n, id, to);
    }
  }

  /** Such an approval is stored, because only a move of the token takes it away. */
  lemma {:induction false} ApprovedIsStored(calls: seq<(Address, TokenCall)>, j: nat, id: TokenId, to: Address)
    requires ApprovedBy(calls, j, id, to)
    ensures id in RunTokens(NO_TOKENS, calls).approvals && RunTokens(NO_TOKENS, calls).approvals[id] == to
  {
    var n := |calls| - 1;
    var s := RunTokens(NO_TOKENS, calls[..n]);
    if j == n {
      ApproveMeaning(s, calls[n].0, to, id);
    } else {
      ApprovedBefore(calls, j, id, to);
      ApprovedIsStored(calls[..n], j, id, to);
      assert OutcomeAt(calls, n) == CallTokens(s, calls[n].0, calls[n].1).1;
      ApprovalLeaves(s, calls[n].0, calls[n].1, id);
    }
  }

  lemma ApprovedBefore(calls: seq<(Address, TokenCall)>, j: nat, id: TokenId, to: Address)
    requires ApprovedBy(calls, j, id, to) && j < |calls| - 1
    ensures ApprovedBy(calls[..|calls| - 1], j, id, to)
  {
    hide StateAt, OutcomeAt, OwnerOf, Moves, ActsFor;
    var front := calls[..|calls| - 1];
    SameAt(calls, j);
    forall k: nat | j < k < |front| ensures Moves(front[k].1, id) ==> !OutcomeAt(front, k).Done? {
      SameAt(calls, k);
      assert calls[k] == front[k];
    }
    forall k: nat | j < k <= |front| ensures OwnerOf(StateAt(front, k), id) == OwnerOf(StateAt(front, j), id) {
      SameAt(calls, k);
    }
  }

  lemma ApprovalLeaves(s: Tokens, caller: Address, call: TokenCall, id: TokenId)
    requires id in s.approvals && !(Moves(call, id) && CallTokens(s, caller, call).1.Done?)
    ensures var after := CallTokens(s, caller, call).0;
            id in after.approvals && after.approvals[id] == s.approvals[id]
  {
    hide ApprovedOrOwner;
  }

  /** The account may move the token: its owner, or by an act of its owner. */
  ghost predicate MayMove(calls: seq<(Address, TokenCall)>, owner: Address, id: TokenId, account: Address) {
    && account != ZERO_ADDRESS
    && (ActsFor(calls, owner, account) || exists j: nat :: ApprovedBy(calls, j, id, account))
  }

  lemma AuthorityIsGiven(calls: seq<(Address, TokenCall)>, s: Tokens, id: TokenId, account: Address)
    requires Reaches(calls, s) && id in s.owners
    ensures ApprovedOrOwner(s, account, id, s.owners[id]) <==> MayMove(calls, s.owners[id], id, account)
  {
    OperatorExactlyWhen(calls, s.owners[id], account);
    if id in s.approvals && s.approvals[id] == account {
      ApprovalIsForThisHolding(calls, id);
    }
    if j: nat :| ApprovedBy(calls, j, id, account) {
      ApprovedIsStored(calls, j, id, account);
    }
    hide RunTokens, MadeOperator, ApprovedBy;
  }

  /**
    In every reachable state a transfer succeeds exactly when it names the owner, the receiver exists
    and has room for one token more, and the caller is the owner, an account the owner's last word
    made an operator, or one approved for this holding by either.
   */
  lemma TransferExactlyWhen(
      calls: seq<(Address, TokenCall)>, s: Tokens, caller: Address, from: Address, to: Address, id: TokenId)
    requires Reaches(calls, s)
    ensures CallTokens(s, caller, TransferFrom(from, to, id)).1.Done? <==>
              && OwnerOf(s, id) == Some(from) && to != ZERO_ADDRESS
              && (from == to || BalanceOf(s, to) < U32_LIMIT - 1)
              && MayMove(calls, from, id, caller)
  {
    InvariantOverRuns(calls);
    TransferMeaning(s, caller, from, to, id);
    hide CallTokens, MayMove, ApprovedOrOwner, RunTokens, CountsOk, DomainsOk;
    if id in s.owners {
      AuthorityIsGiven(calls, s, id, caller);
    }
  }

  /**
    Nobody's token moves without an act of its owner, and no approval outlives the holding it was
    given for: whenever one call changes who owns a token, its caller was allowed to move it (or
    minted or burnt its own), and the token has no approval afterwards.
   */
  lemma OwnershipChanges(calls: seq<(Address, TokenCall)>, s: Tokens, caller: Address, call: TokenCall, id: TokenId)
    requires Reaches(calls, s)
    ensures var after := CallTokens(s, caller, call).0;
            OwnerOf(after, id) != OwnerOf(s, id) ==>
              && id !in after.approvals
              && match OwnerOf(s, id)
                 case None => call.Mint? && call.id == id && OwnerOf(after, id) == Some(caller)
                 case Some(owner) =>
                   if call.Burn? then caller == owner && call.id == id && OwnerOf(after, id) == None
                   else OwnerOf(after, id).Some? && call == TransferFrom(owner, after.owners[id], id)
                        && MayMove(calls, owner, id, caller)
  {
    InvariantOverRuns(calls);
    if id in s.owners {
      AuthorityIsGiven(calls, s, id, caller);
    }
    hide MayMove, RunTokens, CountsOk;
    match call
    case TransferFrom(from, to, moved) => TransferMeaning(s, caller, from, to, moved);
    case Mint(minted, maxAttempts) => MintMeaning(s, caller, minted, maxAttempts);
    case Burn(burnt) => BurnMeaning(s, caller, burnt);
    case _ =>
  }

  /** The contract as an object. */
  class Erc721Contract {
    var owners: map<TokenId, Address>
    var approvals: map<TokenId, Address>
    var counts: map<Address, U32>
    var operators: set<(Address, Address)>
    var maxAttempts: map<TokenId, U32>

    ghost function State(): Tokens
      reads this
    {
      Tokens(owners, approvals, counts, operators, maxAttempts)
    }

    constructor ()
      ensures State() == NO_TOKENS
    {
      owners, approvals, counts, operators, maxAttempts := map[], map[], map[], {}, map[];
    }

    method Remove(from: Address, id: TokenId) returns (outcome: TokenOutcome)
      modifies this
      ensures (State(), outcome) == RemoveTokenFrom(old(State()), from, id)
    {
      if id !in owners {
        return Failed(TokenNotFound);
      }
      if from !in counts {
        return Failed(CannotFetchValue);
      }
      if counts[from] == 0 {
        return Panicked;
      }
      counts := counts[from := counts[from] - 1];
      owners := owners - {id};
      return Done;
    }

    method Add(to: Address, id: TokenId) returns (outcome: TokenOutcome)
      modifies this
      ensures (State(), outcome) == AddTokenTo(old(State()), to, id)
    {
      if id in owners {
        return Failed(TokenExists);
      }
      if to == ZERO_ADDRESS {
        return Failed(NotAllowed);
      }
      var count := 1;
      if to in counts {
        if counts[to] + 1 >= U32_LIMIT {
          return Panicked;
        }
        count := counts[to] + 1;
      }
      counts := counts[to := count];
      owners := owners[id := to];
      return Done;
    }

    method TransferInner(caller: Address, from: Address, to: Address, id: TokenId) returns (outcome: TokenOutcome)
      modifies this
      ensures (State(), outcome) == TransferTokenFrom(old(State()), caller, from, to, id)
    {
      if id !in owners {
        return Failed(TokenNotFound);
      }
      var owner := owners[id];
      var approved := caller != ZERO_ADDRESS
        && (caller == owner || (id in approvals && approvals[id] == caller) || (owner, caller) in operators);
      if !approved {
        return Failed(NotApproved);
      }
      if owner != from {
        return Failed(NotOwner);
      }
      approvals := approvals - {id};
      outcome := Remove(from, id);
      if outcome.Done? {
        outcome := Add(to, id);
      }
    }

    method MintInner(caller: Address, id: TokenId, attempts: U32) returns (outcome: TokenOutcome)
      modifies this
      ensures (State(), outcome) == MintToken(old(State()), caller, id, attempts)
    {
      if id in maxAttempts {
        return Failed(TokenExists);
      }
      maxAttempts := maxAttempts[id := attempts];
      outcome := Add(caller, id);
    }

    method BurnInner(caller: Address, id: TokenId) returns (outcome: TokenOutcome)
      modifies this
      ensures (State(), outcome) == BurnToken(old(State()), caller, id)
    {
      if id !in owners {
        return Failed(TokenNotFound);
      }
      if owners[id] != caller {
        return Failed(NotOwner);
      }
      if id !in maxAttempts {
        return Failed(TokenNotFound);
      }
      if caller !in counts {
        return Failed(CannotFetchValue);
      }
      if counts[caller] == 0 {
        return Panicked;
      }
      counts := counts[caller := counts[caller] - 1];
      owners := owners - {id};
      maxAttempts := maxAttempts - {id};
      approvals := approvals - {id};
      return Done;
    }

    method ApproveInner(caller: Address, to: Address, id: TokenId) returns (outcome: TokenOutcome)
      modifies this
      ensures (State(), outcome) == ApproveFor(old(State()), caller, to, id)
    {
      if id !in owners {
        return Failed(TokenNotFound);
      }
      if !(owners[id] == caller || (owners[id], caller) in operators) {
        return Failed(NotAllowed);
      }
      if to == ZERO_ADDRESS {
        return Failed(NotAllowed);
      }
      if id in approvals {
        return Failed(CannotInsert);
      }
      approvals := approvals[id := to];
      return Done;
    }

    method ApproveForAllInner(caller: Address, to: Address, approved: bool) returns (outcome: TokenOutcome)
      modifies this
      ensures (State(), outcome) == ApproveForAll(old(State()), caller, to, approved)
    {
      if to == caller {
        return Failed(NotAllowed);
      }
      if approved {
        operators := operators + {(caller, to)};
      } else {
        operators := operators - {(caller, to)};
      }
      return Done;
    }

    /** One message: whatever an inner call wrote is put back when it fails or panics. */
    method Message(caller: Address, call: TokenCall) returns (outcome: TokenOutcome)
      modifies this
      ensures (State(), outcome) == CallTokens(old(State()), caller, call)
      ensures !outcome.Done? ==> State() == old(State())
    {
      var saved := (owners, approvals, counts, operators, maxAttempts);
      match call {
        case SetApprovalForAll(to, approved) => outcome := ApproveForAllInner(caller, to, approved);
        case Approve(to, id) => outcome := ApproveInner(caller, to, id);
        case TransferFrom(from, to, id) => outcome := TransferInner(caller, from, to, id);
        case Mint(id, attempts) => outcome := MintInner(caller, id, attempts);
        case Burn(id) => outcome := BurnInner(caller, id);
      }
      if !outcome.Done? {
        owners, approvals, counts, operators, maxAttempts := saved.0, saved.1, saved.2, saved.3, saved.4;
      }
    }
  }
}
