/**
  What one rollup transaction does to the contract: check every condition, apply every
  update, run every action. The functions here give the state a call leaves behind even
  when it fails half way; Transaction puts the entry state back in that case.
 */
module RollupClient {
  import opened Wrappers
  import opened ByteCodec
  import opened KvStore
  import opened RollupErrors
  import opened AccessControl
  import opened MessageQueue

  type Nonces = map<Address, nat>

  /** The storage of the contract; app is the part owned by its business logic. */
  datatype Chain<H> = Chain(kv: Store, roles: Roles, nonces: Nonces, app: H)

  /** The business logic's on_message_received. */
  type Handler<!H> = (H, Bytes) -> Result<H, Error>

  type KeyValue = (Key, Option<Value>)

  datatype Action =
    | Reply(data: Bytes)
    | SetQueueHead(index: nat)
    | GrantAttestor(account: Address)
    | RevokeAttestor(account: Address)

  datatype RollupParams = RollupParams(conditions: seq<KeyValue>, updates: seq<KeyValue>, actions: seq<Action>)

  predicate ConditionsMet(kv: Store, conditions: seq<KeyValue>) {
    forall i | 0 <= i < |conditions| :: Get(kv, conditions[i].0) == conditions[i].1
  }

  function ApplyUpdates(kv: Store, updates: seq<KeyValue>): Store {
    if updates == [] then kv else
    var last := updates[|updates| - 1];
    Set(ApplyUpdates(kv, updates[..|updates| - 1]), last.0, last.1)
  }

  function HandleAction<H>(handler: Handler<H>, s: Chain<H>, action: Action): (Chain<H>, Outcome<Error>) {
    match action
    case Reply(data) =>
      (match handler(s.app, data)
       case Ok(app) => (s.(app := app), Pass)
       case Err(e) => (s, Fail(e)))
    case SetQueueHead(index) =>
      var (kv, outcome) := PopTo(s.kv, index);
      (s.(kv := kv), outcome)
    case GrantAttestor(account) =>
      var (roles, outcome) := GrantUnchecked(s.roles, AttestorRole, account);
      (s.(roles := roles), outcome)
    case RevokeAttestor(account) =>
      var (roles, outcome) := RevokeUnchecked(s.roles, AttestorRole, account);
      (s.(roles := roles), outcome)
  }

  function HandleActions<H>(handler: Handler<H>, s: Chain<H>, actions: seq<Action>): (Chain<H>, Outcome<Error>) {
    if actions == [] then (s, Pass) else
    match HandleActions(handler, s, actions[..|actions| - 1])
    case (mid, Fail(e)) => (mid, Fail(e))
    case (mid, Pass) => HandleAction(handler, mid, actions[|actions| - 1])
  }

  function RollupInner<H>(handler: Handler<H>, s: Chain<H>, attestor: Address, params: RollupParams)
    : (Chain<H>, Outcome<Error>)
  {
    if (attestor, AttestorRole) !in s.roles then (s, Fail(AccessControlFailure(MissingRole)))
    else if !ConditionsMet(s.kv, params.conditions) then (s, Fail(ConditionNotMet))
    else HandleActions(handler, s.(kv := ApplyUpdates(s.kv, params.updates)), params.actions)
  }

  /** A message that returns an error leaves the storage as it found it. */
  function Transaction<S>(before: S, result: (S, Outcome<Error>)): (S, Outcome<Error>) {
    if result.1.Pass? then result else (before, result.1)
  }

  function Rollup<H>(handler: Handler<H>, s: Chain<H>, attestor: Address, params: RollupParams)
    : (Chain<H>, Outcome<Error>)
  {
    Transaction(s, RollupInner(handler, s, attestor, params))
  }

  // ---------- what the updates mean ----------

  /** The last update of a key decides its value. */
  lemma {:induction false} LastUpdateWins(kv: Store, updates: seq<KeyValue>, i: nat)
    requires i < |updates|
    requires forall j | i < j < |updates| :: updates[j].0 != updates[i].0
    ensures Get(ApplyUpdates(kv, updates), updates[i].0) == updates[i].1
  {
    var n := |updates| - 1;
    if i < n {
      var front := updates[..n];
      assert front[i] == updates[i];
      LastUpdateWins(kv, front, i);
      assert updates[n].0 != updates[i].0;
    }
  }

  /** A key without an update keeps its value. */
  lemma {:induction false} NoUpdateNoChange(kv: Store, updates: seq<KeyValue>, key: Key)
    requires forall j | 0 <= j < |updates| :: updates[j].0 != key
    ensures Get(ApplyUpdates(kv, updates), key) == Get(kv, key)
  {
    if updates != [] {
      var n := |updates| - 1;
      assert updates[n].0 != key;
      NoUpdateNoChange(kv, updates[..n], key);
    }
  }

  lemma {:induction false} UpdatesAppend(kv: Store, first: seq<KeyValue>, second: seq<KeyValue>)
    ensures ApplyUpdates(kv, first + second) == ApplyUpdates(ApplyUpdates(kv, first), second)
  {
    if second == [] {
      assert first + second == first;
    } else {
      var n := |second| - 1;
      UpdatesAppend(kv, first, second[..n]);
      assert (first + second)[..|first| + n] == first + second[..n];
    }
  }

  /** Updates of pairwise different keys are the overlay of the map they list. */
  lemma UpdatesAreOverlay(kv: Store, updates: seq<KeyValue>, writes: map<Key, Option<Value>>)
    requires forall i, j | 0 <= i < j < |updates| :: updates[i].0 != updates[j].0
    requires forall i | 0 <= i < |updates| :: updates[i].0 in writes && writes[updates[i].0] == updates[i].1
    requires forall k | k in writes :: exists i :: 0 <= i < |updates| && updates[i].0 == k
    ensures ApplyUpdates(kv, updates) == Overlay(kv, writes)
  {
    forall k ensures Get(ApplyUpdates(kv, updates), k) == Get(Overlay(kv, writes), k) {
      if k in writes {
        var i: nat :| i < |updates| && updates[i].0 == k;
        LastUpdateWins(kv, updates, i);
      } else {
        NoUpdateNoChange(kv, updates, k);
      }
    }
    SameReads(ApplyUpdates(kv, updates), Overlay(kv, writes));
  }

  // ---------- what the actions mean ----------

  function Replies(actions: seq<Action>): seq<Bytes> {
    if actions == [] then [] else
    var front, last := Replies(actions[..|actions| - 1]), actions[|actions| - 1];
    if last.Reply? then front + [last.data] else front
  }

  function Heads(actions: seq<Action>): seq<nat> {
    if actions == [] then [] else
    var front, last := Heads(actions[..|actions| - 1]), actions[|actions| - 1];
    if last.SetQueueHead? then front + [last.index] else front
  }

  function RoleChanges(actions: seq<Action>): seq<Action> {
    if actions == [] then [] else
    var front, last := RoleChanges(actions[..|actions| - 1]), actions[|actions| - 1];
    if last.GrantAttestor? || last.RevokeAttestor? then front + [last] else front
  }

  /** The business state after a list of replies, left to right; the first failure stops. */
  function FoldReplies<H>(handler: Handler<H>, app: H, replies: seq<Bytes>): Result<H, Error> {
    if replies == [] then Ok(app) else
    match FoldReplies(handler, app, replies[..|replies| - 1])
    case Err(e) => Err(e)
    case Ok(mid) => handler(mid, replies[|replies| - 1])
  }

  /** The store after a list of head moves; only successful lists are of interest. */
  function FoldHeads(kv: Store, heads: seq<nat>): (Store, Outcome<Error>) {
    if heads == [] then (kv, Pass) else
    match FoldHeads(kv, heads[..|heads| - 1])
    case (mid, Fail(e)) => (mid, Fail(e))
    case (mid, Pass) => PopTo(mid, heads[|heads| - 1])
  }

  function FoldRoles(roles: Roles, changes: seq<Action>): (Roles, Outcome<Error>)
    requires forall i | 0 <= i < |changes| :: changes[i].GrantAttestor? || changes[i].RevokeAttestor?
  {
    if changes == [] then (roles, Pass) else
    match FoldRoles(roles, changes[..|changes| - 1])
    case (mid, Fail(e)) => (mid, Fail(e))
    case (mid, Pass) =>
      match changes[|changes| - 1]
      case GrantAttestor(account) => GrantUnchecked(mid, AttestorRole, account)
      case RevokeAttestor(account) => RevokeUnchecked(mid, AttestorRole, account)
  }

  lemma {:induction false} RoleChangesOnly(actions: seq<Action>)
    ensures forall i | 0 <= i < |RoleChanges(actions)| ::
              RoleChanges(actions)[i].GrantAttestor? || RoleChanges(actions)[i].RevokeAttestor?
  {
    if actions != [] {
      RoleChangesOnly(actions[..|actions| - 1]);
    }
  }

  /** The three kinds of action do not disturb each other: all succeed exactly when each kind does on its own. */
  ghost predicate SplitsInto<H>(handler: Handler<H>, s: Chain<H>, actions: seq<Action>)
    requires forall i | 0 <= i < |RoleChanges(actions)| ::
               RoleChanges(actions)[i].GrantAttestor? || RoleChanges(actions)[i].RevokeAttestor?
  {
    var (after, outcome) := HandleActions(handler, s, actions);
    var app := FoldReplies(handler, s.app, Replies(actions));
    var heads := FoldHeads(s.kv, Heads(actions));
    var roles := FoldRoles(s.roles, RoleChanges(actions));
    && (outcome.Pass? <==> app.Ok? && heads.1.Pass? && roles.1.Pass?)
    && (outcome.Pass? ==> after == Chain(heads.0, roles.0, s.nonces, app.value))
  }

  /**
    A successful list of actions is, for each of queue, roles and business state separately,
    the left-to-right fold of the actions that concern it.
   */
  lemma {:induction false} ActionsSplit<H>(handler: Handler<H>, s: Chain<H>, actions: seq<Action>)
    ensures forall i | 0 <= i < |RoleChanges(actions)| ::
              RoleChanges(actions)[i].GrantAttestor? || RoleChanges(actions)[i].RevokeAttestor?
    ensures SplitsInto(handler, s, actions)
  {
    hide PopTo, GrantUnchecked, RevokeUnchecked;
    RoleChangesOnly(actions);
    if actions == [] {
    } else {
      var front, last := actions[..|actions| - 1], actions[|actions| - 1];
      ActionsSplit(handler, s, front);
      match last
      case Reply(data) =>
        assert Replies(actions)[..|Replies(actions)| - 1] == Replies(front);
      case SetQueueHead(index) =>
        assert Heads(actions)[..|Heads(actions)| - 1] == Heads(front);
      case GrantAttestor(account) =>
        assert RoleChanges(actions)[..|RoleChanges(actions)| - 1] == RoleChanges(front);
      case RevokeAttestor(account) =>
        assert RoleChanges(actions)[..|RoleChanges(actions)| - 1] == RoleChanges(front);
    }
  }

  // ---------- attestors ----------

  /** The last action about the account decides whether it is an attestor. */
  ghost predicate AttestorAfter(was: bool, actions: seq<Action>, account: Address) {
    || (was && forall j | 0 <= j < |actions| :: actions[j] != RevokeAttestor(account))
    || exists i :: 0 <= i < |actions| && actions[i] == GrantAttestor(account)
                   && forall j | i < j < |actions| :: actions[j] != RevokeAttestor(account)
  }

  lemma AttestorStep(was: bool, actions: seq<Action>, action: Action, account: Address)
    ensures AttestorAfter(was, actions + [action], account) <==>
            if action == GrantAttestor(account) then true
            else if action == RevokeAttestor(account) then false
            else AttestorAfter(was, actions, account)
  {
    var all, n := actions + [action], |actions|;
    assert all[n] == action && forall j | 0 <= j < n :: all[j] == actions[j];
    if i :| 0 <= i < n && actions[i] == GrantAttestor(account) && forall j | i < j < n :: actions[j] != RevokeAttestor(account) {
      assert all[i] == GrantAttestor(account);
    }
  }

  lemma OneActionMeaning<H>(handler: Handler<H>, s: Chain<H>, action: Action, account: Address, role: Role)
    requires HandleAction(handler, s, action).1.Pass?
    ensures (account, role) in HandleAction(handler, s, action).0.roles <==>
            if role == AttestorRole && action == GrantAttestor(account) then true
            else if role == AttestorRole && action == RevokeAttestor(account) then false
            else (account, role) in s.roles
  {
    hide PopTo;
  }

  /** Actions change no role but that of attestors, and after them the last one about an account decides. */
  lemma {:induction false} AttestorsMeaning<H>(handler: Handler<H>, s: Chain<H>, actions: seq<Action>, account: Address, role: Role)
    requires HandleActions(handler, s, actions).1.Pass?
    ensures (account, role) in HandleActions(handler, s, actions).0.roles <==>
            if role == AttestorRole then AttestorAfter((account, AttestorRole) in s.roles, actions, account)
            else (account, role) in s.roles
  {
    if actions != [] {
      hide HandleAction, AttestorAfter;
      var front, last := actions[..|actions| - 1], actions[|actions| - 1];
      AttestorsMeaning(handler, s, front, account, role);
      OneActionMeaning(handler, HandleActions(handler, s, front).0, last, account, role);
      AttestorStep((account, AttestorRole) in s.roles, front, last, account);
      assert front + [last] == actions;
    }
  }

  /**
    A list of actions fails at its first action that cannot be done in the state the ones before it
    left: a reply the business logic refuses, a head outside the queue, a grant to an attestor or a
    revocation of an account that is none.
   */
  lemma {:induction false} FailsAtFirst<H>(handler: Handler<H>, s: Chain<H>, actions: seq<Action>) returns (i: nat)
    requires HandleActions(handler, s, actions).1.Fail?
    ensures i < |actions| && HandleActions(handler, s, actions[..i]).1.Pass?
    ensures var mid, outcome := HandleActions(handler, s, actions[..i]).0, HandleActions(handler, s, actions).1;
            match actions[i]
            case Reply(data) => handler(mid.app, data) == Err(outcome.error)
            case SetQueueHead(index) => PopTo(mid.kv, index).1 == outcome
            case GrantAttestor(account) =>
              AttestorAfter((account, AttestorRole) in s.roles, actions[..i], account)
              && outcome == Fail(AccessControlFailure(RoleRedundant))
            case RevokeAttestor(account) =>
              !AttestorAfter((account, AttestorRole) in s.roles, actions[..i], account)
              && outcome == Fail(AccessControlFailure(MissingRole))
  {
    var n := |actions| - 1;
    if HandleActions(handler, s, actions[..n]).1.Fail? {
      i := FailsAtFirst(handler, s, actions[..n]);
      assert actions[..n][..i] == actions[..i];
    } else {
      i := n;
      if actions[n].GrantAttestor? || actions[n].RevokeAttestor? {
        AttestorsMeaning(handler, s, actions[..n], actions[n].account, AttestorRole);
      }
      hide PopTo, AttestorAfter;
    }
  }

  /**
    The meaning of a rollup transaction. It passes exactly when the attestor holds the role,
    every condition holds in the entry state and each kind of action folds without error;
    then the exit state is last-write-wins of the updates followed by the three folds.
    Otherwise nothing changes.
   */
  lemma RollupMeaning<H>(handler: Handler<H>, s: Chain<H>, attestor: Address, params: RollupParams)
    ensures forall i | 0 <= i < |RoleChanges(params.actions)| ::
              RoleChanges(params.actions)[i].GrantAttestor? || RoleChanges(params.actions)[i].RevokeAttestor?
    ensures var (after, outcome) := Rollup(handler, s, attestor, params);
            var app := FoldReplies(handler, s.app, Replies(params.actions));
            var heads := FoldHeads(ApplyUpdates(s.kv, params.updates), Heads(params.actions));
            var roles := FoldRoles(s.roles, RoleChanges(params.actions));
            && (outcome.Pass? <==>
                && (attestor, AttestorRole) in s.roles
                && ConditionsMet(s.kv, params.conditions)
                && app.Ok? && heads.1.Pass? && roles.1.Pass?)
            && after == (if outcome.Pass? then Chain(heads.0, roles.0, s.nonces, app.value) else s)
            && ((attestor, AttestorRole) !in s.roles ==> outcome == Fail(AccessControlFailure(MissingRole)))
            && ((attestor, AttestorRole) in s.roles && !ConditionsMet(s.kv, params.conditions) ==> outcome == Fail(ConditionNotMet))
  {
    ActionsSplit(handler, s.(kv := ApplyUpdates(s.kv, params.updates)), params.actions);
  }
}
