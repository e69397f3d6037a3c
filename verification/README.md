# Offchain rollup: a verified model

This project models the rollup protocol between off-chain workers and smart contracts, and three of
its applications, and proves what the protocol promises over every interleaving.

## What is modelled

**The protocol.** A worker's session reads and caches remote values, buffers writes, polls queue
messages, buffers replies and commits. The contract checks all conditions, applies all updates and
runs all actions in one transaction, and between transactions pushes messages of its own. `Protocol`
is a state machine over any number of workers: each remote read is its own step (a poll is three),
each transaction is one atomic step, and a schedule is any sequence of steps. The reference is
`Protocol.AtomicRun`, which runs whole sessions one at a time. `Serializability` holds the invariant,
`Guarantees` and `Interleavings` the theorems about every schedule, `Polling` and `EmptyPolls` what a poll
that finds nothing is worth, `Snapshots` when a session's view is that of one state, and
`ReadOnlySessions` where that promise ends.

**The two halves as objects.** `Client` is the worker's client and `RollupContract` the ink! contract
as classes with loops and early returns, each method proved against the specification functions of
`Session`, `MessageQueue`, `RollupClient`, `AccessControl` and `MetaTransaction`. Internal calls may
stop half way; each public message restores the storage when it fails. The remote store a client sees
is an arbitrary sequence of stores, one per remote read.

**The queue in the key-value store.** `MessageQueue` shows that head, tail and message keys refine a
plain sequence.

**Guess-the-number.** `GuessTheNumber`, `GuessMessages` and `GuessWorker` are contract, messages and
worker; `GuessProtocol` runs them on the protocol above; `GuessInvariant` and `GuessSteps` carry the
invariant, and `GuessGuarantees` states what holds at every point of every run.

**The Solidity anchor.** `EvmAnchor` is its storage, rollup and client encoding, `EvmQueue` its queue,
`EvmMetaTransaction` its nonces and self-call, and `EvmContract` the contract as a class.
`EvmRefinement` sets it beside the ink! contract; `EvmSession` and `EvmProtocol` run the whole protocol
with it, and `EvmGuarantees` states what carries over.

**Smaller parts.** `MetaTransaction` (ink! nonces) and `MetaSessions` (signed commits), `Erc721` (the
token behind the attempt limits), `Vrf` (range reduction) and `PriceFeed` (decimal scaling).

## Hypotheses

- Applications write neither the version key nor a key with the queue prefix (`Protocol.Allowed`);
  the client does not filter them.
- Every rollup comes from a client's commit, sent directly or as a meta-transaction; a
  meta-transaction is the same rollup plus a nonce (`MetaTransaction.MetaRollupIsRollup`).
- Fewer than 2^32 sessions commit, because the version is a u32 that wraps; one fewer with the anchor.
- One client object is used by one caller at a time, each call awaited before the next.
- The handler of replies changes business state only, not store, roles or nonces; the contract's own
  messages change business state and push to the queue.
- In guess-the-number the workers share one key, so the target is a function of game and player, and
  the limit the indexer gives fits a u32.
- With the Solidity anchor, applications also write and push nothing empty and read no key of the queue
  as a value, message indices stay below 2^32, and the anchor sends no transaction to itself
  (`EvmProtocol.EvmRun`); outside these the two contracts differ or were not compared.
- Key derivation, signature recovery and the decoding of a signed rollup are arbitrary deterministic
  functions; equal hashes stand for equal bytes.

## Where the code differs from what is said of it

- The error text of `getRandomNumber` asks for a maximum below 2^32, but 2^32 itself is accepted
  (`Vrf.Accepted`); with minimum 0 that maximum is then never drawn (`Vrf.WidestRangeMissesItsMaximum`).
- The ACID promise does not reach sessions with nothing to commit: they end unchecked, and
  `ReadOnlySessions.ReadOnlySessionMaySeeNoState` gives a schedule in which one has read values that
  never stood together. The exact conditions are in `Snapshots`: a session sees the present exactly
  while the stored version is the one it read and, if it polled in vain, the tail is its index, which it
  can check after its last read; `Snapshots.FitsAStateExactlyWhen` says when some state fits.
  Every session whose commit is accepted is covered in what it read and in the messages it polled.
- The ACID promise does not reach polls that find nothing either: the tail is no condition, so a session
  commits though messages have come since (`EmptyPolls.CommitAfterVainPoll`). Such a poll was true of
  its moment, and `EmptyPolls.FullySerializableExactlyWhen` says when it is of the commit. The messages
  wait for the next session.
- A message pushed empty on the Solidity queue cannot be polled (`EvmGuarantees.EmptyMessageStalls`).
- `convertPrice` throws on exponent notation with at most 17 fraction digits, and would drop the
  exponent behind 18 or more (`PriceFeed.ExponentIsRefusedExactlyWhen`).
- The Solidity pop has no lower bound, unlike the ink! one.

## Model

| member | source | states |
|---|---|---|
| Guarantees.StrictSerializability | sc-rollup-api/packages/core/src/client.ts:208-280 | After any interleaving of any number of workers, contract calls and role changes, the contract is in exactly the state that the committed sessions reach when each runs atomically, in commit order; every value they read and every message they polled is what that run gives them. Polls that found nothing are judged by EmptyPolls.FullySerializableExactlyWhen. |
| EmptyPolls.FullySerializableExactlyWhen | sc-rollup-api/packages/core/src/client.ts:94-102 | In every schedule the atomic run also replays every poll that found nothing if and only if each committed session with such a poll had by then polled all that was pushed before its commit, and none after its first such poll. |
| EmptyPolls.EmptyPollWasTrue | sc-rollup-api/packages/core/src/client.ts:94-102 | A poll that finds nothing, of a session not overtaken, told the truth of the moment it read the tail: all the queue then held had been polled, whatever was pushed before the poll ended. |
| EmptyPolls.PollGivesTheNext | sc-rollup-api/packages/core/src/client.ts:94-107 | A session whose version holds, polling the present contract, gets the next message it has not polled, and nothing exactly when it has polled them all; no message is missing. |
| EmptyPolls.CommitAfterVainPoll | sc-rollup-api/packages/core/src/client.ts:252-263 | Concrete schedule: a poll finds nothing, a message is pushed, the session commits with its version current, and no atomic run replays that poll. |
| Interleavings.UserStoreIsSerial | sc-rollup-api/packages/core/src/client.ts:247-250 | In every schedule the application keys hold what the committed sessions wrote, in commit order, and nothing else. |
| Guarantees.CommitAcceptedExactlyWhen | sc-rollup-client/sc-rollup-inkv6-client/ink_client_lib/traits/rollup_client.rs:54-91 | In every schedule a commit changes the contract if and only if its session is started and has written, polled or replied anything since, the attestor has the role, each value the session read is still stored, and the handler takes the replies. |
| Guarantees.SessionHoldsReplies | sc-rollup-api/packages/core/src/client.ts:204-206 | In every schedule the replies of a session are those its worker has added since it last began or dropped one, in order. |
| Serializability.CommitIsAtomic | sc-rollup-api/packages/core/src/client.ts:208-280 | A started session whose conditions hold was not overtaken, polled a prefix of the present queue, and its one transaction does what the session does run atomically; only a refused reply can make it fail. |
| Serializability.ApplyKeepsInv | sc-rollup-api/packages/core/src/client.ts:55-280 | Every step of every worker and of the contract keeps the protocol invariant: store, queue, version and each live session agree with the history. |
| Guarantees.ExactlyOnceFifo | sc-rollup-api/packages/core/src/client.ts:94-107 | In every schedule the queue head is the number of messages polled by committed sessions; the k-th commit polled exactly the messages pushed at the indices following all earlier commits. |
| Guarantees.NoWastedPop | sc-rollup-client/sc-rollup-inkv6-client/ink_client_lib/traits/message_queue.rs:111-137 | If the conditions of a commit hold, its head move lies strictly above the current head and not above the tail, and the commit fails only if the handler refuses a reply: never for its pop target. |
| Guarantees.VersionSafety | sc-rollup-api/packages/core/src/client.ts:193-202 | In every schedule the stored version, absent read as 0, is the number of committed sessions; the i-th to commit read version i, so two sessions from one version never both commit. |
| Guarantees.OvertakenNeverCommits | sc-rollup-api/packages/core/src/client.ts:226-230 | A session whose version has been overtaken changes nothing by committing, after any further steps and however often it is sent. |
| Guarantees.PollIsThreeSteps | sc-rollup-api/packages/core/src/client.ts:94-107 | The client call that polls is the three remote reads of the protocol, each answered by the store of its own moment. |
| Interleavings.PushCommutes | sc-rollup-client/sc-rollup-inkv6-client/ink_client_lib/traits/message_queue.rs:56-76 | In every schedule a push just before or just after an accepted commit gives the same contract, unless the session read the tail or the new slot as a value. |
| Interleavings.TailReaderIsRefused | sc-rollup-client/sc-rollup-inkv6-client/ink_client_lib/traits/rollup_client.rs:63-78 | That exception is exact: a session that did read them is refused after the push. |
| Snapshots.SeesThePresentExactlyWhenVersionHolds | sc-rollup-api/packages/core/src/client.ts:94-127 | At any moment of any schedule a session has the whole view, polls that found nothing included, that it would have running alone on the present store if and only if the stored version is still the one it read, the stored tail is its index if it polled in vain (with no message polled after), and what it read of queue keys as values still stands. |
| Snapshots.CommitAcceptedExactlyWhenVersionHolds | sc-rollup-client/sc-rollup-inkv6-client/ink_client_lib/traits/rollup_client.rs:54-91 | In every schedule a commit changes the contract if and only if its session is started and has written, polled or replied anything since, the attestor has the role, the version still holds (and any queue key read as a value), and the handler takes the replies; so no commit is refused for a value nobody else committed over. |
| Snapshots.FitsAStateExactlyWhen | sc-rollup-api/packages/core/src/client.ts:208-214 | For any session: some state of the run fits all it saw if and only if each application value is the one left by the sessions committed before it started, and what it saw of the queue (values, messages, polls that found none) fits one moment of that time. |
| Snapshots.CheckedViewIsAState | sc-rollup-api/packages/core/src/client.ts:94-127 | A session that after its last read finds its version stored and, if it polled in vain, its index at the tail has seen a state of the contract, whatever happens afterwards. |
| Snapshots.ApplyKeepsViews | sc-rollup-api/packages/core/src/client.ts:109-127 | Every step keeps the invariant behind it: all that a session not overtaken has read, but for queue keys, is still stored. |
| ReadOnlySessions.ReadOnlySessionMaySeeNoState | sc-rollup-api/packages/core/src/client.ts:208-214 | Concrete schedule: a session that only reads returns two values no state of the contract ever held together, and its commit ends without sending or checking anything. |
| SessionCache.GetValueMeaning | sc-rollup-api/packages/core/src/client.ts:109-131 | After any calls, with the remote store changing in between, a read gives the latest local write, else the first value read, else the present remote value. |
| SessionCache.ConditionsAreFirstReads | sc-rollup-api/packages/core/src/client.ts:226-230 | The conditions sent are exactly the first reads, one entry per key, with the value read then. |
| Session.ConditionsAreReads | sc-rollup-api/packages/core/src/client.ts:227-230 | The conditions hold on a store exactly when every cached value is still stored. |
| Session.UpdatesAreWrites | sc-rollup-api/packages/core/src/client.ts:232-250 | The updates sent write the bumped version and then lay the buffered writes over it, for any buffered writes: one to the version key itself undoes the bump. |
| Session.CommitSendsExactlyWhen | sc-rollup-api/packages/core/src/client.ts:208-214 | A commit sends nothing exactly when the session polled no message, buffered no write and added no reply; with anything to send only an unstarted session throws. |
| Session.StartThrows | sc-rollup-api/packages/core/src/client.ts:55-61 | A start throws exactly on a stored version of fewer than four bytes; its read is in the session either way. |
| Session.IndexReads | sc-rollup-client/sc-rollup-inkv6-client/ink_client_lib/traits/message_queue.rs:24-37 | A stored index is the number whose four bytes it begins with, none reads as 0, and fewer than four bytes are an error. |
| Session.MalformedTailStops | sc-rollup-client/sc-rollup-inkv6-client/ink_client_lib/traits/message_queue.rs:24-37 | While the stored tail is too short, push, pop, has_message and poll all fail and leave store and session as they are. |
| Session.PollOnQueue | sc-rollup-api/packages/core/src/client.ts:84-107 | On a store that holds a queue: what a poll at any index gives, from the wait behind the tail to the missing message before the head. |
| Client.WorkerClient.GetValueOf | sc-rollup-api/packages/core/src/client.ts:109-127 | The call in place: buffered write, then cached read, then one remote read that enters the cache. |
| Client.WorkerClient.SetValueOf | sc-rollup-api/packages/core/src/client.ts:129-131 | Buffers a write; asks nothing of the contract. |
| Client.WorkerClient.AddReply | sc-rollup-api/packages/core/src/client.ts:204-206 | Appends a reply to the session. |
| Client.WorkerClient.GetRemoteIndex | sc-rollup-api/packages/core/src/client.ts:71-74 | A remote index that stays outside the cache; absent is 0. |
| Client.WorkerClient.Start | sc-rollup-api/packages/core/src/client.ts:55-61 | Replaces the session, then reads the version through the cache. |
| Client.WorkerClient.Rollback | sc-rollup-api/packages/core/src/client.ts:282-285 | A fresh session. |
| Client.WorkerClient.Poll | sc-rollup-api/packages/core/src/client.ts:84-107 | Tail, then head on the first poll only, then message, each from its own moment; the index moves only when a message was found and decodes. |
| Client.WorkerClient.QueryHasMessage | sc-rollup-api/packages/ink-v6/src/ink-client.ts:233-246 | The has_message query, answered by the store of the moment; a failed query throws. |
| Client.WorkerClient.Prepare | sc-rollup-api/packages/core/src/client.ts:208-268 | Builds conditions, updates and actions in loops; nothing to commit, an unstarted session, and the full transaction are told apart as Session.CommitSendsExactlyWhen says. |
| Client.WorkerClient.Commit | sc-rollup-api/packages/core/src/client.ts:208-280 | Applied to the contract object, directly or as a signed meta-transaction: an accepted transaction moves it as specified and starts the next session, which may throw on the version it reads; a refused one changes neither contract nor session. |
| Client.WorkerClient.Send | sc-rollup-api/packages/core/src/client.ts:270-275 | Chooses between the direct and the signed transaction. |
| Client.WorkerClient.SendMetaTransaction | sc-rollup-api/packages/ink-v6/src/ink-client.ts:307-395 | Asks for the nonce at its own moment, signs the encoded transaction and sends the request. |
| Client.DirectCommitIsStep | sc-rollup-api/packages/core/src/client.ts:270-275 | A commit sent directly is the commit step of the protocol: same transaction, same contract, accepted exactly when the step changes anything. |
| Client.SignedCommitIsCommit | sc-rollup-api/packages/ink-v6/src/ink-client.ts:307-395 | A signed commit passes if and only if its nonce is still the current one and the rollup of its signer passes; then it is that rollup with the nonce used up. |
| MetaSessions.VersionProtectsNonce | sc-rollup-api/packages/core/src/client.ts:270-275 | If nonces are used by sessions alone: as long as the version a request was prepared under is still stored, no nonce has moved and the request is not refused for its own. |
| MetaSessions.AcceptedMovesVersion | sc-rollup-api/packages/core/src/client.ts:226-245 | The transaction of a session started at a version is accepted only at that version and leaves the next. |
| RollupClient.RollupMeaning | sc-rollup-client/sc-rollup-inkv6-client/ink_client_lib/traits/rollup_client.rs:54-105 | A rollup passes exactly when role, conditions and each kind of action allow it; then the state is last-write-wins of the updates followed by the separate folds over queue, roles and business state; otherwise nothing changes. A missing role is reported before a condition. |
| RollupClient.ActionsSplit | sc-rollup-client/sc-rollup-inkv6-client/ink_client_lib/traits/rollup_client.rs:93-105 | A list of actions passes exactly when its replies, head moves and role changes each fold without error, and its result is those three folds. |
| RollupClient.AttestorsMeaning | sc-rollup-client/sc-rollup-inkv6-client/ink_client_lib/traits/rollup_client.rs:93-105 | After any list of actions that passes, an account is an attestor exactly as the last action about it says, or as it was; no other role changes. |
| RollupClient.FailsAtFirst | sc-rollup-client/sc-rollup-inkv6-client/ink_client_lib/traits/rollup_client.rs:93-105 | A list of actions fails at its first action that cannot be done: a refused reply, a head outside the queue, a grant to one who is an attestor by then, a revocation of one who is not; each with its error. |
| RollupClient.LastUpdateWins | sc-rollup-client/sc-rollup-inkv6-client/ink_client_lib/traits/rollup_client.rs:80-83 | The last update of a key decides its value. |
| RollupClient.NoUpdateNoChange | sc-rollup-client/sc-rollup-inkv6-client/ink_client_lib/traits/rollup_client.rs:80-83 | A key without an update keeps its value. |
| RollupClient.UpdatesAreOverlay | sc-rollup-client/sc-rollup-inkv6-client/ink_client_lib/traits/rollup_client.rs:80-83 | Updates of different keys, in any order, are the overlay of the map they list. |
| RollupContract.Contract.constructor | examples/guess-the-number/ink-v6-contracts/game/lib.rs:181-190 | A deployed contract is empty, and its deployer holds the two roles. |
| RollupContract.Contract.InnerGetValue | sc-rollup-client/sc-rollup-inkv6-client/ink_client_lib/traits/kv_store.rs:25-27 | Reads a key. |
| RollupContract.Contract.InnerSetValue | sc-rollup-client/sc-rollup-inkv6-client/ink_client_lib/traits/kv_store.rs:29-34 | Inserts or removes a key and touches no other. |
| RollupContract.Contract.PushMessage | sc-rollup-client/sc-rollup-inkv6-client/ink_client_lib/traits/message_queue.rs:56-76 | Writes message, then tail; on overflow the message is already written. |
| RollupContract.Contract.PopMessagesTo | sc-rollup-client/sc-rollup-inkv6-client/ink_client_lib/traits/message_queue.rs:111-137 | The deleting loop removes exactly the keys of the indices from head to target, after both bounds are checked. |
| RollupContract.Contract.QueueHasMessage | sc-rollup-client/sc-rollup-inkv6-client/ink_client_lib/traits/message_queue.rs:93-97 | Compares tail and head. |
| RollupContract.Contract.GetMessage | sc-rollup-client/sc-rollup-inkv6-client/ink_client_lib/traits/message_queue.rs:78-91 | One message as its type: absent is no error, bytes that do not decode are one. |
| RollupContract.Contract.GrantRoleUnchecked | sc-rollup-client/sc-rollup-inkv6-client/ink_client_lib/traits/access_control.rs:109-127 | Grants a role; a redundant grant is an error. |
| RollupContract.Contract.RevokeRoleUnchecked | sc-rollup-client/sc-rollup-inkv6-client/ink_client_lib/traits/access_control.rs:138-155 | Revokes a role; a missing one is an error. |
| RollupContract.Contract.HandleOne | sc-rollup-client/sc-rollup-inkv6-client/ink_client_lib/traits/rollup_client.rs:93-105 | One action on the storage in place. |
| RollupContract.Contract.InnerRollupCondEq | sc-rollup-client/sc-rollup-inkv6-client/ink_client_lib/traits/rollup_client.rs:54-91 | The three loops, stopping half way at the first error with everything written so far. |
| RollupContract.Contract.RollupCondEq | sc-rollup-client/sc-rollup-inkv6-client/ink_client_lib/traits/rollup_client.rs:35-40 | The message: on any error the whole storage is as before. |
| AccessControl.GrantRevokeInverse | sc-rollup-client/sc-rollup-inkv6-client/ink_client_lib/traits/access_control.rs:109-155 | Grant and revoke undo each other, and exactly one of them succeeds. |
| MessageQueue.StoreRefinesQueue | sc-rollup-client/sc-rollup-inkv6-client/ink_client_lib/traits/message_queue.rs:56-147 | Under any sequence of pushes and pops the key-value layout gives the same outcomes as a plain sequence, its keys hold exactly that sequence, and no other key moves. |
| MessageQueue.PushAppends | sc-rollup-client/sc-rollup-inkv6-client/ink_client_lib/traits/message_queue.rs:56-76 | A push appends, or fails exactly when the tail index is used up; no other key changes. |
| MessageQueue.PopToDrops | sc-rollup-client/sc-rollup-inkv6-client/ink_client_lib/traits/message_queue.rs:111-137 | A pop drops the messages before its target and fails exactly outside head and tail; no other key changes. |
| MessageQueue.HasMessageIsNonEmpty | sc-rollup-client/sc-rollup-inkv6-client/ink_client_lib/traits/message_queue.rs:93-97 | has_message is non-emptiness. |
| MessageQueue.QueueKeysDistinct | sc-rollup-client/sc-rollup-inkv6-client/ink_client_lib/traits/message_queue.rs:12-28 | Message keys are injective and never the head or tail key. |
| ByteCodec.DecodeEncodeU32 | sc-rollup-client/sc-rollup-inkv6-client/ink_client_lib/traits/message_queue.rs:30-37 | A u32 reads back as written, modulo 2^32. |
| ByteCodec.BytePositions | sc-rollup-client/sc-rollup-inkv6-client/ink_client_lib/traits/message_queue.rs:30-37 | Which byte of a number stands where: lowest first in the little-endian form, lowest last in the big-endian one, for any width. |
| EvmAnchor.WordBytes | sc-rollup-api/packages/evm/src/evm-client.ts:99-103 | Which byte of an ABI word stands where, and the key of a message. |
| Session.KeysSpelled | sc-rollup-api/packages/ink-v6/src/ink-client.ts:48-58 | The reserved keys and message keys, character by character. |
| GuessGuarantees.FinishedStaysFinished | examples/guess-the-number/ink-v6-contracts/game/lib.rs:315-370 | In every run a finished game stays exactly as it ended, whatever players and workers do, until its own player starts a new one. |
| GuessGuarantees.NoPoison | examples/guess-the-number/ink-v6-contracts/game/lib.rs:366-368 | In every run a worker commit changes the contract if and only if its session is started and has polled a request, its attestor has the role and no session has committed since it started: no reply to a queued request is ever refused, and of concurrent sessions the first to commit gets through. |
| GuessGuarantees.WaitingRequestsAreAnswerable | examples/guess-the-number/worker-phala-cloud/src/guess-the-number.ts:87-115 | In every run every waiting request decodes, the worker can answer it whatever limit it looks up, and the contract takes any bytes that decode to that answer. |
| GuessGuarantees.EachRequestAnsweredOnce | examples/guess-the-number/worker-phala-cloud/src/guess-the-number.ts:37-68 | In every run the i-th reply ever delivered answers the i-th request ever pushed: it repeats game, player, attempt and guess, compares the guess with the target, carries a limit, and names the target exactly when the guess is right or the attempt has reached that limit. |
| GuessGuarantees.RepliesCountPops | sc-rollup-client/sc-rollup-inkv6-client/ink_client_lib/traits/message_queue.rs:99-147 | In every run the stored head is the number of replies ever delivered and the stored tail the number of requests ever pushed. |
| GuessGuarantees.PendingClueAccuracy | examples/guess-the-number/ink-v6-contracts/game/lib.rs:253-277 | In every run a game has no clue exactly when nothing was guessed or the request of its current attempt still waits in the queue. |
| GuessGuarantees.ClueConsistency | examples/guess-the-number/worker-phala-cloud/src/guess-the-number.ts:87-125 | In every run all clues applied to one game agree with one number, the word drawn for that game and player reduced to its bounds; a reply names it exactly when it ends the game, and a correct guess ends the game. |
| GuessGuarantees.CluesAreApplied | examples/guess-the-number/ink-v6-contracts/game/lib.rs:351-364 | In every run the clue and limit a game shows are those of one applied reply; no attempt of a game is ever answered twice and no reply follows the one that ended it. |
| GuessGuarantees.GameOverExactlyWhen | examples/guess-the-number/ink-v6-contracts/game/lib.rs:326-364 | In every run a game is over if and only if its last guess has a clue that says it was right or its attempt has reached the limit the game shows. |
| GuessGuarantees.GuessAcceptedExactlyWhen | examples/guess-the-number/ink-v6-contracts/game/lib.rs:237-290 | At every point of every run a guess is accepted if and only if its player has a game that is not over, fewer than 2^32 - 1 attempts into it, and fewer than 2^32 - 1 requests were ever pushed; then it is one attempt more without a clue, its request is the last in the queue, and nothing else changes. |
| GuessGuarantees.StartAcceptedExactlyWhen | examples/guess-the-number/ink-v6-contracts/game/lib.rs:193-234 | At every point of every run a new game is accepted if and only if min is below max and fewer than 2^128 - 1 games were started; then it is a fresh game with the next number, and nothing else changes. |
| GuessGuarantees.GameNumbersAreDistinct | examples/guess-the-number/ink-v6-contracts/game/lib.rs:204-223 | In every run numbers are issued without a gap, each game is the one issued under its number, and two players never share one. |
| GuessGuarantees.RunIsSchedule | examples/guess-the-number/ink-v6-contracts/game/lib.rs:193-290 | Every run of the game is a schedule of the rollup protocol that writes no reserved key, so all its guarantees apply. |
| GuessSteps.GameStepKeeps | examples/guess-the-number/worker-phala-cloud/src/guess-the-number.ts:37-68 | Every step of a player, worker or administrator keeps the invariant over games, queued requests and live sessions. |
| GuessInvariant.GuessKeepsInv | examples/guess-the-number/ink-v6-contracts/game/lib.rs:237-290 | A guess keeps the invariant: its request is the only waiting one for its game and attempt. |
| GuessInvariant.StartKeepsInv | examples/guess-the-number/ink-v6-contracts/game/lib.rs:193-234 | A new game keeps it: waiting requests of the old game no longer match. |
| GuessInvariant.AnswersFold | examples/guess-the-number/ink-v6-contracts/game/lib.rs:315-370 | Answers to the first waiting requests, applied in order, are all accepted, keep the invariant and touch no game that has its clue. |
| GuessTheNumber.GuessTheNumberContract.constructor | examples/guess-the-number/ink-v6-contracts/game/lib.rs:181-190 | The game contract starts with an empty rollup and no game. |
| GuessTheNumber.GuessTheNumberContract.StartNewGame | examples/guess-the-number/ink-v6-contracts/game/lib.rs:193-234 | In place; the game is stored before the number may overflow, and a failure puts everything back. |
| GuessTheNumber.GuessTheNumberContract.Guess | examples/guess-the-number/ink-v6-contracts/game/lib.rs:237-290 | In place; game and queue move together, and a failure puts both back. Which guesses pass is GuessTheNumber.GuessMeaning. |
| GuessTheNumber.GuessTheNumberContract.MessageReceived | examples/guess-the-number/ink-v6-contracts/game/lib.rs:315-370 | In place; only a reply to the current game and attempt changes anything. |
| GuessTheNumber.GuessMeaning | examples/guess-the-number/ink-v6-contracts/game/lib.rs:237-290 | On any well-formed queue: the exact outcome of a guess in the order of the checks, and the game, request and queue it leaves. |
| GuessTheNumber.ReplyMeaning | examples/guess-the-number/ink-v6-contracts/game/lib.rs:315-370 | Any bytes that begin with a response: an error without a game, no change for an earlier game or attempt, and else that clue, that limit, and the end of the game exactly when found or the limit is reached. |
| GuessTheNumber.UndecodableReply | examples/guess-the-number/ink-v6-contracts/game/lib.rs:315-318 | A reply fails to decode exactly when it begins with no response. |
| GuessTheNumber.ResponseMeaning | examples/guess-the-number/worker-phala-cloud/src/guess-the-number.ts:87-115 | A request can be answered exactly when its range has two numbers; the answer carries the limit looked up and names the target exactly when the guess is right or the attempt has reached that limit. |
| GuessMessages.RequestRoundTrip | examples/guess-the-number/worker-phala-cloud/src/guess-the-number.ts:131-149 | A request reads back as encoded. |
| GuessMessages.ResponseRoundTrip | examples/guess-the-number/worker-phala-cloud/src/guess-the-number.ts:151-182 | A response reads back as encoded, target or none. |
| GuessMessages.RequestDecodesExactly | examples/guess-the-number/worker-phala-cloud/src/guess-the-number.ts:131-149 | The bytes that decode to a request are exactly those that begin with its encoding. |
| GuessMessages.ResponseDecodesExactly | examples/guess-the-number/worker-phala-cloud/src/guess-the-number.ts:151-182 | The bytes that decode to a response are exactly those that begin with its encoding. |
| GuessMessages.RequestFields | examples/guess-the-number/worker-phala-cloud/src/guess-the-number.ts:131-149 | The layout of a request, field by field. |
| GuessMessages.ResponseFields | examples/guess-the-number/worker-phala-cloud/src/guess-the-number.ts:145-182 | The layout of a response, field by field, with the numbers of clue and option. |
| GuessWorker.Worker.GetResponse | examples/guess-the-number/worker-phala-cloud/src/guess-the-number.ts:87-115 | Target, limit and clue step by step: the answer the specification gives. |
| GuessWorker.Worker.GetMaxAttempts | examples/guess-the-number/worker-phala-cloud/src/guess-the-number.ts:70-85 | The limit looked up, or 3 when the lookup fails or knows none. |
| GuessWorker.Worker.HandleMessage | examples/guess-the-number/worker-phala-cloud/src/guess-the-number.ts:61-68 | Adds one answer to the request under the limit the indexer gives at that moment, or leaves the session when the range is empty. |
| GuessWorker.Worker.PollMessages | examples/guess-the-number/worker-phala-cloud/src/guess-the-number.ts:37-59 | One round, whatever store answers each query: nothing happens without a message, and it stops only where a read throws. Else it polls until its index has reached a tail it read, and commits one answer per polled message in order, from the head it read on, each under a limit the indexer gave; the contract moves by that one transaction, accepted or refused as the contract says. |
| GuessWorker.Worker.PollAndAnswer | examples/guess-the-number/worker-phala-cloud/src/guess-the-number.ts:46-55 | One pass of the loop: polls, and answers what the poll gives. |
| GuessWorker.AnsweringSends | examples/guess-the-number/worker-phala-cloud/src/guess-the-number.ts:37-59 | Such a round sends the version as its only condition, one head move past the last message, and one reply per message; without a message it sends nothing. |
| GuessWorker.NothingThrows | examples/guess-the-number/worker-phala-cloud/src/guess-the-number.ts:37-59 | While the contract stands still with a well-formed queue and answerable requests, no read of a round throws. |
| GuessWorker.PolledAll | examples/guess-the-number/worker-phala-cloud/src/guess-the-number.ts:46-57 | A round that ran while the contract stood still has polled the whole queue. |
| GuessWorker.QuietRoundEmptiesQueue | examples/guess-the-number/worker-phala-cloud/src/guess-the-number.ts:37-59 | Its transaction is accepted exactly when the handler takes the replies, and then leaves the queue empty. |
| MetaTransaction.NoncesCountSuccesses | sc-rollup-client/sc-rollup-inkv6-client/ink_client_lib/traits/meta_transaction.rs:67-161 | Over any run the nonce of an account is the number of its requests that succeeded, and these carried 0, 1, 2, ... in order. |
| MetaTransaction.NoReplay | sc-rollup-client/sc-rollup-inkv6-client/ink_client_lib/traits/meta_transaction.rs:94-122 | A request that has succeeded is refused for ever after. |
| MetaTransaction.PreparedStaysAcceptable | sc-rollup-client/sc-rollup-inkv6-client/ink_client_lib/traits/meta_transaction.rs:67-85 | A prepared request passes the nonce check after any further steps exactly as long as no request of its account has succeeded. |
| MetaTransaction.SendMovesNonce | sc-rollup-client/sc-rollup-inkv6-client/ink_client_lib/traits/meta_transaction.rs:124-161 | A success uses up exactly the nonce of its sender; a failure changes nothing. |
| MetaTransaction.MetaRollupIsRollup | sc-rollup-client/sc-rollup-inkv6-client/ink_client_lib/traits/meta_transaction.rs:142-161 | The exact outcome of a meta-transaction, each refusal by the first check that fails: destination, nonce, signature, nonce limit, decoding, and then the rollup of its sender; a success is that rollup with the nonce used up. |
| RollupContract.Contract.VerifyRequest | sc-rollup-client/sc-rollup-inkv6-client/ink_client_lib/traits/meta_transaction.rs:94-122 | Destination, nonce and signature are checked in this order. |
| RollupContract.Contract.EnsureMetaTxValid | sc-rollup-client/sc-rollup-inkv6-client/ink_client_lib/traits/meta_transaction.rs:124-140 | Moves the nonce of a valid request, unless it is the last u128. |
| RollupContract.Contract.InnerMetaTxRollupCondEq | sc-rollup-client/sc-rollup-inkv6-client/ink_client_lib/traits/meta_transaction.rs:142-161 | Nonce first, then decoding, then the rollup: what is left when it stops half way. |
| RollupContract.Contract.MetaTxRollupCondEq | sc-rollup-client/sc-rollup-inkv6-client/ink_client_lib/traits/meta_transaction.rs:59-63 | The message: on any error the nonce is back as well. |
| EvmMetaTransaction.NoncesCountSuccesses | sc-rollup-client/sc-rollup-evm-client/contracts/MetaTransaction.sol:53-69 | The same at-most-once promise for the Solidity anchor, over runs of its whole meta-transaction. |
| EvmMetaTransaction.MetaRollupIsRollup | sc-rollup-client/sc-rollup-evm-client/contracts/PhatRollupAnchor.sol:113-131 | The exact outcome of a Solidity meta-transaction, each revert by the first check that fails: recovery, signer and nonce, nonce limit, role of the signer, decoding, and then the rollup of the signer; through the self-call a success is that rollup with the nonce used up. |
| EvmMetaTransaction.SendMovesNonce | sc-rollup-client/sc-rollup-evm-client/contracts/MetaTransaction.sol:60-69 | A success uses up exactly the nonce of its sender; a revert changes nothing. |
| EvmMetaTransaction.PreparedAhead | sc-rollup-client/sc-rollup-evm-client/contracts/MetaTransaction.sol:40-58 | At any point of any run a nonce can be prepared exactly when it is not used up; a request so prepared verifies later exactly when that many requests of its account have succeeded, and a used nonce never does. |
| Erc721.InvariantOverRuns | examples/guess-the-number/ink-v6-contracts/erc721/lib.rs:222-417 | In every reachable state each balance is the number of tokens owned, the owned ids are those with a limit, approvals are for live tokens only, and nobody owns at the zero address. |
| Erc721.BalancesSumToSupply | examples/guess-the-number/ink-v6-contracts/erc721/lib.rs:313-363 | In every reachable state the balances add up to the number of live tokens. |
| Erc721.NoUnderflow | examples/guess-the-number/ink-v6-contracts/erc721/lib.rs:313-336 | In every reachable state no call returns CannotFetchValue, and the only panic left is a receiver with 2^32 - 1 tokens. |
| Erc721.OwnershipChanges | examples/guess-the-number/ink-v6-contracts/erc721/lib.rs:287-310 | Whenever a call changes the owner of a token it was minted by its caller, burnt by its owner, or transferred by the owner, an account the last word of the owner made an operator, or one approved for this holding by either; and no approval is left. |
| Erc721.ApprovalIsForThisHolding | examples/guess-the-number/ink-v6-contracts/erc721/lib.rs:287-417 | In every reachable state each approval was given by one successful call of the owner of that moment or of an operator of that owner, since which no transfer, burn or mint of the token has succeeded and its owner has not changed. |
| Erc721.OperatorExactlyWhen | examples/guess-the-number/ink-v6-contracts/erc721/lib.rs:366-384 | In every reachable state an account is an operator of an owner if and only if the last successful word of that owner about it was yes. |
| Erc721.TransferExactlyWhen | examples/guess-the-number/ink-v6-contracts/erc721/lib.rs:287-310 | In every reachable state a transfer succeeds if and only if it names the owner, the receiver is not the zero address and has room, and the caller is the owner or was given the authority by an act of the owner or an operator. |
| Erc721.ApproveMeaning | examples/guess-the-number/ink-v6-contracts/erc721/lib.rs:388-412 | The exact outcome of an approval: only the owner or an operator gives one, not to the zero address, and an existing one is not replaced. |
| Erc721.OperatorStep | examples/guess-the-number/ink-v6-contracts/erc721/lib.rs:366-384 | Nobody is made operator of himself; any other account is made or unmade one by the word of the owner alone. |
| Erc721.TransferMeaning | examples/guess-the-number/ink-v6-contracts/erc721/lib.rs:287-310 | The exact outcome of a transfer, and what it changes; a self-transfer keeps every balance. |
| Erc721.BurnMeaning | examples/guess-the-number/ink-v6-contracts/erc721/lib.rs:247-284 | The exact outcome of a burn; afterwards neither owner, limit nor approval is left, and no other token changes. |
| Erc721.MintMeaning | examples/guess-the-number/ink-v6-contracts/erc721/lib.rs:222-243 | The exact outcome of a mint; the new token has the limit given and no approval from an earlier life. |
| Erc721.Erc721Contract.Remove | examples/guess-the-number/ink-v6-contracts/erc721/lib.rs:313-336 | In place, stopping half way where the source does. |
| Erc721.Erc721Contract.Add | examples/guess-the-number/ink-v6-contracts/erc721/lib.rs:339-363 | In place, stopping half way where the source does. |
| Erc721.Erc721Contract.TransferInner | examples/guess-the-number/ink-v6-contracts/erc721/lib.rs:287-310 | In place: approval cleared, token removed, token added. |
| Erc721.Erc721Contract.MintInner | examples/guess-the-number/ink-v6-contracts/erc721/lib.rs:222-243 | In place: the limit is registered before the token is added. |
| Erc721.Erc721Contract.BurnInner | examples/guess-the-number/ink-v6-contracts/erc721/lib.rs:247-284 | In place over all the mappings of the token. |
| Erc721.Erc721Contract.ApproveInner | examples/guess-the-number/ink-v6-contracts/erc721/lib.rs:388-412 | In place; an existing approval is not replaced. |
| Erc721.Erc721Contract.ApproveForAllInner | examples/guess-the-number/ink-v6-contracts/erc721/lib.rs:366-384 | In place; one operator of the caller. |
| Erc721.Erc721Contract.Message | examples/guess-the-number/ink-v6-contracts/erc721/lib.rs:178-247 | A message that fails or panics restores the storage. |
| EvmAnchor.ConditionAgreesExactlyWhen | sc-rollup-client/sc-rollup-evm-client/contracts/PhatRollupAnchor.sol:147-152 | One condition: the Solidity store accepts what the ink! store accepts, and more exactly when one side is absent and the other is the empty value. |
| EvmAnchor.ConditionsAgree | sc-rollup-client/sc-rollup-evm-client/contracts/PhatRollupAnchor.sol:147-152 | Any list of conditions: the ink! store accepts it exactly when the Solidity store does and no key is absent on one side and present on the other. |
| EvmAnchor.ConditionsAgreeWithoutEmpty | sc-rollup-client/sc-rollup-evm-client/contracts/PhatRollupAnchor.sol:147-152 | Hence both accept the same lists where no value is empty. |
| EvmAnchor.UpdatesAgree | sc-rollup-client/sc-rollup-evm-client/contracts/PhatRollupAnchor.sol:154-157 | Updates, encoded by the client, keep all reads in agreement, whatever they write. |
| EvmAnchor.UpdatesKeepNoEmptyValue | sc-rollup-api/packages/evm/src/evm-client.ts:253-256 | Updates that write no empty value leave none at a key that had none. |
| EvmAnchor.RemoteReadsAgree | sc-rollup-api/packages/evm/src/evm-client.ts:105-111 | A remote read gives the Option-valued answer exactly where the stored value is not empty. |
| EvmAnchor.ActionsRecovered | sc-rollup-api/packages/evm/src/evm-client.ts:258-264 | The contract decodes exactly the reply or head index the client encoded. |
| EvmAnchor.ActionsAreRead | sc-rollup-client/sc-rollup-evm-client/contracts/PhatRollupAnchor.sol:167-192 | Which bytes are read as which of the four actions, both ways: the byte of the kind, then the reply or one word, behind which everything is ignored. |
| EvmAnchor.UnreadableActions | sc-rollup-client/sc-rollup-evm-client/contracts/PhatRollupAnchor.sol:167-192 | All other bytes revert, each with its error; an address in fewer than 32 bytes passes the length check and fails to decode. |
| EvmAnchor.AttestorsMeaning | sc-rollup-client/sc-rollup-evm-client/contracts/PhatRollupAnchor.sol:177-188 | After any list of actions that passes, an account is an attestor exactly as the last action about it says, or as it was. |
| EvmAnchor.RevertReasons | sc-rollup-client/sc-rollup-evm-client/contracts/PhatRollupAnchor.sol:93-165 | The exact outcome of a rollup before its actions: role, lengths of the lists, then the first condition that does not hold; a revert changes nothing. |
| EvmQueue.KeysDistinct | sc-rollup-api/packages/evm/src/evm-client.ts:99-103 | Message keys are injective and never the head, tail or version key. |
| EvmQueue.PushAppends | sc-rollup-client/sc-rollup-evm-client/contracts/PhatRollupAnchor.sol:202-209 | A push appends to the plain queue, up to the last uint256 index, and moves no key outside the queue. |
| EvmQueue.PopToDrops | sc-rollup-client/sc-rollup-evm-client/contracts/PhatRollupAnchor.sol:211-221 | A pop succeeds exactly up to the tail; from the head on it drops the messages before its target, below the head it moves the head back over slots that read as empty messages; no key outside the queue moves. |
| EvmRefinement.RunsAgree | sc-rollup-client/sc-rollup-evm-client/contracts/PhatRollupAnchor.sol:133-165 | At every point of every run of pushes and client transactions, stale ones included, each in the encoding of its contract, the Solidity anchor and the ink! contract have accepted and refused the same calls and hold the same queue, roles, business state and values. |
| EvmRefinement.TwinsAtFirst | sc-rollup-client/sc-rollup-evm-client/contracts/PhatRollupAnchor.sol:58-81 | Freshly deployed with the same attestors the two contracts agree: the start of such a run. |
| EvmRefinement.TransactionsAgree | sc-rollup-client/sc-rollup-evm-client/contracts/PhatRollupAnchor.sol:133-192 | One client transaction without empty values, which if its conditions hold does not move the head back, is accepted by both contracts or by neither. |
| EvmRefinement.PushesAgree | sc-rollup-client/sc-rollup-evm-client/contracts/PhatRollupAnchor.sol:202-209 | A push below the last u32 index is accepted by both and appends the same message. |
| EvmProtocol.SessionSendable | sc-rollup-api/packages/core/src/client.ts:208-268 | What a session sends meets those conditions, its head move because it has polled a prefix of the queue whenever its conditions hold. |
| EvmSession.StepMatches | sc-rollup-api/packages/evm/src/evm-client.ts:105-111 | Each step of a worker against the anchor, with ABI words for indices and version, leaves the worker it would be against the ink! contract, but for the form of the version. |
| EvmProtocol.Lockstep | sc-rollup-api/packages/evm/src/evm-client.ts:189-265 | At every point of every run the protocol with the anchor says the same as the protocol with the ink! contract by the same steps: history, workers, queue, store, roles and business state. |
| EvmGuarantees.AnchorIsSerializable | sc-rollup-client/sc-rollup-evm-client/contracts/PhatRollupAnchor.sol:133-165 | In every run with the anchor its history is, but for the form of the version, one whose sessions run atomically in commit order, and the anchor holds what they leave. |
| EvmGuarantees.AnchorUserStoreIsSerial | sc-rollup-client/sc-rollup-evm-client/contracts/PhatRollupAnchor.sol:154-157 | In every run the application keys of the anchor hold what committed sessions wrote, in commit order. |
| EvmGuarantees.AnchorExactlyOnceFifo | sc-rollup-client/sc-rollup-evm-client/contracts/PhatRollupAnchor.sol:202-221 | In every run the anchor holds the queue of what was pushed less what committed sessions polled, and each commit polled the messages at the indices after all earlier ones. |
| EvmGuarantees.AnchorVersionSafety | sc-rollup-api/packages/evm/src/evm-client.ts:253-256 | In every run the version on the anchor is the number of commits, and each committed session started when exactly the earlier ones had committed. |
| EvmGuarantees.EmptyMessageStalls | sc-rollup-api/packages/evm/src/evm-client.ts:105-111 | A poll on the anchor gets past the missing-message check at an index of the queue if and only if the message there is not empty; at an empty one it ends with nothing taken. |
| EvmContract.PhatRollupAnchor.PushMessage | sc-rollup-client/sc-rollup-evm-client/contracts/PhatRollupAnchor.sol:202-209 | In place: message, then tail. |
| EvmContract.PhatRollupAnchor.PopMessagesTo | sc-rollup-client/sc-rollup-evm-client/contracts/PhatRollupAnchor.sol:211-221 | The deleting loop, which never runs for a target below the head, though the head still moves there. |
| EvmContract.PhatRollupAnchor.HandleOne | sc-rollup-client/sc-rollup-evm-client/contracts/PhatRollupAnchor.sol:167-192 | One action by its first byte, with the length checks and decoding errors of each kind. |
| EvmContract.PhatRollupAnchor.RollupU256CondEqInternal | sc-rollup-client/sc-rollup-evm-client/contracts/PhatRollupAnchor.sol:133-165 | Three loops over parallel arrays, with both length checks first. |
| EvmContract.PhatRollupAnchor.RollupU256CondEqInner | sc-rollup-client/sc-rollup-evm-client/contracts/PhatRollupAnchor.sol:93-105 | The role check, which the contract itself is exempt from, and the call. |
| EvmContract.PhatRollupAnchor.RollupU256CondEq | sc-rollup-client/sc-rollup-evm-client/contracts/PhatRollupAnchor.sol:93-105 | The transaction: a revert puts everything back. |
| EvmContract.PhatRollupAnchor.MetaTxVerify | sc-rollup-client/sc-rollup-evm-client/contracts/MetaTransaction.sol:53-58 | Recovers the signer first, which may revert, then compares nonce and sender. |
| EvmContract.PhatRollupAnchor.UseNonce | sc-rollup-client/sc-rollup-evm-client/contracts/MetaTransaction.sol:60-69 | Moves the nonce of a verified request before the guarded call. |
| EvmContract.PhatRollupAnchor.MetaTxInner | sc-rollup-client/sc-rollup-evm-client/contracts/PhatRollupAnchor.sol:113-131 | Nonce, role of the signer, decoding, self-call: what is left when it stops half way. |
| EvmContract.PhatRollupAnchor.MetaTxRollupU256CondEq | sc-rollup-client/sc-rollup-evm-client/contracts/PhatRollupAnchor.sol:113-131 | The transaction: a revert puts everything back, the nonce included. |
| Vrf.RandomNumber | sc-rollup-api/packages/util-crypto/src/vrf.ts:27-48 | A number is drawn exactly for accepted bounds, and lies within them. |
| Vrf.ReductionIsEven | sc-rollup-api/packages/util-crypto/src/vrf.ts:45-47 | Over all 2^32 words each result in range has the floor of 2^32/n preimages, one more for the first 2^32 mod n results, and no other result has any. |
| Vrf.EveryNumberIsDrawnExactlyWhen | sc-rollup-api/packages/util-crypto/src/vrf.ts:35-47 | For accepted bounds every number of the range can be drawn if and only if max - min is below 2^32. |
| Vrf.WidestRangeMissesItsMaximum | sc-rollup-api/packages/util-crypto/src/vrf.ts:35-47 | For the range of 2^32 + 1 numbers the largest is never drawn and each other exactly once. |
| Vrf.ExactlyOneNumberVerifies | sc-rollup-api/packages/util-crypto/src/vrf.ts:50-52 | For any salt and accepted bounds exactly one number verifies, and it lies within them; for all other arguments verification throws, with the error of the first bound or salt that is wrong. |
| Vrf.WordsAreFourBytes | sc-rollup-api/packages/util-crypto/src/vrf.ts:44-46 | The word is fixed by the first four bytes of the derivation, and every word is one. |
| PriceFeed.ConvertIsScaledFloor | examples/price-feed-oracle/worker-phala-cloud/src/price-feed-oracle.ts:39-45 | For every decimal string with a dot, of any fraction length, the result is the floor of the number it denotes times 10^18; what its digits denote is PriceFeed.NumOfDigits. |
| PriceFeed.ConvertWhole | examples/price-feed-oracle/worker-phala-cloud/src/price-feed-oracle.ts:39-45 | A whole number is scaled exactly. |
| PriceFeed.ConvertOfPrinted | examples/price-feed-oracle/worker-phala-cloud/src/price-feed-oracle.ts:39-45 | For every whole part and every fraction of any number of digits, printed in decimal, the result is that number times 10^18 rounded down, and exact up to 18 digits. |
| PriceFeed.SplitOfMany | examples/price-feed-oracle/worker-phala-cloud/src/price-feed-oracle.ts:41 | Only the first two fields of the string count, however many dots there are. |
| PriceFeed.NumOfDigits | examples/price-feed-oracle/worker-phala-cloud/src/price-feed-oracle.ts:44 | A number printed with enough digits reads back. |
| PriceFeed.DigitsArePrinted | examples/price-feed-oracle/worker-phala-cloud/src/price-feed-oracle.ts:44 | Every string of digits is one number printed with as many digits, so no such string is left out. |
| PriceFeed.ExponentIsRefusedExactlyWhen | examples/price-feed-oracle/worker-phala-cloud/src/price-feed-oracle.ts:39-45 | Exponent notation throws exactly with at most 17 fraction digits, and always without a fraction; behind 18 or more digits the exponent is dropped and the result is that of the number without it. |

## Left out

- EvmRefinement.RunsAgree: for transactions without empty values, without queue keys among conditions and updates, with no head move below the head when their conditions hold, and for pushes below the last u32 index; outside these the contracts differ, as EvmAnchor.ConditionsAgree and EvmQueue.PopToDrops say. Role actions are left out, because clients do not send them.
- EvmGuarantees.AnchorIsSerializable: polls that found nothing are as in the lockstep history, and not judged again.
- MetaSessions.VersionProtectsNonce: what else happens to the contract in a run may raise the version but uses no nonce.
- Other reads outside the conditions, namely has_message, getMessage and the index getters called on their own, leave no record in a session.
- PriceFeed.ConvertIsScaledFloor: strings of digits with one dot only; negative numbers and the other forms BigInt parses (blanks, prefixes) are refused by the model and not stated.
- Erc721.Erc721Contract.Message: `transfer` is `transfer_from` with the caller as holder.
- Typed reads and writes of the client (numbers, strings, booleans), which encode and decode bytes of their own: the session works on bytes.
- Administration of roles by message (`grant_role`, `revoke_role`, `renounce_role`): one step of the protocol changes roles and nonces arbitrarily instead.
- The ink! v5 traits repeat the v6 logic, and the price feed consumers only write a field per reply.
- RPC, wallets, fees, HTTP routes, cron tasks and indexer queries; events, except as the recorded history of games and replies; gas and reentrancy.
- Cryptography, the SCALE and ABI codecs beyond fixed-width integers, and generated bindings.
