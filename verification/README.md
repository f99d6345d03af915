# Verification of the wallet transfer engine

This Dafny project models the transfer engine of a wallet service and proves what it promises: transfers
between wallets happen exactly once per idempotency key, never lose or create money, never deadlock, and can be
read back page by page.

`dafny verify dfyconfig.toml` checks everything.

## How it is built

| file | content |
|---|---|
| `Base.dfy`, `Domain.dfy` | int64 arithmetic with wrap-around, Go's order on strings, finite sums; entities, request validation, lock order |
| `RequestText.dfy` | the text `from\|to\|amount` whose digest is stored with a key |
| `Schema.dfy` | the four tables, the constraints, the statements; a transaction's private writes and what it sees |
| `Spec.dfy` | each service operation as one atomic change over unbounded integers, and the invariant of committed tables |
| `Protocol.dfy` | any number of concurrent calls, one step per SQL statement, with row locks, claims on primary keys, crashes before any statement, and commits and rollbacks whose acknowledgement is lost |
| `Shape.dfy`, `Invariant.dfy`, `Steps.dfy` | the inductive invariant of the protocol and its proof, step by step |
| `Linearizability.dfy`, `Guarantees.dfy`, `Answers.dfy`, `Progress.dfy`, `Outcomes.dfy`, `HotWallet.dfy` | theorems about every run of the protocol; `Answers.dfy` says of each operation, without the reference below, what its answers mean |
| `Store.dfy` | the code as written: `RunInTx` with its exit paths, `executeTransfer`, `replayIfExists`, `Create`, the audit query, imperative and with faults |
| `History.dfy`, `RunHistory.dfy`, `LateCommit.dfy` | the paged history, the client that follows the cursor, both under concurrent commits, and a run in which a transfer is committed behind the cursor |

The atomic operation `Spec.TransferOnce` is the one reference: `Store.CreateTransfer` refines it sequentially, and
`Linearizability.RunIsLinearizable` says that every concurrent run is a sequential run of it.

A state of the protocol holds the committed tables, each wallet's opening balance, the lock and claim tables, the
calls with their local variables and private writes, and the trace of steps taken so far. The trace, and the step
numbers kept in a call, are bookkeeping: `Linearizability.RunRemembers` proves that they agree with the run.
Every initial state is allowed whose tables are consistent, so a run may begin with a populated database.

A call takes effect at one of its own steps: at its commit if it made a transfer, at its key read if it replayed or
met a conflict, at the refused credit if the sum overflows, and at the earlier fast-path key read if a wallet turns out
to be missing. Calls that were rolled back by a crash or by a uuid collision take no effect.

## What differs from the comments

- The idempotency record is inserted before the balance writes (`internal/service/transfer.go:314`), not "finally" (`internal/service/transfer.go:144-145`).
- Balances are written as absolute values (`internal/repository/postgres/wallet.go:58`), although the repository's `README.md:405` draws them as `balance - amount`.
- No code calls `CanTransitionTo`, although `internal/service/transfer.go:357-359` says it guards the moves. The moves are proved legal instead.
- The cursor compares `created_at` only (`internal/repository/postgres/transfer.go:110`), not `(created_at, id)` (`internal/repository/postgres/transfer.go:95`). Rows can be skipped: `History.WalkOmitsExactlySkipped` says which, `History.TiesCanBeLost` gives an instance.
- The repository's `README.md:1013-1017` promises "a consistent slice" to a client that pages during writes. That can fail, because `created_at` is the start of a transaction that may commit later. `History.LiveWalkIsSliceIff` says when it holds, `LateCommit.LateCommitHappens` gives a run in which it does not.
- The stored digest does not always tell two requests apart (`internal/service/transfer.go:77-85`): `RequestText.SameTextIff` says for which pairs, `RequestText.IdentifiedIffNoCut` for which requests, `RequestText.ValidRequestsCanCollide` gives an instance.

## Model

| member | source | states |
|---|---|---|
| Linearizability.RunIsLinearizable | internal/service/transfer.go:160-391 | every run of concurrent creates, wallet seeds and reads has the tables and answers of one sequential run of the atomic operations, in an order in which no call precedes one that had ended before it began; aborted calls are not in it |
| Linearizability.RunRemembers | internal/service/transfer.go:160-241 | the trace in a state is the run so far, and recorded starts and ends of calls are when they really began and ended |
| Linearizability.OrderIsSerial | internal/service/transfer.go:160-365 | replaying the effective steps of any prefix of a run one after the other gives the tables committed then |
| Answers.TransferIsTrue | internal/service/transfer.go:160-391 | a transfer request that was not rolled back did, at a moment while its call was open, what its answer says: a fresh transfer is FAILED exactly if the source was short, and adds its row, record and ledger pair and moves the balances; a replay, a conflict, a missing wallet, an overflow or a broken rule is as reported on the tables of that moment and leaves them alone |
| Answers.WalletReadIsTrue | internal/service/wallet.go:30-34 | a wallet read that did not crash answers the balance committed at a moment while it was open, or not found if there was no such wallet then; nothing else |
| Answers.TransferReadIsTrue | internal/service/transfer.go:393-398 | a transfer read that did not crash answers the row committed at a moment while it was open, unchanged, or not found if there was none then; nothing else |
| Answers.ReadsAfterSuccess | internal/service/transfer.go:393-398 | once a request was answered with a transfer, PROCESSED or FAILED, every later read of it answers the same transfer or crashes |
| Answers.SeedingIsTrue | internal/service/wallet.go:51-63 | a seeding call that did not crash, at a moment while it was open, inserted the wallet with the given balance exactly if the id was not empty, the balance not negative and the wallet new, and otherwise changed nothing; it was told which, with the error of the failing test, unless the reply was lost |
| Answers.SuccessWasWellFormed | internal/service/transfer.go:61-75 | who is told of a transfer had sent a key, a positive amount and two different non-empty wallet ids |
| Answers.BrokenRequestIsRefused | internal/service/transfer.go:61-75 | a request that breaks one of these rules ends with the error for the first one it breaks, or crashes, and no step of its call changes the tables |
| Steps.StepKeepsInv | internal/service/transfer.go:271-365 | every step of every call, crash or lost acknowledgement keeps the protocol invariant |
| Steps.StepRefinesSpec | internal/service/transfer.go:271-365 | the committed tables change only as the atomic operation of the stepping call changes them |
| Steps.RunIsConsistent | internal/db/migrations/0001_init.up.sql:3-62 | every committed state obeys the schema, no transfer is PENDING, PROCESSED has exactly its DEBIT and CREDIT, FAILED has no ledger row, records and transfers correspond one to one, and each record holds the digest of its transfer |
| Steps.CommitIsTheSpec | internal/service/transfer.go:318-364 | committing the absolute, wrapped balances read earlier is the atomic transfer on the tables as they are at commit |
| Steps.RefusedWrite | internal/service/transfer.go:334-362 | once the key is claimed a write is refused if and only if it is the credit and the sum exceeds int64; then by the CHECK, and the atomic operation refuses there with the same error |
| Steps.ClaimRefusedMeansCommitted | internal/repository/postgres/idempotency.go:58-71 | a refused key claim means the winner has committed and is always a unique violation |
| Steps.MissingWalletTakesEffectAtKeyRead | internal/service/transfer.go:279-285 | a wallet missing at lock time was missing, and the key absent, at the fast-path read |
| Guarantees.SuccessesWithOneKeyAgree | internal/service/transfer.go:199-240 | all successful answers for one key are the same terminal transfer asked for by the same text; it belongs to no other key and money moved for it exactly once or not at all |
| Guarantees.SuccessAnswersRequest | internal/service/transfer.go:375-391 | every success, fresh or replayed, has the requested amount and the requested wallets, up to a bar moved between the ids; without bars in the sources, or in the destinations, exactly the requested wallets |
| Guarantees.ConflictMeansDifferentRequest | internal/service/transfer.go:387-390 | a conflict is reported only if the transfer on record for the key is not the requested one in that sense |
| Guarantees.EveryAnswerIsAnAnswer | internal/service/transfer.go:220-231 | a call that lost the race for its key finds the winner's record and transfer; no call ends with neither a transfer nor an error |
| Guarantees.ReadBalancesStayCurrent | internal/service/transfer.go:277-296 | no lost update: from the second balance read to the commit the balances held are the committed ones |
| Guarantees.CommitAddsAndSubtracts | internal/repository/postgres/wallet.go:49-71 | a commit of absolute balances shifts each committed balance by exactly its transfer |
| Guarantees.StateWritesAreLegal | internal/domain/transfer.go:52-64 | every state write of every run finds the row PENDING and makes it PROCESSED or FAILED, an edge the transition table allows |
| Guarantees.CommittedRowsAreFinal | internal/repository/postgres/transfer.go:65-91 | no committed transfer, ledger row or record is ever rewritten or removed, and none is PENDING |
| Guarantees.MoneyIsAccountedFor | internal/service/transfer.go:334-355 | in every committed state the sum of balances is the sum of openings, balances lie in [0, 2^63-1] and equal opening plus credits minus debits, over the ledger and over the PROCESSED rows |
| Progress.NoDeadlock | internal/service/transfer.go:279-316 | in every reachable state with an unfinished call some call can send its next statement, with a new uuid where it needs one, for every pool of at least one connection |
| Progress.OpenTransactionLeadsToReadyOne | internal/service/transfer.go:441-449 | from every open transaction a path in the wait-for graph leads to one that can go on, and the wallets awaited along it ascend in the lock order |
| Progress.OpenWithinPool | internal/db/db.go:77-79 | no run has more open transactions than the pool has connections |
| Progress.FaultsArePossible | internal/repository/postgres/postgres.go:53-82 | at any point a call may crash, which frees all it held and commits nothing; a COMMIT or a wallet insertion may take effect as usual and be reported as unknown |
| Progress.RunLengthBound | internal/service/transfer.go:160-391 | no run of N calls takes more than 18 N steps |
| Progress.RunCanBeCompleted | internal/service/transfer.go:160-391 | every run can be carried on, without a crash, a lost reply or a taken uuid from there on, until every call is answered; every call open before is then told what became of it, and none collides that had not |
| Outcomes.OpenRequestsCanBeServed | internal/service/transfer.go:160-241 | and if all money fits in an int64, every open valid request between wallets that existed when the run began, under a key unused then, and not already refused for its uuid, ends with a transfer or a conflict and a transfer on record under its key |
| Outcomes.TransferOrConflict | internal/service/transfer.go:160-241 | in every run whose money fits in an int64 an ended valid request between wallets that existed when the run began, under a key unused then, was answered with a transfer, a conflict, or a lost COMMIT reply, and its key has a transfer on record, unless its call crashed or drew a uuid already taken |
| Outcomes.ConflictHasRival | internal/service/transfer.go:387-390 | a conflict under a key unused when the run began takes another call of the run with the same key and another text |
| Outcomes.RecordHasCall | internal/service/transfer.go:298-316 | every record and transfer new since the run began was asked for by an ended call of the run, with that key, text, wallets and amount, in a transaction begun at the transfer's timestamp |
| Outcomes.NewRecordsAreWellFormed | internal/service/transfer.go:61-75 | every record new since the run began has a non-empty key, and its transfer a positive amount and two different non-empty wallet ids |
| HotWallet.HotDebitsTally | internal/service/transfer.go:320-364 | in every state of every run in which no call credits a wallet and all that debit it debit one amount, whatever else the calls do and however they end: of the m debits committed so far min(m, B div amount) are PROCESSED, the others FAILED, and the balance is B less what was paid |
| HotWallet.HotWalletCount | internal/service/stress_integration_test.go:24-45 | if moreover the debiting calls end neither by a crash nor by a uuid collision, their destinations exist and all money fits in an int64, then all N keys they use are committed, min(N, B div amount) of them PROCESSED and the others FAILED |
| HotWallet.HotWalletCalls | internal/service/stress_integration_test.go:39-45 | with a key for each call, exactly min(N, B div amount) of the N calls have a PROCESSED transfer and the others a FAILED one, and each is told its own unless the reply to its COMMIT is lost |
| Spec.ApplyKeepsConsistent | internal/db/migrations/0001_init.up.sql:3-62 | every atomic operation keeps schema, conservation, balance = opening + ledger, settled transfers and one record per transfer |
| Spec.ApplyKeepsDigests | internal/service/transfer.go:77-89 | every record keeps the digest of its own transfer's from, to and amount |
| Spec.RetryRepeatsTheAnswer | internal/service/transfer.go:153-159 | after a success with a key, however the balances changed since, the same request gets the same transfer, FAILED included, a different one a conflict, and nothing changes |
| Spec.TransferOnceSettles | internal/service/transfer.go:271-365 | a fresh transfer adds one terminal row, one record and its ledger pair, and shifts each balance by what the row says; otherwise nothing changes |
| Spec.SpecAnswerIsTrue | internal/service/transfer.go:160-391 | every answer of the atomic transfer is true of the tables before and after, stated fact by fact |
| Schema.AcceptedStatementKeepsSchema | internal/db/migrations/0001_init.up.sql:3-62 | every accepted statement leaves tables that obey all CHECK, UNIQUE, PRIMARY KEY and REFERENCES clauses |
| Schema.OverlayRefinesExec | internal/repository/repository.go:36-44 | running a statement over a transaction's private writes shows what running it on the visible tables would have made |
| Base.WrappedSumIsNegativeIffOverflow | internal/service/transfer.go:337 | the wrapped sum of two non-negative int64 is negative exactly when it overflows |
| Domain.OrderedPairIsSymmetricAndAscending | internal/service/transfer.go:441-449 | both directions of a pair are locked in the same strictly ascending order |
| Domain.ValidateDecides | internal/service/transfer.go:61-75 | validation passes exactly the requests with a key, a positive amount and two different non-empty wallet ids, and otherwise names the first broken rule |
| Domain.OnlyPendingMovesOn | internal/domain/transfer.go:59-64 | PENDING may become PROCESSED or FAILED and nothing else; those two are final |
| Base.LexLessMeans | internal/service/transfer.go:444-449 | the lock order puts a proper prefix first and otherwise decides at the first differing position |
| RequestText.SameTextIff | internal/service/transfer.go:86-89 | two requests have the same text if and only if amount and wallets agree, or the amount agrees and a bar moves between the ids |
| RequestText.IdentifiedIffNoCut | internal/service/transfer.go:86-89 | a valid request is told apart from every different valid one if and only if no bar inside its ids cuts the pair text into two different non-empty ids; ids without bars always are |
| RequestText.EqualTextMeansEqualRequest | internal/service/transfer.go:387-390 | equal texts mean equal requests when neither source id, or neither destination id, contains a bar |
| RequestText.ValueOfDigits | internal/service/transfer.go:87 | printed digits read back, in base ten, as the number, without a leading zero |
| RequestText.DecimalInjective | internal/service/transfer.go:87 | decimal printing is injective, signs included |
| RequestText.ValidRequestsCanCollide | internal/service/transfer.go:77-89 | two valid requests between different wallets with the same text |
| Store.RunInTx | internal/repository/postgres/postgres.go:53-82 | for every callback and every failing statement, error or panic: nil is returned if and only if the callback returned nil, no statement broke the transaction and the COMMIT was acknowledged; the committed tables are the accepted writes in order if the callback returned nil, nothing broke and the COMMIT took effect, and untouched otherwise; a reply reports a lost connection only when the connection is spent or the transaction broken; an error is returned as it was, with the text of a real rollback error added and its identity kept |
| Store.Close | internal/repository/postgres/postgres.go:58-79 | rollback preserves the callback's error for errors.Is, commit publishes what the transaction sees, a failed commit publishes nothing |
| Store.Tx.Send | internal/repository/repository.go:36-44 | an accepted statement turns what the transaction sees into what the statement makes of it; a refused one changes nothing and breaks the transaction unless it merely matched no row |
| Store.InsertIdempotency | internal/repository/postgres/idempotency.go:58-71 | the "exists" sentinel is reported exactly when the key is taken |
| Store.LockAndRead | internal/service/transfer.go:277-296 | returns both balances, or "not found" only if a wallet is missing |
| Store.Claim | internal/service/transfer.go:298-316 | on success the PENDING row and the record are new and visible; each failure has its own cause |
| Store.MoveMoney | internal/service/transfer.go:330-364 | on success the transaction sees the tables of the atomic transfer; the only refusal is overflow |
| Store.ExecuteTransfer | internal/service/transfer.go:271-365 | success shows exactly the tables of the atomic transfer, failure has exactly the expected cause or is a lost connection |
| Store.ReplayIfExists | internal/service/transfer.go:375-391 | nothing recorded, conflict, or the recorded transfer |
| Store.CreateTransfer | internal/service/transfer.go:160-241 | without faults it is the atomic transfer in tables and answer; with faults it is that or nothing, success is never reported without having happened, and only a lost acknowledgement hides one that happened; a request that breaks a rule gets the error for the first it breaks and changes nothing, faults or not |
| Store.CreateWallet | internal/service/wallet.go:51-63 | inserts the wallet with exactly the given balance and returns it if and only if the id is not empty, the balance not negative and the wallet new; otherwise nothing changes and the error is that of the failing test; both as the atomic seed |
| Store.ListByTransfer | internal/repository/postgres/ledger.go:47-68 | returns the transfer's ledger rows in insertion order |
| Store.AuditShowsAllOrNothing | internal/repository/postgres/ledger.go:39-46 | those rows are one DEBIT then one CREDIT for a PROCESSED transfer and none otherwise |
| History.ListByWallet | internal/repository/postgres/transfer.go:104-131 | returns stored transfers from or to the wallet below the cursor and no others, newest first and by descending id in a tie, at most the limit, and leaves one out only if the limit is reached and it sorts after all returned |
| History.ListTransfersByWallet | internal/service/transfer.go:411-439 | rejects an empty wallet id, otherwise returns that slice for the clamped limit, with a cursor exactly for full pages, the timestamp of the last row |
| History.Clamped | internal/service/transfer.go:420-425 | the requested limit if it is between 1 and 200, 50 if it is not positive, 200 if it is larger |
| History.WalkPages | internal/service/transfer.go:408-410 | following the cursor until there is none terminates, collects the walk, and shows only the wallet's own transfers |
| History.WalkIsSorted | internal/service/transfer.go:427-438 | a walk repeats no row and stays in strictly descending order, ties or not |
| History.WalkOmitsExactlySkipped | internal/repository/postgres/transfer.go:109-112 | a walk omits exactly the rows that share their timestamp with the last row of a full page and sort after it |
| History.WalkCompleteIff | internal/service/transfer.go:434-437 | a walk with pages of n is complete if and only if for no k the rows k n - 1 and k n of the history share their timestamp |
| History.DistinctTimesMakeWalkComplete | internal/service/transfer.go:400-439 | with distinct timestamps, for every requested limit, the pages are the whole history |
| History.RowCursorOmitsNothing | internal/repository/postgres/transfer.go:93-97 | a (created_at, id) cursor would omit nothing |
| History.TiesCanBeLost | internal/repository/postgres/transfer.go:109-112 | two transfers of one instant of which pages of one show only one |
| History.LiveWalkIsSorted | internal/service/transfer.go:427-438 | whatever commits between pages, a walk repeats no row and stays in order |
| History.LiveWalkReturnsExactlyReachable | internal/repository/postgres/transfer.go:104-112 | with distinct timestamps a completed walk returns exactly the rows below some page's cursor when that page is read |
| History.LiveWalkMissesNothingOld | internal/repository/postgres/transfer.go:104-112 | in particular every row that existed when the walk began |
| History.LiveWalkIsSliceIff | README.md:1013-1017 | with distinct timestamps a completed walk shows exactly the history of the moment it began if and only if no page j is read after a row older than row j n - 1 of that history was committed |
| History.LateCommitShowsUp | README.md:1013-1017 | a row committed below the cursor after a newer one was shown is shown, although it did not exist when the walk began |
| LateCommit.LateCommitHappens | README.md:1013-1017 | a run of the protocol in which this happens: a transfer whose transaction began first is committed after the page that shows the other |
| History.HistoryExplainsBalance | internal/service/transfer.go:411-439 | the drained history, PROCESSED rows signed, adds up to balance minus opening balance |
| RunHistory.LivePagingIsComplete | internal/service/transfer.go:411-439 | paging while the protocol runs returns no row twice and every row committed when the first page was asked for |
| RunHistory.AnsweredTransferIsListed | internal/service/transfer.go:400-439 | every transfer a client was told of, PROCESSED or FAILED, is from then on in the history of its source and its destination and of no other wallet, and with distinct timestamps in their drained pages |
| RunHistory.RunHistoryExplainsBalance | internal/service/transfer.go:334-364 | at every committed state of every run a wallet's drained history adds up to its balance |

## Left out

- SHA-256: the stored digest is the text itself, which stands for an injective digest.
- Go runtime values for time: timestamps are integers, each transfer gets an arbitrary immutable `created_at`; `updated_at` is not modelled (within a transaction `now()` is constant).
- `uuid.New`: an arbitrary number; a collision with a committed transfer is an insert error, one with an open transaction waits for it.
- `failure_reason` as free text: only the two values the service writes are representable.
- `TransferState.Valid`: states are a datatype, so no fourth value exists.
- HTTP handlers, routing, JSON, cursor text, metrics, tracing, configuration, server start and stop, migrations as a process.
- PostgreSQL internals: only row locks, primary-key claims, constraints and read-committed visibility are modelled; the indexes of migration 0002 do not change results.
- Store.Tx.ReadBalance: does not take a lock, because the imperative layer has one client; locking is the subject of `Protocol.dfy`.
- Store.CreateTransfer: the callback given to `RunInTx` is inlined between opening and closing the transaction, because Dafny methods cannot be passed as values; `Store.RunInTx` covers callbacks as functions of the replies so far.
- Store.ReplayIfExists: its two reads fail together or not at all; in `Protocol.dfy` they are separate statements.
- Store.RunInTx: callbacks terminate, with a bound on the number of their statements.
- History.ListTransfersByWallet: the page is read from the tables as one value and cannot fail for want of a connection.
- Lock waiting queues: a waiting call may go on whenever what it waits for is free; no order among waiters is assumed.
- Connection loss that the server has not noticed yet: a crashed transaction keeps its locks until its crash step, which may come arbitrarily late; a transaction whose ROLLBACK gets no reply, until its rollback step.
