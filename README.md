# Ledger engine of the money-transfer backend

The backend keeps users, accounts and transfers between accounts in an
in-memory H2 database. Its engine, `H2Database`, offers five operations:
`createUser`, `createAccount`, `getAccount`, `getTransfer` and `transfer`.
Each runs as one transaction that commits all its writes or none of them,
and each reports its outcome through a callback. `transfer` locks both
accounts, smaller id first. It then checks, in a fixed order, that the
source exists, that the requester owns it, that the destination exists and
that the funds suffice. Only then does it write both balances and append an
audit record. In front of it, the HTTP `TransferHandler` turns away a
transfer from an account to itself and a non-positive amount, and maps every
outcome to a reply.

The project has these modules:

- `Entity` (`entity.dfy`): the immutable `Account` and `Transfer` records and their constructor checks.
- `Callbacks` (`callbacks.dfy`): one outcome datatype per callback interface.
- `Ledger` (`ledger.dfy`): the specification. The store is a value with users, accounts, the append-only
  log of transfer records and the identity counters. Each operation is a function from the store before
  to the store after and the outcome.
- `H2` (`h2_database.dfy`): the class `H2Database`. Its fields hold the tables and the locks taken by the
  open transaction. Its methods run the operations statement by statement: lock, read, `setBalance`,
  insert, read back the generated id, commit or roll back. Each operation method (`CreateUser`,
  `CreateAccount`, `GetAccount`, `GetTransfer`, `Transfer`) is proved to leave the tables, and to report
  the outcome, exactly as the `Ledger` function of the same name does. The statement-level methods that
  the operations call state their own effect on the tables.
- `LedgerProperties` (`ledger_properties.dfy`): properties that relate several operations:
  - conservation of the sum of all balances;
  - non-negative balances;
  - agreement of the audit record with later reads;
  - freedom from deadlock of the lock order;
  - the load scenario of 2 × 201 opposite transfers, in any order.
- `TransferHandler` (`transfer_handler.dfy`): the guards, the reply to each outcome and the composition
  of the handler with the engine.

Amounts are exact rationals (`real`). Addition, subtraction and comparison of `BigDecimal` values are
exact, and they are the only arithmetic the engine does.

Things the engine cannot see in advance are parameters:

- What the storage does during an operation is a `Storage` value:
  - `Healthy`;
  - `Throws(sqlState)`: the statement fails with that SQLState;
  - `NoGeneratedId`: `SCOPE_IDENTITY` returns no row.
- The time of a transfer is a positive `timestamp` argument.
- Whether the executor refuses the work is the handler's `queueFull` argument.

The engine does not refuse a transfer from an account to itself. Both locks
read the same row, and the second balance write (`H2Database.java:285`)
overwrites the first (`:282`), so the account gains `amount`. This is
`SelfTransferGrowsTotal`. The audit record of such a transfer is wrong too:
it records the balance after as the balance before minus `amount`, while the
account ends at the balance before plus `amount` (`SelfTransferRecordDisagrees`).
Conservation (`TransferConservesTotal`) is therefore
stated for distinct accounts. `HandleConservesTotal` shows that the handler's
first guard closes the gap for every request.

A requester who does not own the source account gets 404, the same status as
for a missing source account, as the handler's comment intends
(`TransferHandler.java:95`). The bodies differ, though: the missing account's
message names its id and the other does not. So a requester can still tell
someone else's account from a missing one (`NotOwnerRepliedAsMissing`).

The two `VARCHAR(255)` columns, `users.name` and `transfers.request_id`, are
modelled. H2 measures a value by Java's `String.length()`, in UTF-16 code
units, so a character above U+FFFF counts twice (`Ledger.Utf16Length`). A
longer value makes the insert fail with SQLState 22001. The
request id is whatever the client sends in its `RequestId` header, so a
transfer with a longer request id fails after both balance writes, is not
committed, and is reported as an unexpected error.

`createAccount` does not check the sign of the opening balance. So
non-negativity is proved as something a transfer preserves, not as an
invariant of every store.

## Model

| member | source | states |
|---|---|---|
| Entity.NewAccount | src/main/java/com/revolut/backend/entity/Account.java:14-21 | The constructor needs positive id and owner id. It imposes no sign on the balance. Each field reads back as its constructor argument. |
| Entity.NewTransfer | src/main/java/com/revolut/backend/entity/Transfer.java:22-56 | The constructor needs positive id, timestamp, source, destination and user ids. Each of the eleven fields reads back as its argument. |
| Ledger.Empty | src/main/java/com/revolut/backend/db/impl/H2Database.java:79-106 | The freshly created tables are empty, and the store satisfies the store invariant: ids below their counters, foreign keys resolved, records numbered 1, 2, … |
| Ledger.ParentMissingMeansUnknownOwner | src/main/java/com/revolut/backend/db/impl/H2Database.java:25-37 | `ErrorCode.PARENT_MISSING.is` classifies an insert failure by its SQLState alone. When the storage itself does not fail, the account insert fails exactly when the owner is not a user, and that failure is classified as parent-missing. A failure of the storage counts as a missing owner exactly when its state is 23506. |
| Ledger.Utf16Length | src/main/java/com/revolut/backend/db/impl/H2Database.java:79-106 | The length a `VARCHAR` column is checked against: between the number of characters and twice that, and equal to it exactly when no character lies above U+FFFF. |
| Ledger.LockOrder | src/main/java/com/revolut/backend/db/impl/H2Database.java:247-254 | The two accounts are locked in ascending id order. The order contains exactly the source and the destination. |
| Ledger.LockAccount | src/main/java/com/revolut/backend/db/impl/H2Database.java:371-389 | The result is an account exactly when the row exists. It is then a valid `Account` with that row's id, owner and balance. |
| Ledger.SetBalance | src/main/java/com/revolut/backend/db/impl/H2Database.java:391-400 | Only the named row's balance changes. Its owner and every other row stay, and no row is added. |
| Ledger.CreateUser | src/main/java/com/revolut/backend/db/impl/H2Database.java:125-150 | Success happens exactly when the storage is healthy and the name fits its `VARCHAR(255)` column (line 81). The name is then stored under a fresh positive id, which is reported. A storage failure, a name that is too long (SQLState 22001) or a missing generated id (`getLastId`, lines 429-437) is reported as an unexpected error and leaves the store unchanged. |
| Ledger.CreateAccount | src/main/java/com/revolut/backend/db/impl/H2Database.java:156-193 | `UserNotFound` is reported exactly when the insert fails with SQLState 23506 (`ErrorCode.is`, lines 25-37). That is the case for an unknown owner on healthy storage. Success happens exactly when the storage is healthy and the owner exists: a fresh positive id, with only that row added. Any other storage failure is reported as an unexpected error with its SQLState, and a missing generated id (`getLastId`, lines 429-437) as an unexpected error. Every failure leaves the store unchanged. |
| Ledger.GetAccount | src/main/java/com/revolut/backend/db/impl/H2Database.java:199-226 | An account is found exactly when a row has both the requested id and the requested owner. The result is that row. Otherwise it is not-found, or the storage error. |
| Ledger.GetTransfer | src/main/java/com/revolut/backend/db/impl/H2Database.java:330-369 | A record is found exactly when the log holds one with the requested id and `userId`. The result is that record. Otherwise it is not-found, or the storage error. |
| Ledger.ArgumentFailure | src/main/java/com/revolut/backend/db/impl/H2Database.java:232-239 | An argument check fails exactly when a call is not admissible (an id ≤ 0, or amount ≤ 0). The failing checks are reported in the source's order and with its messages, all four of them. |
| Ledger.Transfer | src/main/java/com/revolut/backend/db/impl/H2Database.java:241-324 | Failures are decided in a fixed order: storage error, missing source, not the owner (even when the destination is missing too), missing destination. `InsufficientFunds` is reported exactly when the source balance is below `amount`, so an equal balance succeeds. After the balance writes, a request id too long for its column (line 98) fails the record's insert with SQLState 22001. A missing generated id (`getLastId`, lines 429-437) is reported as an unexpected error. Completion happens exactly when the storage is healthy, the checks pass, the funds suffice and the request id fits. Every failure leaves the store unchanged. On completion only the two balances move, by `amount` (`Applied`), and exactly one audit record is appended under the returned next id. |
| H2.H2Database.constructor | src/main/java/com/revolut/backend/db/impl/H2Database.java:70-111 | The new database holds the empty tables and no locks. |
| H2.H2Database.Commit | src/main/java/com/revolut/backend/db/impl/H2Database.java:307-309 | `connection.commit()`: the writes stay and the transaction's locks are released. |
| H2.H2Database.Rollback | src/main/java/com/revolut/backend/db/impl/H2Database.java:256-260 | `connection.rollback()`: the tables return to what they were when the transaction began, and its locks are released. |
| H2.H2Database.InsertUser | src/main/java/com/revolut/backend/db/impl/H2Database.java:131-134 | The insert fails with SQLState 22001 exactly when the name is longer than its column, and then changes nothing. Otherwise the row goes under the next user id, which is fresh and positive, and the counter advances. |
| H2.H2Database.InsertAccount | src/main/java/com/revolut/backend/db/impl/H2Database.java:163-177 | The insert fails with the storage's SQLState, or with 23506 for an unknown owner, and then changes nothing. Otherwise the row goes under the next, fresh account id. |
| H2.H2Database.LockAccount | src/main/java/com/revolut/backend/db/impl/H2Database.java:371-389 | The id is appended to the transaction's locks, and the read agrees with `Ledger.LockAccount`. |
| H2.H2Database.SetBalance | src/main/java/com/revolut/backend/db/impl/H2Database.java:391-400 | The accounts table becomes `Ledger.SetBalance` of the old one, and the store invariant is kept. |
| H2.H2Database.InsertTransfer | src/main/java/com/revolut/backend/db/impl/H2Database.java:288-303 | The insert fails with SQLState 22001 exactly when the request id is longer than its column, and then changes nothing. Otherwise the record is appended under the next transfer id and the counter advances. The store invariant is kept either way. |
| H2.H2Database.WriteTransfer | src/main/java/com/revolut/backend/db/impl/H2Database.java:280-303 | The source's balance is written, then the destination's, then the record. The record's insert fails exactly when the request id is too long. The accounts then already hold both written balances, and the log and its counter are unchanged; the caller rolls this back. Otherwise the tables become `Ledger.Written` of the old ones. |
| H2.H2Database.CreateUser | src/main/java/com/revolut/backend/db/impl/H2Database.java:125-150 | After insert, id read-back and commit or rollback, the tables and the outcome are those of `Ledger.CreateUser`, with no lock left. |
| H2.H2Database.CreateAccount | src/main/java/com/revolut/backend/db/impl/H2Database.java:156-193 | After the insert, the 23506 classification, id read-back and commit or rollback, the tables and the outcome are those of `Ledger.CreateAccount`. |
| H2.H2Database.GetAccount | src/main/java/com/revolut/backend/db/impl/H2Database.java:199-226 | The read changes nothing, and its result is `Ledger.GetAccount` of the tables. |
| H2.H2Database.GetTransfer | src/main/java/com/revolut/backend/db/impl/H2Database.java:330-369 | The read changes nothing, and its result is `Ledger.GetTransfer` of the tables. |
| H2.H2Database.Transfer | src/main/java/com/revolut/backend/db/impl/H2Database.java:232-324 | The rows are locked in `LockOrder`, and the locks are released at commit or rollback. The resulting tables and outcome are those of `Ledger.Transfer` on the tables before. |
| LedgerProperties.TransferConservesTotal | src/main/java/com/revolut/backend/db/impl/H2Database.java:278-285 | Between two different accounts, a transfer leaves the sum of all balances unchanged, whatever its outcome. |
| LedgerProperties.SelfTransferGrowsTotal | src/main/java/com/revolut/backend/db/impl/H2Database.java:281-285 | A completed transfer from an account to itself raises the sum of all balances by `amount`. |
| LedgerProperties.SelfTransferRecordDisagrees | src/main/java/com/revolut/backend/db/impl/H2Database.java:281-300 | After a completed self-transfer, the record's balance after is the balance before minus `amount`, but the account holds the balance before plus `amount`. |
| LedgerProperties.TransferPreservesNonNegative | src/main/java/com/revolut/backend/db/impl/H2Database.java:278-285 | If every balance is ≥ 0 before a transfer, every balance is ≥ 0 after it. |
| LedgerProperties.AuditRecordMatchesReads | src/main/java/com/revolut/backend/db/impl/H2Database.java:281-309 | After a completed transfer, `getTransfer` by the requester returns the new record. The record's after-balances are what `getAccount` by each owner returns. They differ from the before-balances by `amount`, and their sum equals the sum before. |
| LedgerProperties.NoWaitCycle | src/main/java/com/revolut/backend/db/impl/H2Database.java:247-254 | Transfers that lock in `LockOrder` can never wait for each other in a cycle, whatever their accounts and directions. |
| LedgerProperties.OppositeTransfersLockAlike | src/main/java/com/revolut/backend/db/impl/H2Database.java:247-254 | A→B and B→A lock the two rows in the same order. |
| LedgerProperties.Run | src/test/java/com/revolut/backend/load/test/BackendServerLoadTest.java:34-47 | Transfers applied one after another keep the store invariant, with one outcome per call. |
| LedgerProperties.ScenarioPrefix | src/test/java/com/revolut/backend/load/test/BackendServerLoadTest.java:34-51 | In any interleaving of at most 201 calls of each kind, every call completes. Each account ends at 100 ± 0.35 per B→A call ∓ 0.17 per A→B call, with one record per call. |
| LedgerProperties.AlternatingTransfersOrderIndependent | src/test/java/com/revolut/backend/load/test/BackendServerLoadTest.java:25-51 | From 100 and 100, 201 transfers of 0.35 B→A and 201 of 0.17 A→B, in any order, all complete. They leave A at 136.18 and B at 63.82, with 402 new records. |
| TransferHandler.NatToString | src/main/java/com/revolut/backend/handler/TransferHandler.java:88 | `String.valueOf` of a non-negative id gives decimal digits without leading zeros. |
| TransferHandler.NatToStringRoundTrip | src/main/java/com/revolut/backend/handler/TransferHandler.java:88 | Reading those digits back gives the id. |
| TransferHandler.IntToString | src/main/java/com/revolut/backend/handler/TransferHandler.java:88 | `String.valueOf` of any `long` is its digits, prefixed by `-` when negative, and the digits read back as its magnitude. |
| TransferHandler.AccountNotFoundMessage | src/main/java/com/revolut/backend/utils/Reply.java:26-29 | The message is `account with id '…' not found`, and the id can be read back from between the quotes. |
| TransferHandler.Guard | src/main/java/com/revolut/backend/handler/TransferHandler.java:64-72 | A request passes exactly when the accounts differ and the amount is positive. Equal accounts get 400 with their message, whatever the amount. Only then does a non-positive amount get 400 with the amount message. |
| TransferHandler.ReplyTo | src/main/java/com/revolut/backend/handler/TransferHandler.java:79-110 | The reply is 200 exactly on completion, with the transfer id. It is 404 exactly for a missing account or a non-owner. The missing account's message names its id, and the non-owner's message is `account not found`. It is 409 exactly for insufficient funds, and 500 exactly for an unexpected error. |
| TransferHandler.Handle | src/main/java/com/revolut/backend/handler/TransferHandler.java:54-116 | The engine is called exactly when the guards pass, with the request's own parameters. Otherwise the reply is the 400 of the first failing guard. An argument the engine rejects gets 500 with the exception's text. For a refused submission the handler sets status 429 and Retry-After 30. An admitted and accepted request gets `ReplyTo` of the engine's outcome. Any reply other than 200 leaves the store unchanged. 200 comes exactly when the engine completes, with the next transfer id and the engine's new store. |
| TransferHandler.HandleConservesTotal | src/main/java/com/revolut/backend/handler/TransferHandler.java:64-78 | Whatever the request, handling it leaves the sum of all balances unchanged. |
| TransferHandler.HandlePreservesNonNegative | src/main/java/com/revolut/backend/handler/TransferHandler.java:64-78 | Handling any request keeps non-negative balances non-negative. |
| TransferHandler.NotOwnerRepliedAsMissing | src/main/java/com/revolut/backend/handler/TransferHandler.java:86-97 | A non-owner gets 404, the same status as a missing source account. The non-owner's body is `account not found`. The missing account's body is the message naming its id, which is a different string. |

## Left out

- Concurrency is not modelled. The thread pool, its bounded queue, and the mutual exclusion of `SELECT … FOR UPDATE` are absent, and each operation is one atomic step. Only the order in which a transfer takes its locks is modelled, and the freedom from deadlock that order gives. A refused submission is the handler's `queueFull` argument.
- The JDBC and H2 plumbing is not modelled: the server, connections, the schema DDL and `SCOPE_IDENTITY`. The identity columns are counters, and storage failures are the `Storage` argument.
- A storage failure is modelled at the start of an operation only, for `createUser` and `transfer`. An exception thrown by a later statement ends in the same outcome, and the transaction is not committed. So the store is unchanged either way.
- Rolled-back inserts reset the identity counter in the model. H2 may skip the id a rolled-back insert took, so its ids can have gaps where the model's do not.
- `CURRENT_TIMESTAMP()` is the wall clock. The record's timestamp is a positive argument.
- Ids are unbounded integers, not 64-bit `long`. No operation does arithmetic on them that could overflow.
- The `BigDecimal` scale and text form are not modelled, so `136.18` and `136.180` are the same value.
- The null checks (`requireNonNull`) are not modelled, because Dafny values cannot be null.
- The handler's request validation and `Utils.parseDecimal` are not modelled. The request is given with its parameters already parsed.
- Logging, metrics and HTTP response writing are not modelled. A reply is a status and a body, and the `Retry-After` header is a body variant.
- `TransferHandler.Handle`'s 429 is the status and header the handler sets on a `RejectedExecutionException`. `Reply.tryLater` (`Reply.java:43-47`) never ends the response, unlike every other reply, so the source never actually sends it and the client is left waiting. The model does not capture whether a response is sent.
- The text of an unexpected exception, `String.valueOf(e)`, is not modelled for engine errors: the reply carries the cause. It is modelled for the `IllegalArgumentException` of a rejected argument, which the router's failure handler answers with 500.
- The other handlers (`CreateUserHandler`, `CreateAccountHandler`, `GetAccountHandler`, `GetTransferHandler`) are not part of this model.
- LedgerProperties.TransferPreservesNonNegative is not stated as an invariant of every store, because `createAccount` accepts a negative opening balance.
- LedgerProperties.TransferConservesTotal requires distinct accounts, because the engine itself does not conserve the total on a self-transfer (see `SelfTransferGrowsTotal`).
