/**
 * The storage-backed engine as the Java class runs it: three tables held in
 * fields, each operation a transaction that locks, reads, writes row by row
 * and then commits or rolls back. Every operation is proved to leave the
 * tables, and to report the outcome, that the `Ledger` function of the same
 * name specifies.
 */
module H2 {
  import Entity
  import opened Wrappers
  import opened Callbacks
  import Ledger

  class H2Database {
    var users: map<int, string>
    var accounts: map<int, Ledger.AccountRow>
    var transfers: seq<Entity.Transfer>
    var nextUserId: int
    var nextAccountId: int
    var nextTransferId: int

    /** The account rows the open transaction has locked, in the order it locked them. */
    var locked: seq<int>

    /** The tables as a value. */
    function State(): Ledger.Store
      reads this
    {
      Ledger.Store(users, accounts, transfers, nextUserId, nextAccountId, nextTransferId)
    }

    ghost predicate Valid()
      reads this
    {
      State().Valid()
    }

    /** `init`: every object dropped, then the three tables created empty. */
    constructor ()
      ensures Valid() && State() == Ledger.Empty() && locked == []
    {
      users, accounts, transfers := map[], map[], [];
      nextUserId, nextAccountId, nextTransferId := 1, 1, 1;
      locked := [];
    }

    /** Commit: the writes stay, the locks are released. */
    method Commit()
      modifies this`locked
      ensures locked == []
    {
      locked := [];
    }

    /** Roll back to the tables as they were at `begin`, and release the locks. */
    method Rollback(begin: Ledger.Store)
      requires begin.Valid()
      modifies this
      ensures Valid() && State() == begin && locked == []
    {
      users, accounts, transfers := begin.users, begin.accounts, begin.transfers;
      nextUserId, nextAccountId, nextTransferId := begin.nextUserId, begin.nextAccountId, begin.nextTransferId;
      locked := [];
    }

    /** `getLastId`: the id the last insert generated, unless it cannot be read back. */
    method GetLastId(generated: int, storage: Ledger.Storage) returns (id: Option<int>)
      ensures id.Some? <==> !storage.NoGeneratedId?
      ensures id.Some? ==> id.value == generated
    {
      if storage.NoGeneratedId? {
        id := None;
      } else {
        id := Some(generated);
      }
    }

    /**
     * `INSERT INTO users`: a name longer than its column fails; otherwise the
     * IDENTITY column gives the row the next user id.
     */
    method InsertUser(name: string) returns (generated: int, failure: Option<SqlState>)
      requires Valid()
      modifies this`users, this`nextUserId
      ensures Valid()
      ensures failure.Some? <==> !Ledger.FitsVarchar(name)
      ensures failure.Some? ==> failure.value == Ledger.VALUE_TOO_LONG && users == old(users) && nextUserId == old(nextUserId)
      ensures failure.None? ==>
        && generated == old(nextUserId) && generated > 0 && generated !in old(users)
        && users == old(users)[generated := name] && nextUserId == generated + 1
    {
      generated := 0;
      if !Ledger.FitsVarchar(name) {
        failure := Some(Ledger.VALUE_TOO_LONG);
        return;
      }
      failure := None;
      generated := nextUserId;
      users := users[generated := name];
      nextUserId := nextUserId + 1;
    }

    /**
     * `INSERT INTO accounts`: fails with the storage's SQLState, or with the
     * parent-missing state when the owner is not a user; otherwise the row is
     * stored under the next account id.
     */
    method InsertAccount(ownerId: int, balance: Entity.Decimal, storage: Ledger.Storage)
      returns (generated: int, failure: Option<SqlState>)
      requires Valid()
      modifies this`accounts, this`nextAccountId
      ensures Valid()
      ensures failure == Ledger.InsertAccountFailure(old(State()), ownerId, storage)
      ensures failure.Some? ==> accounts == old(accounts) && nextAccountId == old(nextAccountId)
      ensures failure.None? ==>
        && generated == old(nextAccountId) && generated > 0 && generated !in old(accounts)
        && accounts == old(accounts)[generated := Ledger.AccountRow(ownerId, balance)]
        && nextAccountId == generated + 1
    {
      generated := 0;
      if storage.Throws? {
        failure := Some(storage.sqlState);
        return;
      }
      if ownerId !in users {
        failure := Some(Ledger.PARENT_MISSING);
        return;
      }
      failure := None;
      generated := nextAccountId;
      accounts := accounts[generated := Ledger.AccountRow(ownerId, balance)];
      nextAccountId := nextAccountId + 1;
    }

    /** `lockAccount`: lock the row with this id and read it, if there is one. */
    method LockAccount(accountId: int) returns (account: Option<Entity.Account>)
      requires Valid()
      modifies this`locked
      ensures locked == old(locked) + [accountId]
      ensures account == Ledger.LockAccount(State(), accountId)
    {
      locked := locked + [accountId];
      if accountId in accounts {
        var row := accounts[accountId];
        account := Some(Entity.NewAccount(accountId, row.ownerId, row.balance));
      } else {
        account := None;
      }
    }

    /** `setBalance`: `UPDATE accounts SET balance WHERE id`. */
    method SetBalance(accountId: int, balance: Entity.Decimal)
      requires Valid()
      modifies this`accounts
      ensures Valid()
      ensures accounts == Ledger.SetBalance(old(accounts), accountId, balance)
    {
      if accountId in accounts {
        accounts := accounts[accountId := accounts[accountId].(balance := balance)];
      }
    }

    /**
     * `INSERT INTO transfers`: a request id longer than its column fails;
     * otherwise the record is appended under the next transfer id.
     */
    method InsertTransfer(record: Entity.Transfer) returns (generated: int, failure: Option<SqlState>)
      requires Valid()
      requires record.id == nextTransferId
      requires State().TransferRowValid(record, nextTransferId)
      modifies this`transfers, this`nextTransferId
      ensures Valid()
      ensures failure.Some? <==> !Ledger.FitsVarchar(record.requestId)
      ensures failure.Some? ==>
        failure.value == Ledger.VALUE_TOO_LONG && transfers == old(transfers) && nextTransferId == old(nextTransferId)
      ensures failure.None? ==>
        && generated == old(nextTransferId)
        && transfers == old(transfers) + [record] && nextTransferId == generated + 1
    {
      generated := 0;
      if !Ledger.FitsVarchar(record.requestId) {
        failure := Some(Ledger.VALUE_TOO_LONG);
        return;
      }
      failure := None;
      generated := nextTransferId;
      transfers := transfers + [record];
      nextTransferId := nextTransferId + 1;
    }

    /**
     * The writes of a transfer whose checks passed: `setBalance` on the
     * source, `setBalance` on the destination, then the audit record, whose
     * insert fails when the request id is longer than its column.
     */
    method WriteTransfer(call: Ledger.TransferCall, srcAccount: Entity.Account, dstAccount: Entity.Account,
                         timestamp: int)
      returns (generated: int, failure: Option<SqlState>)
      requires Valid()
      requires call.Admissible() && timestamp > 0
      requires Ledger.LockAccount(State(), call.srcAccountId) == Some(srcAccount)
      requires Ledger.LockAccount(State(), call.dstAccountId) == Some(dstAccount)
      requires srcAccount.ownerId == call.userId
      modifies this`accounts, this`transfers, this`nextTransferId
      ensures Valid()
      ensures failure.Some? <==> !Ledger.FitsVarchar(call.requestId)
      ensures failure.Some? ==>
        && failure.value == Ledger.VALUE_TOO_LONG
        && accounts == Ledger.Written(old(State()), call, srcAccount, dstAccount, timestamp).accounts
        && transfers == old(transfers) && nextTransferId == old(nextTransferId)
      ensures failure.None? ==>
        && generated == old(nextTransferId)
        && State() == Ledger.Written(old(State()), call, srcAccount, dstAccount, timestamp)
    {
      var src, dst, amount := call.srcAccountId, call.dstAccountId, call.amount;
      var srcNewBalance := srcAccount.balance - amount;
      SetBalance(src, srcNewBalance);
      var dstNewBalance := dstAccount.balance + amount;
      SetBalance(dst, dstNewBalance);
      var record := Entity.NewTransfer(
        nextTransferId, call.requestId, timestamp, src, dst, call.userId, amount,
        srcAccount.balance, srcNewBalance, dstAccount.balance, dstNewBalance);
      generated, failure := InsertTransfer(record);
    }

    /** `createUser`. */
    method CreateUser(name: string, storage: Ledger.Storage) returns (r: CreateUserOutcome)
      requires Valid() && locked == []
      modifies this
      ensures Valid() && locked == []
      ensures Ledger.Step(State(), r) == Ledger.CreateUser(old(State()), name, storage)
    {
      if storage.Throws? {
        r := CreateUserError(StorageError(storage.sqlState));
        return;
      }
      var begin := State();
      var generated, failure := InsertUser(name);
      if failure.Some? {
        r := CreateUserError(StorageError(failure.value));
        return;
      }
      var userId := GetLastId(generated, storage);
      if userId.Some? {
        Commit();
        r := UserCreated(userId.value);
      } else {
        Rollback(begin);
        r := CreateUserError(IdUnavailable);
      }
    }

    /** `createAccount`. */
    method CreateAccount(userId: int, balance: Entity.Decimal, storage: Ledger.Storage)
      returns (r: CreateAccountOutcome)
      requires Valid() && locked == []
      requires userId > 0
      modifies this
      ensures Valid() && locked == []
      ensures Ledger.Step(State(), r) == Ledger.CreateAccount(old(State()), userId, balance, storage)
    {
      var begin := State();
      var generated, failure := InsertAccount(userId, balance, storage);
      if failure.Some? {
        if Ledger.IsParentMissing(failure.value) {
          r := UserNotFound;
        } else {
          r := CreateAccountError(StorageError(failure.value));
        }
        return;
      }
      var accountId := GetLastId(generated, storage);
      if accountId.Some? {
        Commit();
        r := AccountCreated(accountId.value);
      } else {
        Rollback(begin);
        r := CreateAccountError(IdUnavailable);
      }
    }

    /** `getAccount`: `SELECT ... FROM accounts WHERE id = ? AND owner_id = ?`. */
    method GetAccount(userId: int, accountId: int, storage: Ledger.Storage) returns (r: GetAccountOutcome)
      requires Valid()
      requires userId > 0
      requires accountId > 0
      ensures r == Ledger.GetAccount(State(), userId, accountId, storage)
    {
      if storage.Throws? {
        r := GetAccountError(StorageError(storage.sqlState));
        return;
      }
      if accountId in accounts && accounts[accountId].ownerId == userId {
        r := AccountFound(Entity.NewAccount(accountId, accounts[accountId].ownerId, accounts[accountId].balance));
      } else {
        r := AccountAbsent;
      }
    }

    /** `getTransfer`: `SELECT ... FROM transfers WHERE id = ? AND user_id = ?`. */
    method GetTransfer(userId: int, transferId: int, storage: Ledger.Storage) returns (r: GetTransferOutcome)
      requires Valid()
      requires transferId > 0
      ensures r == Ledger.GetTransfer(State(), userId, transferId, storage)
    {
      if storage.Throws? {
        r := GetTransferError(StorageError(storage.sqlState));
        return;
      }
      if transferId < nextTransferId {
        var t := transfers[transferId - 1];
        if t.userId == userId {
          r := TransferFound(t);
          return;
        }
      }
      r := TransferNotFound;
    }

    /**
     * `transfer`: lock both accounts, smaller id first; check the source
     * exists, the requester owns it, the destination exists and the funds
     * suffice; then write both balances and the audit record and commit.
     * `acquired` is the order in which the two rows were locked.
     */
    method Transfer(call: Ledger.TransferCall, timestamp: int, storage: Ledger.Storage)
      returns (r: TransferOutcome, acquired: seq<int>)
      requires Valid() && locked == []
      requires call.Admissible()
      requires timestamp > 0
      modifies this
      ensures Valid() && locked == []
      ensures Ledger.Step(State(), r) == Ledger.Transfer(old(State()), call, timestamp, storage)
      ensures acquired == if storage.Throws? then [] else Ledger.LockOrder(call.srcAccountId, call.dstAccountId)
    {
      var src, dst, amount := call.srcAccountId, call.dstAccountId, call.amount;
      acquired := [];
      if storage.Throws? {
        r := TransferError(StorageError(storage.sqlState));
        return;
      }
      var begin := State();
      var srcAccount, dstAccount;
      if src > dst {
        dstAccount := LockAccount(dst);
        srcAccount := LockAccount(src);
        assert locked == [dst, src];
      } else {
        srcAccount := LockAccount(src);
        dstAccount := LockAccount(dst);
        assert locked == [src, dst];
      }
      acquired := locked;
      assert State() == begin;
      assert srcAccount == Ledger.LockAccount(begin, src) && dstAccount == Ledger.LockAccount(begin, dst);
      ghost var spec := Ledger.Transfer(begin, call, timestamp, storage);

      if srcAccount.None? {
        Rollback(begin);
        r := AccountNotFound(src);
        assert spec == Ledger.Step(begin, r);
        return;
      }
      if call.userId != srcAccount.value.ownerId {
        Rollback(begin);
        r := NotOwner;
        assert spec == Ledger.Step(begin, r);
        return;
      }
      if dstAccount.None? {
        Rollback(begin);
        r := AccountNotFound(dst);
        assert spec == Ledger.Step(begin, r);
        return;
      }

      if srcAccount.value.balance >= amount {
        var generated, failure := WriteTransfer(call, srcAccount.value, dstAccount.value, timestamp);
        if failure.Some? {
          Rollback(begin);
          r := TransferError(StorageError(failure.value));
          assert spec == Ledger.Step(begin, r);
          return;
        }
        var transferId := GetLastId(generated, storage);
        if transferId.Some? {
          Commit();
          r := TransferCompleted(transferId.value);
          assert spec == Ledger.Step(State(), r);
        } else {
          Rollback(begin);
          r := TransferError(IdUnavailable);
          assert spec == Ledger.Step(begin, r);
        }
      } else {
        Rollback(begin);
        r := InsufficientFunds;
        assert spec == Ledger.Step(begin, r);
      }
    }
  }
}
