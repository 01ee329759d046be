/**
 * The ledger engine over an abstract store: users, accounts, the append-only
 * log of transfer records and the identity counters that give each new row
 * its id. Each operation is a function from the store before to the store
 * after and the outcome it reports; an operation either commits all its
 * writes or leaves the store as it was.
 */
module Ledger {
  import Entity
  import opened Wrappers
  import opened Callbacks

  type Decimal = Entity.Decimal

  /** One row of the accounts table, keyed by its id. */
  datatype AccountRow = AccountRow(ownerId: int, balance: Decimal)

  /**
   * What the storage layer does during one operation, which the engine cannot
   * see in advance.
   */
  datatype Storage =
    | Healthy
    | Throws(sqlState: SqlState)  // the operation's statement fails with this SQLState
    | NoGeneratedId               // after the insert, no generated id can be read back

  /** The SQLState of an insert whose foreign key names a missing parent row. */
  const PARENT_MISSING: SqlState := "23506"

  /** The SQLState of an insert whose string value is longer than its column allows. */
  const VALUE_TOO_LONG: SqlState := "22001"

  /** The width of the `VARCHAR(255)` columns `users.name` and `transfers.request_id`. */
  const VARCHAR_WIDTH := 255

  /**
   * The length of a string as Java's `String.length()` counts it: one UTF-16
   * code unit per character, two for a character above U+FFFF.
   */
  function Utf16Length(value: string): (n: nat)
    ensures |value| <= n <= 2 * |value|
    ensures n == |value| <==> forall i :: 0 <= i < |value| ==> value[i] as int <= 0xFFFF
  {
    if value == [] then 0
    else Utf16Length(value[..|value| - 1]) + (if value[|value| - 1] as int > 0xFFFF then 2 else 1)
  }

  /** A string fits a `VARCHAR(255)` column, whose width H2 counts in UTF-16 code units. */
  predicate FitsVarchar(value: string)
  {
    Utf16Length(value) <= VARCHAR_WIDTH
  }

  /**
   * `ErrorCode.PARENT_MISSING.is`: the exception is classified by its
   * SQLState alone, so no other failure (a value too long, say) counts as a
   * missing parent.
   */
  predicate IsParentMissing(sqlState: SqlState): (b: bool)
    ensures b <==> sqlState == PARENT_MISSING
    ensures b ==> sqlState != VALUE_TOO_LONG
  {
    sqlState == PARENT_MISSING
  }

  /** The three tables and the next value of each IDENTITY column. */
  datatype Store = Store(
    users: map<int, string>,
    accounts: map<int, AccountRow>,
    transfers: seq<Entity.Transfer>,
    nextUserId: int,
    nextAccountId: int,
    nextTransferId: int)
  {
    /**
     * Ids are positive and below their counter, every foreign key names an
     * existing row, and transfer records are numbered 1, 2, ... in the order
     * they were appended.
     */
    ghost predicate Valid()
    {
      && nextUserId > 0
      && nextAccountId > 0
      && (forall u :: u in users ==> 0 < u < nextUserId)
      && (forall a :: a in accounts ==> 0 < a < nextAccountId && accounts[a].ownerId in users)
      && nextTransferId == |transfers| + 1
      && (forall i :: 0 <= i < |transfers| ==> TransferRowValid(transfers[i], i + 1))
    }

    /** The record stored at position `id - 1` of the log. */
    ghost predicate TransferRowValid(t: Entity.Transfer, id: int)
    {
      && t.id == id
      && t.Valid()
      && t.srcAccountId in accounts
      && t.dstAccountId in accounts
      && t.userId in users
    }
  }

  /** The result of one operation: the store it leaves and the outcome it reports. */
  datatype Step<O> = Step(after: Store, outcome: O)

  /** The store right after the tables are created: empty, every identity starting at 1. */
  function Empty(): (s: Store)
    ensures s.Valid()
    ensures s.users == map[] && s.accounts == map[] && s.transfers == []
  {
    Store(map[], map[], [], 1, 1, 1)
  }

  /**
   * The order in which `transfer` locks its two accounts: the smaller id
   * first, whichever of the two is the source.
   */
  function LockOrder(srcAccountId: int, dstAccountId: int): (order: seq<int>)
    ensures |order| == 2 && order[0] <= order[1]
    ensures multiset(order) == multiset{srcAccountId, dstAccountId}
  {
    if srcAccountId > dstAccountId then [dstAccountId, srcAccountId] else [srcAccountId, dstAccountId]
  }

  /** `lockAccount`: the account row with this id, as an `Account`, or `None` when there is none. */
  function LockAccount(s: Store, accountId: int): (r: Option<Entity.Account>)
    requires s.Valid()
    ensures r.Some? <==> accountId in s.accounts
    ensures r.Some? ==> r.value.Valid() && r.value.id == accountId
    ensures r.Some? ==> r.value.ownerId == s.accounts[accountId].ownerId
    ensures r.Some? ==> r.value.balance == s.accounts[accountId].balance
  {
    if accountId in s.accounts then
      var row := s.accounts[accountId];
      Some(Entity.NewAccount(accountId, row.ownerId, row.balance))
    else
      None
  }

  /** `setBalance`: update the balance of the row with this id; no row, no change. */
  function SetBalance(accounts: map<int, AccountRow>, accountId: int, balance: Decimal): (r: map<int, AccountRow>)
    ensures r.Keys == accounts.Keys
    ensures accountId in accounts ==> r[accountId] == AccountRow(accounts[accountId].ownerId, balance)
    ensures forall k :: k in accounts && k != accountId ==> r[k] == accounts[k]
  {
    if accountId in accounts then accounts[accountId := accounts[accountId].(balance := balance)] else accounts
  }

  /**
   * `createUser`: insert a user row and report its generated id. A name
   * longer than the column fails the insert.
   */
  function CreateUser(s: Store, name: string, storage: Storage): (r: Step<CreateUserOutcome>)
    requires s.Valid()
    ensures r.after.Valid()
    ensures r.outcome.UserCreated? <==> storage.Healthy? && FitsVarchar(name)
    ensures storage.Throws? ==> r.outcome == CreateUserError(StorageError(storage.sqlState))
    ensures !storage.Throws? && !FitsVarchar(name) ==> r.outcome == CreateUserError(StorageError(VALUE_TOO_LONG))
    ensures storage.NoGeneratedId? && FitsVarchar(name) ==> r.outcome == CreateUserError(IdUnavailable)
    ensures !r.outcome.UserCreated? ==> r.after == s
    ensures r.outcome.UserCreated? ==>
      var id := r.outcome.userId;
      && id > 0 && id !in s.users
      && r.after.users == s.users[id := name]
      && r.after.accounts == s.accounts && r.after.transfers == s.transfers
  {
    if storage.Throws? then
      Step(s, CreateUserError(StorageError(storage.sqlState)))
    else if !FitsVarchar(name) then
      Step(s, CreateUserError(StorageError(VALUE_TOO_LONG)))
    else
      var userId := s.nextUserId;
      if storage.NoGeneratedId? then
        Step(s, CreateUserError(IdUnavailable))
      else
        Step(s.(users := s.users[userId := name], nextUserId := userId + 1), UserCreated(userId))
  }

  /**
   * The SQLState with which inserting an account row for `ownerId` fails, if
   * it does: the storage's own failure, else the foreign-key violation of a
   * missing owner.
   */
  function InsertAccountFailure(s: Store, ownerId: int, storage: Storage): Option<SqlState>
  {
    if storage.Throws? then Some(storage.sqlState)
    else if ownerId !in s.users then Some(PARENT_MISSING)
    else None
  }

  /**
   * `ErrorCode.PARENT_MISSING.is` picks out exactly the unknown owner: when
   * the storage itself does not fail, the insert fails, and with the
   * parent-missing state, exactly when the owner is not a user; a failure of
   * the storage counts as a missing owner only when its state is 23506.
   */
  lemma ParentMissingMeansUnknownOwner(s: Store, ownerId: int, storage: Storage)
    ensures var failure := InsertAccountFailure(s, ownerId, storage);
      && (!storage.Throws? ==>
            && (failure.Some? <==> ownerId !in s.users)
            && (failure.Some? ==> IsParentMissing(failure.value)))
      && (storage.Throws? ==>
            failure.Some? && (IsParentMissing(failure.value) <==> storage.sqlState == "23506"))
  {
  }

  /**
   * `createAccount`: insert an account row for an existing user. A failed
   * insert whose SQLState is the parent-missing code is reported as
   * `UserNotFound`, any other failure as an unexpected error. The opening
   * balance is stored as given, whatever its sign.
   */
  function CreateAccount(s: Store, userId: int, balance: Decimal, storage: Storage): (r: Step<CreateAccountOutcome>)
    requires s.Valid()
    requires userId > 0
    ensures r.after.Valid()
    ensures r.outcome == UserNotFound <==>
      if storage.Throws? then IsParentMissing(storage.sqlState) else userId !in s.users
    ensures r.outcome.AccountCreated? <==> storage.Healthy? && userId in s.users
    ensures storage.Healthy? && userId !in s.users ==> r.outcome == UserNotFound
    ensures storage.NoGeneratedId? && userId in s.users ==> r.outcome == CreateAccountError(IdUnavailable)
    ensures storage.Throws? && !IsParentMissing(storage.sqlState) ==>
      r.outcome == CreateAccountError(StorageError(storage.sqlState))
    ensures !r.outcome.AccountCreated? ==> r.after == s
    ensures r.outcome.AccountCreated? ==>
      var id := r.outcome.accountId;
      && id > 0 && id !in s.accounts
      && r.after.accounts == s.accounts[id := AccountRow(userId, balance)]
      && r.after.users == s.users && r.after.transfers == s.transfers
  {
    var failure := InsertAccountFailure(s, userId, storage);
    if failure.Some? then
      if IsParentMissing(failure.value) then Step(s, UserNotFound)
      else Step(s, CreateAccountError(StorageError(failure.value)))
    else
      var accountId := s.nextAccountId;
      if storage.NoGeneratedId? then
        Step(s, CreateAccountError(IdUnavailable))
      else
        Step(s.(accounts := s.accounts[accountId := AccountRow(userId, balance)], nextAccountId := accountId + 1),
             AccountCreated(accountId))
  }

  /**
   * `getAccount`: the account only when both its id and its owner match the
   * request, so a requester cannot tell someone else's account from a
   * missing one.
   */
  function GetAccount(s: Store, userId: int, accountId: int, storage: Storage): (r: GetAccountOutcome)
    requires s.Valid()
    requires userId > 0
    requires accountId > 0
    ensures storage.Throws? ==> r == GetAccountError(StorageError(storage.sqlState))
    ensures !storage.Throws? ==>
      (r.AccountFound? <==> accountId in s.accounts && s.accounts[accountId].ownerId == userId)
    ensures !storage.Throws? && !r.AccountFound? ==> r == AccountAbsent
    ensures r.AccountFound? ==>
      && r.account.Valid()
      && r.account == Entity.Account(accountId, userId, s.accounts[accountId].balance)
  {
    if storage.Throws? then
      GetAccountError(StorageError(storage.sqlState))
    else if accountId in s.accounts && s.accounts[accountId].ownerId == userId then
      AccountFound(Entity.NewAccount(accountId, userId, s.accounts[accountId].balance))
    else
      AccountAbsent
  }

  /**
   * `getTransfer`: the record only when both its id and its `userId` match
   * the request.
   */
  function GetTransfer(s: Store, userId: int, transferId: int, storage: Storage): (r: GetTransferOutcome)
    requires s.Valid()
    requires transferId > 0
    ensures storage.Throws? ==> r == GetTransferError(StorageError(storage.sqlState))
    ensures !storage.Throws? ==>
      (r.TransferFound? <==>
        exists i :: 0 <= i < |s.transfers| && s.transfers[i].id == transferId && s.transfers[i].userId == userId)
    ensures !storage.Throws? && !r.TransferFound? ==> r == TransferNotFound
    ensures r.TransferFound? ==>
      && r.transfer in s.transfers
      && r.transfer.id == transferId && r.transfer.userId == userId
      && r.transfer.Valid()
  {
    if storage.Throws? then
      GetTransferError(StorageError(storage.sqlState))
    else if transferId < s.nextTransferId && s.transfers[transferId - 1].userId == userId then
      TransferFound(s.transfers[transferId - 1])
    else
      TransferNotFound
  }

  /** The arguments of one `transfer` call. */
  datatype TransferCall = TransferCall(
    requestId: string,
    userId: int,
    srcAccountId: int,
    dstAccountId: int,
    amount: Decimal)
  {
    /** The argument checks `transfer` makes before it submits any work. */
    predicate Admissible()
    {
      userId > 0 && srcAccountId > 0 && dstAccountId > 0 && amount > 0.0
    }
  }

  /**
   * The message of the `IllegalArgumentException` thrown by the first
   * argument check of `transfer` that fails, or `None` when all pass; the
   * checks run in the caller's thread, before any work is submitted.
   */
  function ArgumentFailure(call: TransferCall): (r: Option<string>)
    ensures r.None? <==> call.Admissible()
    ensures call.userId <= 0 ==> r == Some("userId must be greater zero")
    ensures call.userId > 0 && call.srcAccountId <= 0 ==> r == Some("accountSrc must be greater zero")
    ensures call.userId > 0 && call.srcAccountId > 0 && call.dstAccountId <= 0 ==>
      r == Some("accountDst must be greater zero")
    ensures call.userId > 0 && call.srcAccountId > 0 && call.dstAccountId > 0 && call.amount <= 0.0 ==>
      r == Some("amount must be positive")
  {
    if call.userId <= 0 then Some("userId must be greater zero")
    else if call.srcAccountId <= 0 then Some("accountSrc must be greater zero")
    else if call.dstAccountId <= 0 then Some("accountDst must be greater zero")
    else if call.amount <= 0.0 then Some("amount must be positive")
    else None
  }

  /** Both accounts exist and the requester owns the source: only the funds test is left. */
  ghost predicate Ready(s: Store, call: TransferCall)
  {
    && call.srcAccountId in s.accounts
    && s.accounts[call.srcAccountId].ownerId == call.userId
    && call.dstAccountId in s.accounts
  }

  /** The audit record a successful `call` appends under id `transferId`. */
  function AuditRecord(s: Store, call: TransferCall, timestamp: int, transferId: int): Entity.Transfer
    requires call.srcAccountId in s.accounts && call.dstAccountId in s.accounts
  {
    var srcBefore := s.accounts[call.srcAccountId].balance;
    var dstBefore := s.accounts[call.dstAccountId].balance;
    Entity.Transfer(transferId, call.requestId, timestamp, call.srcAccountId, call.dstAccountId,
                    call.userId, call.amount, srcBefore, srcBefore - call.amount, dstBefore, dstBefore + call.amount)
  }

  /**
   * What a successful transfer writes: the source loses `amount`, the
   * destination gains it (with equal ids the second write wins, so the one
   * account gains it), no other account or user changes, and exactly one
   * record is appended under the returned id.
   */
  ghost predicate Applied(s: Store, s': Store, call: TransferCall, timestamp: int, transferId: int)
    requires Ready(s, call)
  {
    var src, dst := call.srcAccountId, call.dstAccountId;
    && s'.users == s.users
    && s'.nextUserId == s.nextUserId
    && s'.nextAccountId == s.nextAccountId
    && s'.accounts.Keys == s.accounts.Keys
    && (forall k :: k in s.accounts ==> s'.accounts[k].ownerId == s.accounts[k].ownerId)
    && (forall k :: k in s.accounts && k != src && k != dst ==> s'.accounts[k] == s.accounts[k])
    && (src != dst ==>
          && s'.accounts[src].balance == s.accounts[src].balance - call.amount
          && s'.accounts[dst].balance == s.accounts[dst].balance + call.amount)
    && (src == dst ==> s'.accounts[src].balance == s.accounts[src].balance + call.amount)
    && transferId == s.nextTransferId
    && s'.transfers == s.transfers + [AuditRecord(s, call, timestamp, transferId)]
  }

  /**
   * The writes of a transfer that passed its checks, on the two accounts as
   * they were read under lock: the source's balance, then the destination's,
   * then the audit record under the next transfer id.
   */
  function Written(s: Store, call: TransferCall, srcAccount: Entity.Account, dstAccount: Entity.Account,
                   timestamp: int): Store
    requires srcAccount.Valid() && dstAccount.Valid()
    requires call.Admissible() && timestamp > 0 && s.nextTransferId > 0
  {
    var src, dst, amount := call.srcAccountId, call.dstAccountId, call.amount;
    var srcNewBalance := srcAccount.balance - amount;
    var accounts := SetBalance(s.accounts, src, srcNewBalance);
    var dstNewBalance := dstAccount.balance + amount;
    var accounts' := SetBalance(accounts, dst, dstNewBalance);
    var record := Entity.NewTransfer(
      s.nextTransferId, call.requestId, timestamp, src, dst, call.userId, amount,
      srcAccount.balance, srcNewBalance, dstAccount.balance, dstNewBalance);
    s.(accounts := accounts', transfers := s.transfers + [record], nextTransferId := s.nextTransferId + 1)
  }

  /**
   * `transfer`: move `amount` from the source to the destination account on
   * behalf of the source's owner. Failures are decided in a fixed order:
   * missing source, requester not the owner (before the destination is
   * looked at), missing destination, insufficient funds. After the two
   * balance writes, a request id longer than its column fails the insert of
   * the record, and the transaction is not committed.
   */
  function Transfer(s: Store, call: TransferCall, timestamp: int, storage: Storage): (r: Step<TransferOutcome>)
    requires s.Valid()
    requires call.Admissible()
    requires timestamp > 0
    ensures r.after.Valid()
    ensures !r.outcome.TransferCompleted? ==> r.after == s
    ensures storage.Throws? ==> r.outcome == TransferError(StorageError(storage.sqlState))
    ensures !storage.Throws? && call.srcAccountId !in s.accounts ==>
      r.outcome == AccountNotFound(call.srcAccountId)
    ensures !storage.Throws? && call.srcAccountId in s.accounts && s.accounts[call.srcAccountId].ownerId != call.userId ==>
      r.outcome == NotOwner
    ensures !storage.Throws? && call.srcAccountId in s.accounts && s.accounts[call.srcAccountId].ownerId == call.userId
            && call.dstAccountId !in s.accounts ==>
      r.outcome == AccountNotFound(call.dstAccountId)
    ensures !storage.Throws? && Ready(s, call) ==>
      (r.outcome == InsufficientFunds <==> s.accounts[call.srcAccountId].balance < call.amount)
    ensures !storage.Throws? && Ready(s, call) && s.accounts[call.srcAccountId].balance >= call.amount
            && !FitsVarchar(call.requestId) ==>
      r.outcome == TransferError(StorageError(VALUE_TOO_LONG))
    ensures storage.NoGeneratedId? && Ready(s, call) && s.accounts[call.srcAccountId].balance >= call.amount
            && FitsVarchar(call.requestId) ==>
      r.outcome == TransferError(IdUnavailable)
    ensures r.outcome.TransferCompleted? <==>
      && storage.Healthy? && Ready(s, call) && s.accounts[call.srcAccountId].balance >= call.amount
      && FitsVarchar(call.requestId)
    ensures r.outcome.TransferCompleted? ==> Applied(s, r.after, call, timestamp, r.outcome.transferId)
  {
    var src, dst, amount := call.srcAccountId, call.dstAccountId, call.amount;
    if storage.Throws? then
      Step(s, TransferError(StorageError(storage.sqlState)))
    else
      var srcAccount := LockAccount(s, src);
      var dstAccount := LockAccount(s, dst);
      if srcAccount.None? then
        Step(s, AccountNotFound(src))
      else if call.userId != srcAccount.value.ownerId then
        Step(s, NotOwner)
      else if dstAccount.None? then
        Step(s, AccountNotFound(dst))
      else if srcAccount.value.balance >= amount then
        if !FitsVarchar(call.requestId) then
          Step(s, TransferError(StorageError(VALUE_TOO_LONG)))
        else if storage.NoGeneratedId? then
          Step(s, TransferError(IdUnavailable))
        else
          Step(Written(s, call, srcAccount.value, dstAccount.value, timestamp), TransferCompleted(s.nextTransferId))
      else
        Step(s, InsufficientFunds)
  }
}
