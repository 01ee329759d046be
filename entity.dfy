/**
 * The two immutable entities of the backend: an account snapshot and a
 * transfer audit record. Every field is final and every getter returns its
 * constructor argument, which is what a datatype's destructors are; the
 * constructors' argument checks become the `Valid` predicates and the
 * preconditions of `NewAccount` and `NewTransfer`.
 */
module Entity {

  /**
   * An exact decimal amount. `BigDecimal` addition, subtraction and
   * comparison are exact, and so are they on `real`.
   */
  type Decimal = real

  /** A snapshot of one account row. */
  datatype Account = Account(id: int, ownerId: int, balance: Decimal)
  {
    /** The constructor's checks: positive id and owner; the balance has no sign constraint. */
    predicate Valid()
    {
      id > 0 && ownerId > 0
    }
  }

  /** The `Account` constructor: it checks its ids and keeps its arguments unchanged. */
  function NewAccount(id: int, ownerId: int, balance: Decimal): (a: Account)
    requires id > 0
    requires ownerId > 0
    ensures a.Valid()
    ensures a.id == id && a.ownerId == ownerId && a.balance == balance
  {
    Account(id, ownerId, balance)
  }

  /** One transfer, with the balances of both accounts before and after it. */
  datatype Transfer = Transfer(
    id: int,
    requestId: string,
    timestamp: int,
    srcAccountId: int,
    dstAccountId: int,
    userId: int,
    amount: Decimal,
    srcBalanceBefore: Decimal,
    srcBalanceAfter: Decimal,
    dstBalanceBefore: Decimal,
    dstBalanceAfter: Decimal)
  {
    /**
     * The constructor's checks. The request id, the amount and the four
     * balances only have to be non-null, which every Dafny value is.
     */
    predicate Valid()
    {
      id > 0 && timestamp > 0 && srcAccountId > 0 && dstAccountId > 0 && userId > 0
    }
  }

  /** The `Transfer` constructor: it checks its ids and timestamp and keeps its arguments unchanged. */
  function NewTransfer(
    id: int, requestId: string, timestamp: int,
    srcAccountId: int, dstAccountId: int, userId: int, amount: Decimal,
    srcBalanceBefore: Decimal, srcBalanceAfter: Decimal,
    dstBalanceBefore: Decimal, dstBalanceAfter: Decimal): (t: Transfer)
    requires id > 0
    requires timestamp > 0
    requires srcAccountId > 0 && dstAccountId > 0 && userId > 0
    ensures t.Valid()
    ensures t.id == id && t.requestId == requestId && t.timestamp == timestamp
    ensures t.srcAccountId == srcAccountId && t.dstAccountId == dstAccountId && t.userId == userId
    ensures t.amount == amount
    ensures t.srcBalanceBefore == srcBalanceBefore && t.srcBalanceAfter == srcBalanceAfter
    ensures t.dstBalanceBefore == dstBalanceBefore && t.dstBalanceAfter == dstBalanceAfter
  {
    Transfer(id, requestId, timestamp, srcAccountId, dstAccountId, userId, amount,
             srcBalanceBefore, srcBalanceAfter, dstBalanceBefore, dstBalanceAfter)
  }
}
