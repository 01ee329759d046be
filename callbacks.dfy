/**
 * The outcome of each engine operation. Each Java operation reports through a
 * callback interface and calls exactly one of its methods; here each operation
 * returns one value of a tagged union with one constructor per callback method.
 */
module Callbacks {
  import Entity

  /** The SQLState string an `SQLException` carries. */
  type SqlState = string

  /** The exception handed to `onUnexpectedError`. */
  datatype Cause =
    | StorageError(sqlState: SqlState)  // a statement failed with this SQLState
    | IdUnavailable                     // no generated id could be read after an insert

  /** `CreateUserCallback`. */
  datatype CreateUserOutcome =
    | UserCreated(userId: int)
    | CreateUserError(cause: Cause)

  /** `CreateAccountCallback`. */
  datatype CreateAccountOutcome =
    | AccountCreated(accountId: int)
    | UserNotFound
    | CreateAccountError(cause: Cause)

  /** `GetAccountCallback`: `AccountAbsent` covers both a missing account and one the requester does not own. */
  datatype GetAccountOutcome =
    | AccountFound(account: Entity.Account)
    | AccountAbsent
    | GetAccountError(cause: Cause)

  /** `GetTransferCallback`: `TransferNotFound` covers both a missing record and one of another user. */
  datatype GetTransferOutcome =
    | TransferFound(transfer: Entity.Transfer)
    | TransferNotFound
    | GetTransferError(cause: Cause)

  /** `TransferCallback`. */
  datatype TransferOutcome =
    | TransferCompleted(transferId: int)
    | AccountNotFound(accountId: int)
    | NotOwner
    | InsufficientFunds
    | TransferError(cause: Cause)
}
