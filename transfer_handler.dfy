/**
 * The HTTP handler of a transfer request: the request guards it applies
 * before calling the engine, and the reply it sends for each outcome the
 * engine reports.
 */
module TransferHandler {
  import opened Wrappers
  import opened Callbacks
  import Ledger
  import LedgerProperties

  type Decimal = Ledger.Decimal

  const OK := 200
  const BAD_REQUEST := 400
  const NOT_FOUND := 404
  const CONFLICT := 409
  const TOO_MANY_REQUESTS := 429
  const INTERNAL_SERVER_ERROR := 500

  /** The value of the `Retry-After` header of a request refused for lack of capacity. */
  const RETRY_AFTER_SECONDS := 30

  const SAME_ACCOUNTS_MESSAGE := "Source and destination accounts should be different"
  const AMOUNT_MESSAGE := "Amount should be greater zero"
  /** `Reply.resourceNotFound(ctx, "account")`: the message names no id. */
  const NOT_OWNER_MESSAGE := "account not found"
  const INSUFFICIENT_FUNDS_MESSAGE := "Insufficient funds"
  /** `String.valueOf` of an `IllegalArgumentException` starts with its class name. */
  const ILLEGAL_ARGUMENT_PREFIX := "java.lang.IllegalArgumentException: "
  const NOT_FOUND_PREFIX := "account with id '"
  const NOT_FOUND_SUFFIX := "' not found"

  /** What a reply carries besides its status. */
  datatype Body =
    | TransferIdJson(transferId: int)  // {"transferId": ...}
    | ErrorJson(error: string)         // {"error": ...}
    | UnexpectedErrorJson(cause: Cause) // {"error": ...} with the text of the engine's exception
    | RetryAfterHeader(seconds: int)   // no body, a Retry-After header

  datatype Reply = Reply(status: int, body: Body)

  /** The parameters of one request, as parsed by the request validator. */
  datatype Request = Request(
    userId: int,
    srcAccountId: int,
    dstAccountId: int,
    amount: Decimal,
    requestId: string)

  /** The character of a decimal digit. */
  function DigitChar(d: int): char
    requires 0 <= d < 10
  {
    "0123456789"[d]
  }

  predicate IsDigits(s: string)
  {
    forall i :: 0 <= i < |s| ==> '0' <= s[i] <= '9'
  }

  /** The number a string of decimal digits denotes. */
  function DigitsValue(s: string): (n: nat)
    requires IsDigits(s)
  {
    if |s| == 0 then 0
    else DigitsValue(s[..|s| - 1]) * 10 + (s[|s| - 1] as int - '0' as int)
  }

  /** `String.valueOf` of a non-negative `long`: its decimal digits, without leading zeros. */
  function NatToString(n: nat): (s: string)
    ensures |s| > 0 && IsDigits(s)
    ensures |s| > 1 ==> s[0] != '0'
    decreases n
  {
    if n < 10 then [DigitChar(n)] else NatToString(n / 10) + [DigitChar(n % 10)]
  }

  /** Reading the digits back gives the number. */
  lemma {:induction false} NatToStringRoundTrip(n: nat)
    ensures DigitsValue(NatToString(n)) == n
    decreases n
  {
    var s := NatToString(n);
    if n >= 10 {
      NatToStringRoundTrip(n / 10);
      assert s[..|s| - 1] == NatToString(n / 10);
    }
  }

  /** `String.valueOf` of a `long`. */
  function IntToString(n: int): (s: string)
    ensures n >= 0 ==> IsDigits(s) && DigitsValue(s) == n
    ensures n < 0 ==> |s| > 1 && s[0] == '-' && IsDigits(s[1..]) && DigitsValue(s[1..]) == -n
  {
    if n >= 0 then
      NatToStringRoundTrip(n);
      NatToString(n)
    else
      NatToStringRoundTrip(-n);
      assert ("-" + NatToString(-n))[1..] == NatToString(-n);
      "-" + NatToString(-n)
  }

  /** `Reply.resourceNotFound(ctx, "account", id)`: the message names the account's id. */
  function AccountNotFoundMessage(accountId: int): (m: string)
    ensures |m| > |NOT_FOUND_PREFIX| + |NOT_FOUND_SUFFIX|
    ensures m[..|NOT_FOUND_PREFIX|] == NOT_FOUND_PREFIX
    ensures m[|m| - |NOT_FOUND_SUFFIX|..] == NOT_FOUND_SUFFIX
    ensures accountId >= 0 ==>
      var digits := m[|NOT_FOUND_PREFIX|..|m| - |NOT_FOUND_SUFFIX|];
      IsDigits(digits) && DigitsValue(digits) == accountId
  {
    var id := IntToString(accountId);
    var m := NOT_FOUND_PREFIX + id + NOT_FOUND_SUFFIX;
    assert m[|NOT_FOUND_PREFIX|..|m| - |NOT_FOUND_SUFFIX|] == id;
    m
  }

  /**
   * The checks the handler makes before it calls the engine: distinct
   * accounts first, then a positive amount; the reply to send when one fails.
   */
  function Guard(req: Request): (r: Option<Reply>)
    ensures r.None? <==> req.srcAccountId != req.dstAccountId && req.amount > 0.0
    ensures r.Some? ==> r.value.status == BAD_REQUEST && r.value.body.ErrorJson?
    ensures req.srcAccountId == req.dstAccountId ==> r == Some(Reply(BAD_REQUEST, ErrorJson(SAME_ACCOUNTS_MESSAGE)))
    ensures req.srcAccountId != req.dstAccountId && req.amount <= 0.0 ==>
      r == Some(Reply(BAD_REQUEST, ErrorJson(AMOUNT_MESSAGE)))
  {
    if req.srcAccountId == req.dstAccountId then
      Some(Reply(BAD_REQUEST, ErrorJson(SAME_ACCOUNTS_MESSAGE)))
    else if !(req.amount > 0.0) then
      Some(Reply(BAD_REQUEST, ErrorJson(AMOUNT_MESSAGE)))
    else
      None
  }

  /**
   * The reply to each outcome of the engine: the new transfer's id, 404 for
   * a missing account and for an account of someone else, 409 for
   * insufficient funds, 500 for anything unexpected.
   */
  function ReplyTo(o: TransferOutcome): (r: Reply)
    ensures r.status == OK <==> o.TransferCompleted?
    ensures r.status == NOT_FOUND <==> o.AccountNotFound? || o.NotOwner?
    ensures r.status == CONFLICT <==> o.InsufficientFunds?
    ensures r.status == INTERNAL_SERVER_ERROR <==> o.TransferError?
    ensures o.TransferCompleted? ==> r.body == TransferIdJson(o.transferId)
    ensures o.TransferError? ==> r.body == UnexpectedErrorJson(o.cause)
    ensures !o.TransferCompleted? && !o.TransferError? ==> r.body.ErrorJson?
    ensures o.NotOwner? ==> r.body == ErrorJson(NOT_OWNER_MESSAGE)
    ensures o.InsufficientFunds? ==> r.body == ErrorJson(INSUFFICIENT_FUNDS_MESSAGE)
    ensures o.AccountNotFound? ==> r.body == ErrorJson(AccountNotFoundMessage(o.accountId))
    ensures o.AccountNotFound? && o.accountId >= 0 ==>
      var m := r.body.error;
      && |m| > |NOT_FOUND_PREFIX| + |NOT_FOUND_SUFFIX|
      && IsDigits(m[|NOT_FOUND_PREFIX|..|m| - |NOT_FOUND_SUFFIX|])
      && DigitsValue(m[|NOT_FOUND_PREFIX|..|m| - |NOT_FOUND_SUFFIX|]) == o.accountId
  {
    match o
    case TransferCompleted(transferId) => Reply(OK, TransferIdJson(transferId))
    case AccountNotFound(accountId) => Reply(NOT_FOUND, ErrorJson(AccountNotFoundMessage(accountId)))
    case NotOwner => Reply(NOT_FOUND, ErrorJson(NOT_OWNER_MESSAGE))
    case InsufficientFunds => Reply(CONFLICT, ErrorJson(INSUFFICIENT_FUNDS_MESSAGE))
    case TransferError(cause) => Reply(INTERNAL_SERVER_ERROR, UnexpectedErrorJson(cause))
  }

  /**
   * What handling one request did: the reply sent, the engine call made (if
   * any) and the store it left.
   */
  datatype Handled = Handled(reply: Reply, call: Option<Ledger.TransferCall>, after: Ledger.Store)

  /**
   * `handle`: the guards, then the engine call with the request's parameters.
   * An argument the engine rejects throws out of the handler and is answered
   * 500 by the router's failure handler; when the work queue is full the
   * handler sets status 429 and a Retry-After header (`Reply.tryLater`, which
   * never ends the response); otherwise the engine's outcome is replied.
   * `queueFull` stands for the executor refusing the submitted work.
   */
  function Handle(s: Ledger.Store, req: Request, queueFull: bool, storage: Ledger.Storage, timestamp: int)
    : (r: Handled)
    requires s.Valid() && timestamp > 0
    ensures r.after.Valid()
    ensures r.call.Some? <==> req.srcAccountId != req.dstAccountId && req.amount > 0.0
    ensures r.call.Some? ==>
      r.call.value == Ledger.TransferCall(req.requestId, req.userId, req.srcAccountId, req.dstAccountId, req.amount)
    ensures r.call.None? ==> r.reply.status == BAD_REQUEST && Some(r.reply) == Guard(req)
    ensures r.call.Some? && !r.call.value.Admissible() ==>
      r.reply == Reply(INTERNAL_SERVER_ERROR, ErrorJson(ILLEGAL_ARGUMENT_PREFIX + Ledger.ArgumentFailure(r.call.value).value))
    ensures r.reply.status == TOO_MANY_REQUESTS <==> r.call.Some? && r.call.value.Admissible() && queueFull
    ensures r.reply.status == TOO_MANY_REQUESTS ==> r.reply.body == RetryAfterHeader(RETRY_AFTER_SECONDS)
    ensures r.call.Some? && r.call.value.Admissible() && !queueFull ==>
      r.reply == ReplyTo(Ledger.Transfer(s, r.call.value, timestamp, storage).outcome)
    ensures r.reply.status != OK ==> r.after == s
    ensures r.reply.status == OK <==>
      && r.call.Some? && r.call.value.Admissible() && !queueFull
      && Ledger.Transfer(s, r.call.value, timestamp, storage).outcome.TransferCompleted?
    ensures r.reply.status == OK ==>
      && r.reply.body == TransferIdJson(s.nextTransferId)
      && r.after == Ledger.Transfer(s, r.call.value, timestamp, storage).after
  {
    var guard := Guard(req);
    if guard.Some? then
      Handled(guard.value, None, s)
    else
      var call := Ledger.TransferCall(req.requestId, req.userId, req.srcAccountId, req.dstAccountId, req.amount);
      var failure := Ledger.ArgumentFailure(call);
      if failure.Some? then
        Handled(Reply(INTERNAL_SERVER_ERROR, ErrorJson(ILLEGAL_ARGUMENT_PREFIX + failure.value)), Some(call), s)
      else if queueFull then
        Handled(Reply(TOO_MANY_REQUESTS, RetryAfterHeader(RETRY_AFTER_SECONDS)), Some(call), s)
      else
        var step := Ledger.Transfer(s, call, timestamp, storage);
        Handled(ReplyTo(step.outcome), Some(call), step.after)
  }

  /**
   * Whatever the request, handling it conserves the sum of all balances:
   * the guard turns away the transfer from an account to itself, the one
   * case in which the engine does not conserve it.
   */
  lemma HandleConservesTotal(s: Ledger.Store, req: Request, queueFull: bool, storage: Ledger.Storage, timestamp: int)
    requires s.Valid() && timestamp > 0
    ensures LedgerProperties.Total(Handle(s, req, queueFull, storage, timestamp).after) == LedgerProperties.Total(s)
  {
    var r := Handle(s, req, queueFull, storage, timestamp);
    if r.reply.status == OK {
      LedgerProperties.TransferConservesTotal(s, r.call.value, timestamp, storage);
    }
  }

  /** Handling a request keeps every balance that was non-negative non-negative. */
  lemma HandlePreservesNonNegative(s: Ledger.Store, req: Request, queueFull: bool, storage: Ledger.Storage,
                                   timestamp: int)
    requires s.Valid() && timestamp > 0
    requires LedgerProperties.NonNegative(s)
    ensures LedgerProperties.NonNegative(Handle(s, req, queueFull, storage, timestamp).after)
  {
    var r := Handle(s, req, queueFull, storage, timestamp);
    if r.reply.status == OK {
      LedgerProperties.TransferPreservesNonNegative(s, r.call.value, timestamp, storage);
    }
  }

  /**
   * A requester who does not own the source account gets the same status as
   * one whose source account does not exist; only the message differs, the
   * missing account's naming its id and the other's not.
   */
  lemma NotOwnerRepliedAsMissing(s: Ledger.Store, req: Request, storage: Ledger.Storage, timestamp: int)
    requires s.Valid() && timestamp > 0
    requires req.srcAccountId != req.dstAccountId && req.amount > 0.0
    requires req.userId > 0 && req.srcAccountId > 0 && req.dstAccountId > 0
    requires !storage.Throws?
    requires req.srcAccountId !in s.accounts || s.accounts[req.srcAccountId].ownerId != req.userId
    ensures Handle(s, req, false, storage, timestamp).reply.status == NOT_FOUND
    ensures req.srcAccountId in s.accounts ==>
      Handle(s, req, false, storage, timestamp).reply.body == ErrorJson(NOT_OWNER_MESSAGE)
    ensures req.srcAccountId !in s.accounts ==>
      Handle(s, req, false, storage, timestamp).reply.body == ErrorJson(AccountNotFoundMessage(req.srcAccountId))
    ensures AccountNotFoundMessage(req.srcAccountId) != NOT_OWNER_MESSAGE
  {
    var m := AccountNotFoundMessage(req.srcAccountId);
    assert m[..|NOT_FOUND_PREFIX|] == NOT_FOUND_PREFIX;
  }
}
