/**
 * Properties of the ledger engine that relate several operations or whole
 * stores: conservation of the sum of all balances, non-negative balances,
 * agreement of the audit record with later reads, freedom from deadlock of
 * the lock order, and the order independence of a run of opposite transfers.
 */
module LedgerProperties {
  import Entity
  import opened Callbacks
  import opened Ledger

  /**
   * The sum of the balances of the accounts whose ids are below `n`; with
   * `n` the next account id it is the sum over every account.
   */
  function SumBelow(accounts: map<int, AccountRow>, n: int): Decimal
    decreases n
  {
    if n <= 0 then 0.0
    else SumBelow(accounts, n - 1) + (if n - 1 in accounts then accounts[n - 1].balance else 0.0)
  }

  /** The sum of the balances of all accounts of a store. */
  function Total(s: Store): Decimal
  {
    SumBelow(s.accounts, s.nextAccountId)
  }

  /** Replacing one account's row changes the sum by the change of its balance, if the id is counted. */
  lemma {:induction false} SumBelowUpdate(accounts: map<int, AccountRow>, k: int, row: AccountRow, n: int)
    requires k in accounts
    ensures SumBelow(accounts[k := row], n)
         == SumBelow(accounts, n) + (if 0 <= k < n then row.balance - accounts[k].balance else 0.0)
    decreases n
  {
    if n > 0 {
      SumBelowUpdate(accounts, k, row, n - 1);
    }
  }

  /**
   * A transfer between two different accounts conserves the sum of all
   * balances, whatever its outcome.
   */
  lemma TransferConservesTotal(s: Store, call: TransferCall, timestamp: int, storage: Storage)
    requires s.Valid() && call.Admissible() && timestamp > 0
    requires call.srcAccountId != call.dstAccountId
    ensures Total(Transfer(s, call, timestamp, storage).after) == Total(s)
  {
    var r := Transfer(s, call, timestamp, storage);
    if r.outcome.TransferCompleted? {
      var src, dst := call.srcAccountId, call.dstAccountId;
      var a := r.after.accounts;
      var m := s.accounts[src := a[src]];
      assert a == m[dst := a[dst]];
      SumBelowUpdate(s.accounts, src, a[src], s.nextAccountId);
      SumBelowUpdate(m, dst, a[dst], s.nextAccountId);
    }
  }

  /**
   * The storage layer does not reject a transfer from an account to itself:
   * when it completes, the second balance write overwrites the first, and
   * the sum of all balances grows by `amount`.
   */
  lemma SelfTransferGrowsTotal(s: Store, call: TransferCall, timestamp: int, storage: Storage)
    requires s.Valid() && call.Admissible() && timestamp > 0
    requires call.srcAccountId == call.dstAccountId
    requires Transfer(s, call, timestamp, storage).outcome.TransferCompleted?
    ensures Total(Transfer(s, call, timestamp, storage).after) == Total(s) + call.amount
  {
    var r := Transfer(s, call, timestamp, storage);
    var src := call.srcAccountId;
    assert r.after.accounts == s.accounts[src := r.after.accounts[src]];
    SumBelowUpdate(s.accounts, src, r.after.accounts[src], s.nextAccountId);
  }

  /**
   * The audit record of a completed self-transfer disagrees with the account:
   * it records the balance after as the balance before minus `amount`, while
   * the account ends at the balance before plus `amount`.
   */
  lemma SelfTransferRecordDisagrees(s: Store, call: TransferCall, timestamp: int, storage: Storage)
    requires s.Valid() && call.Admissible() && timestamp > 0
    requires call.srcAccountId == call.dstAccountId
    requires Transfer(s, call, timestamp, storage).outcome.TransferCompleted?
    ensures var r := Transfer(s, call, timestamp, storage);
      var t := r.after.transfers[|r.after.transfers| - 1];
      && t.srcAccountId == call.srcAccountId
      && t.srcBalanceAfter == s.accounts[call.srcAccountId].balance - call.amount
      && r.after.accounts[call.srcAccountId].balance == s.accounts[call.srcAccountId].balance + call.amount
      && r.after.accounts[call.srcAccountId].balance != t.srcBalanceAfter
  {
  }

  /** Every balance is non-negative. */
  ghost predicate NonNegative(s: Store)
  {
    forall k :: k in s.accounts ==> s.accounts[k].balance >= 0.0
  }

  /**
   * A transfer keeps every balance that was non-negative non-negative; the
   * source keeps at least zero because a completed transfer needed a balance
   * of at least `amount`.
   */
  lemma TransferPreservesNonNegative(s: Store, call: TransferCall, timestamp: int, storage: Storage)
    requires s.Valid() && call.Admissible() && timestamp > 0
    requires NonNegative(s)
    ensures NonNegative(Transfer(s, call, timestamp, storage).after)
  {
  }

  /**
   * The audit record of a completed transfer between two accounts agrees with
   * later reads: `getTransfer` by its user returns it, its after-balances are
   * what `getAccount` by the accounts' owners returns, and it conserves the sum
   * of the two balances.
   */
  lemma AuditRecordMatchesReads(s: Store, call: TransferCall, timestamp: int, dstOwner: int)
    requires s.Valid() && call.Admissible() && timestamp > 0
    requires call.srcAccountId != call.dstAccountId
    requires Transfer(s, call, timestamp, Healthy).outcome.TransferCompleted?
    requires call.dstAccountId in s.accounts && s.accounts[call.dstAccountId].ownerId == dstOwner
    ensures var r := Transfer(s, call, timestamp, Healthy);
      var t := r.after.transfers[|r.after.transfers| - 1];
      && GetTransfer(r.after, call.userId, r.outcome.transferId, Healthy) == TransferFound(t)
      && t.srcBalanceBefore + t.dstBalanceBefore == t.srcBalanceAfter + t.dstBalanceAfter
      && t.srcBalanceAfter == t.srcBalanceBefore - call.amount
      && t.dstBalanceAfter == t.dstBalanceBefore + call.amount
      && GetAccount(r.after, call.userId, call.srcAccountId, Healthy)
         == AccountFound(Entity.Account(call.srcAccountId, call.userId, t.srcBalanceAfter))
      && GetAccount(r.after, dstOwner, call.dstAccountId, Healthy)
         == AccountFound(Entity.Account(call.dstAccountId, dstOwner, t.dstBalanceAfter))
  {
    var r := Transfer(s, call, timestamp, Healthy);
    var t := r.after.transfers[|r.after.transfers| - 1];
    assert r.after.transfers[r.outcome.transferId - 1] == t;
  }

  // ----- Deadlock freedom of the lock order -----

  /**
   * `ls` is a cycle of waiting transfers: transfer `k` holds the first lock of
   * its pair and waits for the second, a different row that transfer `k + 1`
   * (cyclically) holds as its first.
   */
  ghost predicate WaitCycle(ls: seq<seq<int>>)
  {
    && |ls| > 0
    && (forall k :: 0 <= k < |ls| ==> |ls[k]| == 2 && ls[k][0] != ls[k][1])
    && (forall k :: 0 <= k < |ls| - 1 ==> ls[k][1] == ls[k + 1][0])
    && ls[|ls| - 1][1] == ls[0][0]
  }

  /** Along a chain of waiters that all lock in ascending order, the rows held strictly increase. */
  lemma {:induction false} ChainIncreases(ls: seq<seq<int>>, n: nat)
    requires 0 < n <= |ls|
    requires forall k :: 0 <= k < |ls| ==> |ls[k]| == 2 && ls[k][0] < ls[k][1]
    requires forall k :: 0 <= k < |ls| - 1 ==> ls[k][1] == ls[k + 1][0]
    ensures ls[0][0] < ls[n - 1][1]
  {
    if n > 1 {
      ChainIncreases(ls, n - 1);
      assert ls[n - 2][1] == ls[n - 1][0];
    }
  }

  /**
   * Transfers that take their locks in `LockOrder` can never wait for each
   * other in a cycle, whichever accounts they are between and whichever
   * direction they go.
   */
  lemma NoWaitCycle(pairs: seq<(int, int)>)
    ensures !WaitCycle(seq(|pairs|, k requires 0 <= k < |pairs| => LockOrder(pairs[k].0, pairs[k].1)))
  {
    var ls := seq(|pairs|, k requires 0 <= k < |pairs| => LockOrder(pairs[k].0, pairs[k].1));
    if WaitCycle(ls) {
      forall k | 0 <= k < |ls| ensures |ls[k]| == 2 && ls[k][0] < ls[k][1] {
        assert ls[k] == LockOrder(pairs[k].0, pairs[k].1);
      }
      ChainIncreases(ls, |ls|);
      assert false;
    }
  }

  /** Two transfers over the same pair of accounts, in either direction, lock in the same order. */
  lemma OppositeTransfersLockAlike(a: int, b: int)
    ensures LockOrder(a, b) == LockOrder(b, a)
  {
  }

  // ----- Sequential runs and order independence -----

  /** Apply `calls` one after another to a healthy store, the i-th at `timestamps[i]`. */
  function Run(s: Store, calls: seq<TransferCall>, timestamps: seq<int>): (r: (Store, seq<TransferOutcome>))
    requires s.Valid()
    requires |timestamps| == |calls|
    requires forall i :: 0 <= i < |calls| ==> calls[i].Admissible() && timestamps[i] > 0
    ensures r.0.Valid()
    ensures |r.1| == |calls|
    decreases |calls|
  {
    if calls == [] then (s, [])
    else
      var n := |calls| - 1;
      var (before, outcomes) := Run(s, calls[..n], timestamps[..n]);
      var step := Transfer(before, calls[n], timestamps[n], Healthy);
      (step.after, outcomes + [step.outcome])
  }

  /** A transfer of 0.35 from account `b` to account `a` by its owner `ub`. */
  predicate IsBToA(c: TransferCall, a: int, b: int, ub: int)
  {
    c.userId == ub && c.srcAccountId == b && c.dstAccountId == a && c.amount == 0.35
  }

  /** A transfer of 0.17 from account `a` to account `b` by its owner `ua`. */
  predicate IsAToB(c: TransferCall, a: int, b: int, ua: int)
  {
    c.userId == ua && c.srcAccountId == a && c.dstAccountId == b && c.amount == 0.17
  }

  /** How many calls of `calls` go from `b` to `a`. */
  function CountBToA(calls: seq<TransferCall>, a: int, b: int, ub: int): nat
  {
    if calls == [] then 0
    else CountBToA(calls[..|calls| - 1], a, b, ub) + (if IsBToA(calls[|calls| - 1], a, b, ub) then 1 else 0)
  }

  /** How many calls of `calls` go from `a` to `b`. */
  function CountAToB(calls: seq<TransferCall>, a: int, b: int, ua: int): nat
  {
    if calls == [] then 0
    else CountAToB(calls[..|calls| - 1], a, b, ua) + (if IsAToB(calls[|calls| - 1], a, b, ua) then 1 else 0)
  }

  /** The two accounts of the scenario, starting at 100 each, owned by `ua` and `ub`. */
  ghost predicate ScenarioStart(s: Store, a: int, b: int, ua: int, ub: int)
  {
    && s.Valid()
    && a != b
    && a in s.accounts && s.accounts[a] == AccountRow(ua, 100.0)
    && b in s.accounts && s.accounts[b] == AccountRow(ub, 100.0)
  }

  /**
   * Every call of the scenario is one of its two kinds, with a positive
   * timestamp and a request id that fits its column (the scenario's requests
   * carry no request id header, so each gets a generated 36-character UUID).
   */
  predicate ScenarioCalls(calls: seq<TransferCall>, timestamps: seq<int>, a: int, b: int, ua: int, ub: int)
  {
    && |timestamps| == |calls|
    && forall i :: 0 <= i < |calls| ==>
         && (IsBToA(calls[i], a, b, ub) || IsAToB(calls[i], a, b, ua))
         && calls[i].Admissible() && FitsVarchar(calls[i].requestId) && timestamps[i] > 0
  }

  /**
   * Any prefix of a run with at most 201 calls of each kind completes every
   * call, and leaves the two balances at 100 plus or minus 0.35 per B-to-A
   * call and 0.17 per A-to-B call, in whatever order they came.
   */
  lemma {:induction false} ScenarioPrefix(s: Store, a: int, b: int, ua: int, ub: int,
                                          calls: seq<TransferCall>, timestamps: seq<int>)
    requires ScenarioStart(s, a, b, ua, ub)
    requires ScenarioCalls(calls, timestamps, a, b, ua, ub)
    requires CountBToA(calls, a, b, ub) <= 201 && CountAToB(calls, a, b, ua) <= 201
    ensures var (s', outcomes) := Run(s, calls, timestamps);
      var p, q := CountBToA(calls, a, b, ub) as real, CountAToB(calls, a, b, ua) as real;
      && (forall i :: 0 <= i < |outcomes| ==> outcomes[i].TransferCompleted?)
      && a in s'.accounts && s'.accounts[a] == AccountRow(ua, 100.0 + 0.35 * p - 0.17 * q)
      && b in s'.accounts && s'.accounts[b] == AccountRow(ub, 100.0 - 0.35 * p + 0.17 * q)
      && |s'.transfers| == |s.transfers| + |calls|
    decreases |calls|
  {
    if calls != [] {
      var n := |calls| - 1;
      var init, last := calls[..n], calls[n];
      assert ScenarioCalls(init, timestamps[..n], a, b, ua, ub) by {
        forall i | 0 <= i < n ensures IsBToA(init[i], a, b, ub) || IsAToB(init[i], a, b, ua) {
          assert init[i] == calls[i];
        }
      }
      ScenarioPrefix(s, a, b, ua, ub, init, timestamps[..n]);
      var (before, outcomes) := Run(s, init, timestamps[..n]);
      var step := Transfer(before, last, timestamps[n], Healthy);
      assert IsBToA(last, a, b, ub) || IsAToB(last, a, b, ua);
      assert step.outcome.TransferCompleted?;
    }
  }

  /**
   * The load scenario: from 100 and 100, 201 transfers of 0.35 from B to A and
   * 201 of 0.17 from A to B all complete, in any order, leaving A at 136.18, B
   * at 63.82 and 402 new audit records.
   */
  lemma AlternatingTransfersOrderIndependent(s: Store, a: int, b: int, ua: int, ub: int,
                                             calls: seq<TransferCall>, timestamps: seq<int>)
    requires ScenarioStart(s, a, b, ua, ub)
    requires ScenarioCalls(calls, timestamps, a, b, ua, ub)
    requires CountBToA(calls, a, b, ub) == 201 && CountAToB(calls, a, b, ua) == 201
    ensures var (s', outcomes) := Run(s, calls, timestamps);
      && (forall i :: 0 <= i < |outcomes| ==> outcomes[i].TransferCompleted?)
      && a in s'.accounts && s'.accounts[a].balance == 136.18
      && b in s'.accounts && s'.accounts[b].balance == 63.82
      && |s'.transfers| == |s.transfers| + 402
  {
    ScenarioPrefix(s, a, b, ua, ub, calls, timestamps);
    CountsBound(calls, a, b, ua, ub);
  }

  /** Each call of the scenario is counted once, under its own kind. */
  lemma {:induction false} CountsBound(calls: seq<TransferCall>, a: int, b: int, ua: int, ub: int)
    requires a != b
    requires forall i :: 0 <= i < |calls| ==> IsBToA(calls[i], a, b, ub) || IsAToB(calls[i], a, b, ua)
    ensures CountBToA(calls, a, b, ub) + CountAToB(calls, a, b, ua) == |calls|
    decreases |calls|
  {
    if calls != [] {
      var n := |calls| - 1;
      assert forall i :: 0 <= i < n ==> calls[..n][i] == calls[i];
      CountsBound(calls[..n], a, b, ua, ub);
    }
  }
}
