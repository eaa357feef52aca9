/**
 * The balance projection: `deposit` adds a delta, `withdraw` sets the contract's own
 * post-withdrawal balance. A projected log is a left fold over these two.
 */
module Balances {
  import opened Prelude

  type Repo = map<string, int>

  /** `balance?.amount ?? '0'` */
  function Stored(repo: Repo, account: string): int {
    if account in repo then repo[account] else 0
  }

  /** `withdrawn` is what left the account on chain; the projection uses only `newBalance`. */
  datatype Event =
    | Deposit(account: string, amount: int)
    | Withdraw(account: string, withdrawn: int, newBalance: int)
    | Unrelated

  function Apply(repo: Repo, e: Event): Repo {
    match e
    case Deposit(account, amount) => repo[account := Stored(repo, account) + amount]
    case Withdraw(account, _, newBalance) => repo[account := newBalance]
    case Unrelated => repo
  }

  function ApplyAll(repo: Repo, log: seq<Event>): Repo {
    if log == [] then repo else Apply(ApplyAll(repo, log[..|log| - 1]), log[|log| - 1])
  }

  lemma {:induction false} ApplyAllAppend(repo: Repo, a: seq<Event>, b: seq<Event>)
    ensures ApplyAll(repo, a + b) == ApplyAll(ApplyAll(repo, a), b)
  {
    if b == [] {
      assert a + b == a;
    } else {
      var init := b[..|b| - 1];
      ApplyAllAppend(repo, a, init);
      assert (a + b)[..|a + b| - 1] == a + init;
    }
  }

  // ---- closed forms --------------------------------------------------------

  predicate IsWithdraw(e: Event, account: string) {
    e.Withdraw? && e.account == account
  }

  function DepositOf(e: Event, account: string): int {
    if e.Deposit? && e.account == account then e.amount else 0
  }

  function DepositSum(log: seq<Event>, account: string): int {
    if log == [] then 0 else DepositSum(log[..|log| - 1], account) + DepositOf(log[|log| - 1], account)
  }

  predicate HasWithdraw(log: seq<Event>, account: string) {
    exists i :: 0 <= i < |log| && IsWithdraw(log[i], account)
  }

  predicate IsLastWithdraw(log: seq<Event>, account: string, k: nat) {
    k < |log| && IsWithdraw(log[k], account) && !HasWithdraw(log[k + 1..], account)
  }

  /** With no withdraw the balance moves by exactly the deposit sum. */
  lemma {:induction false} DepositsAdd(repo: Repo, log: seq<Event>, account: string)
    requires !HasWithdraw(log, account)
    ensures Stored(ApplyAll(repo, log), account) == Stored(repo, account) + DepositSum(log, account)
  {
    if log != [] {
      assert !IsWithdraw(log[|log| - 1], account);
      DepositsAdd(repo, log[..|log| - 1], account);
    }
  }

  /** With a withdraw the balance is the last one's new balance plus the deposits after it. */
  lemma {:induction false} LastWithdrawDecides(repo: Repo, log: seq<Event>, account: string, k: nat)
    requires IsLastWithdraw(log, account, k)
    ensures Stored(ApplyAll(repo, log), account) == log[k].newBalance + DepositSum(log[k + 1..], account)
  {
    var upto, after := log[..k + 1], log[k + 1..];
    assert log == upto + after && upto[..k] == log[..k];
    ApplyAllAppend(repo, upto, after);
    DepositsAdd(ApplyAll(repo, upto), after, account);
  }

  lemma {:induction false} LastWithdrawExists(log: seq<Event>, account: string) returns (k: nat)
    requires HasWithdraw(log, account)
    ensures IsLastWithdraw(log, account, k)
  {
    var last := |log| - 1;
    if IsWithdraw(log[last], account) {
      k := last;
      assert log[last + 1..] == [];
    } else {
      var init := log[..last];
      var i :| 0 <= i < |log| && IsWithdraw(log[i], account);
      assert IsWithdraw(init[i], account);
      k := LastWithdrawExists(init, account);
      assert log[k + 1..] == init[k + 1..] + [log[last]];
    }
  }

  /** Once a log withdraws from an account, what was stored before no longer matters. */
  lemma {:induction false} WithdrawForgetsStart(repo: Repo, repo': Repo, log: seq<Event>, account: string)
    requires HasWithdraw(log, account)
    ensures Stored(ApplyAll(repo, log), account) == Stored(ApplyAll(repo', log), account)
  {
    var k := LastWithdrawExists(log, account);
    LastWithdrawDecides(repo, log, account, k);
    LastWithdrawDecides(repo', log, account, k);
  }

  // ---- replay --------------------------------------------------------------

  function Replay(repo: Repo, log: seq<Event>, times: nat): Repo {
    if times == 0 then repo else ApplyAll(Replay(repo, log, times - 1), log)
  }

  /** Replaying a log that withdraws from an account settles after one pass. */
  lemma {:induction false} ReplayWithWithdraw(repo: Repo, log: seq<Event>, account: string, times: nat)
    requires HasWithdraw(log, account) && times > 0
    ensures Stored(Replay(repo, log, times), account) == Stored(ApplyAll(repo, log), account)
  {
    WithdrawForgetsStart(Replay(repo, log, times - 1), repo, log, account);
  }

  /** Replaying a log that never does adds the deposit sum once per pass. */
  lemma {:induction false} ReplayWithoutWithdraw(repo: Repo, log: seq<Event>, account: string, times: nat)
    requires !HasWithdraw(log, account)
    ensures Stored(Replay(repo, log, times), account) == Stored(repo, account) + times * DepositSum(log, account)
  {
    if times > 0 {
      ReplayWithoutWithdraw(repo, log, account, times - 1);
      DepositsAdd(Replay(repo, log, times - 1), log, account);
      assert (times - 1) * DepositSum(log, account) + DepositSum(log, account) == times * DepositSum(log, account);
    }
  }

  lemma {:induction false} HasWithdrawPrefix(batch: seq<Event>, done: nat, account: string)
    requires done <= |batch| && HasWithdraw(batch[..done], account)
    ensures HasWithdraw(batch, account)
  {
    var i :| 0 <= i < done && IsWithdraw(batch[..done][i], account);
    assert IsWithdraw(batch[i], account);
  }

  /**
   * A poll that aborted after `done` events and is then redelivered whole leaves an
   * account as one clean delivery would exactly when the batch withdraws from it or
   * the part applied twice deposits nothing to it on balance.
   */
  lemma {:induction false} RedeliveryHarmlessIff(repo: Repo, batch: seq<Event>, done: nat, account: string)
    requires done <= |batch|
    ensures Stored(ApplyAll(ApplyAll(repo, batch[..done]), batch), account) == Stored(ApplyAll(repo, batch), account)
       <==> HasWithdraw(batch, account) || DepositSum(batch[..done], account) == 0
  {
    if HasWithdraw(batch, account) {
      WithdrawForgetsStart(ApplyAll(repo, batch[..done]), repo, batch, account);
    } else {
      if HasWithdraw(batch[..done], account) {
        HasWithdrawPrefix(batch, done, account);
      }
      DepositsAdd(repo, batch[..done], account);
      DepositsAdd(repo, batch, account);
      DepositsAdd(ApplyAll(repo, batch[..done]), batch, account);
    }
  }

  // ---- agreement with the chain --------------------------------------------

  /** The account's balance on chain after `log`, from zero. */
  function ChainBalance(log: seq<Event>, account: string): int {
    if log == [] then 0
    else
      var e := log[|log| - 1];
      ChainBalance(log[..|log| - 1], account) + DepositOf(e, account) -
      (if IsWithdraw(e, account) then e.withdrawn else 0)
  }

  /** Every withdraw of the account carries the balance the chain had after it. */
  ghost predicate Truthful(log: seq<Event>, account: string) {
    forall i | 0 <= i < |log| && IsWithdraw(log[i], account) ::
      log[i].newBalance == ChainBalance(log[..i], account) - log[i].withdrawn
  }

  /** From a zero start the projection equals the chain after every prefix of a truthful log. */
  lemma {:induction false} ProjectionTracksChain(repo: Repo, log: seq<Event>, account: string, n: nat)
    requires Stored(repo, account) == 0 && Truthful(log, account) && n <= |log|
    ensures Stored(ApplyAll(repo, log[..n]), account) == ChainBalance(log[..n], account)
  {
    if n > 0 {
      assert log[..n][..n - 1] == log[..n - 1];
      ProjectionTracksChain(repo, log, account, n - 1);
    }
  }
}
