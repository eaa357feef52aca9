/** From the chain to the served balance: the listener's runs and the balance projection together. */
module Mirror {
  import opened Prelude
  import opened EventPaging
  import L = Listener
  import B = Balances
  import R = Reconciliation

  /** How a vault event reads. */
  type Decoder = RpcEvent -> B.Event

  function Decoded(decode: Decoder, events: seq<RpcEvent>): seq<B.Event> {
    seq(|events|, i requires 0 <= i < |events| => decode(events[i]))
  }

  /** With ledgers counted from 1, the log up to a checkpoint is a prefix of the log. */
  lemma {:induction false} UpToIsPrefix(log: seq<RpcEvent>, c: int)
    requires L.Ordered(log) && forall i | 0 <= i < |log| :: log[i].ledger >= 1
    ensures L.UpTo(log, c) <= log
  {
    if log != [] {
      UpToIsPrefix(log[1..], c);
      if log[0].ledger > c {
        L.NoneBelow(log, 0, c);
      }
    }
  }

  /**
   * In every run of unaborted complete polls over a chain whose withdrawals report their own
   * balances truthfully, an account's projected balance is the chain's balance at the
   * checkpoint.
   */
  lemma {:induction false} MirrorTracksChain(decode: Decoder, log: seq<RpcEvent>, polls: seq<L.PollAt>, account: string)
    requires L.ValidRun(log, 0, polls) && L.NoAbort(polls)
    requires
      var chain := L.FinalLog(log, polls);
      && L.Ordered(chain) && (forall i | 0 <= i < |chain| :: chain[i].ledger >= 1)
      && B.Truthful(Decoded(decode, chain), account)
    ensures
      var end := L.RunPolls(L.State(0, []), polls);
      B.Stored(B.ApplyAll(map[], Decoded(decode, end.handled)), account) ==
      B.ChainBalance(Decoded(decode, L.UpTo(L.FinalLog(log, polls), end.checkpoint)), account)
  {
    hide L.RunPolls, L.ValidRun, L.FinalLog, L.Between, B.ApplyAll, B.ChainBalance, B.Truthful;
    var chain := L.FinalLog(log, polls);
    var end := L.RunPolls(L.State(0, []), polls);
    L.BetweenNone(log, 0, 0);
    L.HandledIsTheLogPrefix(L.State(0, []), log, 0, polls);
    UpToIsPrefix(chain, end.checkpoint);
    var n := |L.UpTo(chain, end.checkpoint)|;
    assert Decoded(decode, chain)[..n] == Decoded(decode, L.UpTo(chain, end.checkpoint));
    B.ProjectionTracksChain(map[], Decoded(decode, chain), account, n);
  }

  // ---- after a rollback ----------------------------------------------------

  /** Applying `orphaned` in between makes no difference exactly when the rest withdraws or it left the balance as it was. */
  lemma {:induction false} OrphanedHarmlessIff(repo: B.Repo, orphaned: seq<B.Event>, rest: seq<B.Event>, account: string)
    ensures B.Stored(B.ApplyAll(B.ApplyAll(repo, orphaned), rest), account) == B.Stored(B.ApplyAll(repo, rest), account)
       <==> B.HasWithdraw(rest, account) || B.Stored(B.ApplyAll(repo, orphaned), account) == B.Stored(repo, account)
  {
    if B.HasWithdraw(rest, account) {
      B.WithdrawForgetsStart(B.ApplyAll(repo, orphaned), repo, rest, account);
    } else {
      B.DepositsAdd(B.ApplyAll(repo, orphaned), rest, account);
      B.DepositsAdd(repo, rest, account);
    }
  }

  lemma {:induction false} DecodedJoin(decode: Decoder, a: seq<RpcEvent>, b: seq<RpcEvent>)
    ensures Decoded(decode, a + b) == Decoded(decode, a) + Decoded(decode, b)
  {
  }

  lemma {:induction false} AppliedThrough(decode: Decoder, log: seq<RpcEvent>, fork: int, c: int)
    requires L.Ordered(log) && 0 <= fork <= c
    ensures B.ApplyAll(map[], Decoded(decode, L.UpTo(log, c))) ==
            B.ApplyAll(B.ApplyAll(map[], Decoded(decode, L.UpTo(log, fork))), Decoded(decode, L.Between(log, fork, c)))
  {
    L.BetweenJoin(log, 0, fork, c);
    DecodedJoin(decode, L.UpTo(log, fork), L.Between(log, fork, c));
    B.ApplyAllAppend(map[], Decoded(decode, L.UpTo(log, fork)), Decoded(decode, L.Between(log, fork, c)));
  }

  lemma {:induction false} ProjectionUpTo(decode: Decoder, log: seq<RpcEvent>, c: int, account: string)
    requires L.Ordered(log) && (forall i | 0 <= i < |log| :: log[i].ledger >= 1)
    requires B.Truthful(Decoded(decode, log), account)
    ensures B.Stored(B.ApplyAll(map[], Decoded(decode, L.UpTo(log, c))), account) ==
            B.ChainBalance(Decoded(decode, L.UpTo(log, c)), account)
  {
    hide L.Between, B.ApplyAll, B.ChainBalance, B.Truthful;
    UpToIsPrefix(log, c);
    var n := |L.UpTo(log, c)|;
    assert Decoded(decode, log)[..n] == Decoded(decode, L.UpTo(log, c));
    B.ProjectionTracksChain(map[], Decoded(decode, log), account, n);
  }

  /**
   * A rollback deletes event rows and rewinds the indexer's checkpoint to the fork, but what the
   * rows had done to balances stays. The indexer, which had applied the old log up to `c`, then
   * applies the new log from the fork to `tip`. The projected balance is the chain's again if and
   * only if the part applied anew withdraws from the account, or the part rolled back had left
   * its balance as it was, which without a withdrawal means that its deposits come to nothing.
   */
  lemma {:induction false} ReindexedBalanceIff(decode: Decoder, was: seq<RpcEvent>, now: seq<RpcEvent>, account: string,
                                               s: R.State, contract: string, cp: R.Checkpoint, reported: string,
                                               depth: int, forkHash: Option<string>, c: int, tip: int)
    requires cp.hash.Some? && s.indexerCheckpoint == Some(c)
    requires L.Ordered(was) && L.Ordered(now) && (forall i | 0 <= i < |now| :: now[i].ledger >= 1)
    requires
      var fork := R.ForkLedger(cp.lastIndexed, depth);
      fork <= c && fork <= tip && L.UpTo(was, fork) == L.UpTo(now, fork)
    requires B.Truthful(Decoded(decode, now), account)
    ensures
      var fork := R.ForkLedger(cp.lastIndexed, depth);
      var before := B.ApplyAll(map[], Decoded(decode, L.UpTo(was, c)));
      var orphaned, anew := Decoded(decode, L.Between(was, fork, c)), Decoded(decode, L.Between(now, fork, tip));
      var atFork := B.ApplyAll(map[], Decoded(decode, L.UpTo(was, fork)));
      && R.RolledBack(s, contract, cp, reported, depth, forkHash).indexerCheckpoint == Some(fork)
      && (B.Stored(B.ApplyAll(before, anew), account) == B.ChainBalance(Decoded(decode, L.UpTo(now, tip)), account)
          <==> B.HasWithdraw(anew, account) || B.Stored(before, account) == B.Stored(atFork, account))
      && (!B.HasWithdraw(orphaned, account) ==>
            (B.Stored(before, account) == B.Stored(atFork, account) <==> B.DepositSum(orphaned, account) == 0))
  {
    hide L.Between, B.ApplyAll, B.ChainBalance, B.Truthful, B.HasWithdraw, B.DepositSum, Decoded;
    var fork := R.ForkLedger(cp.lastIndexed, depth);
    var orphaned, anew := Decoded(decode, L.Between(was, fork, c)), Decoded(decode, L.Between(now, fork, tip));
    var atFork := B.ApplyAll(map[], Decoded(decode, L.UpTo(was, fork)));
    AppliedThrough(decode, was, fork, c);
    AppliedThrough(decode, now, fork, tip);
    OrphanedHarmlessIff(atFork, orphaned, anew, account);
    ProjectionUpTo(decode, now, tip, account);
    if !B.HasWithdraw(orphaned, account) {
      B.DepositsAdd(atFork, orphaned, account);
    }
  }

  /** The rollback moves the indexer's checkpoint forward, past ledgers it has not fetched, exactly when the fork is ahead of it. */
  lemma {:induction false} RollbackSkipsLedgersIff(s: R.State, contract: string, cp: R.Checkpoint, reported: string,
                                                   depth: int, forkHash: Option<string>, c: int)
    requires cp.hash.Some? && s.indexerCheckpoint == Some(c)
    ensures
      var s' := R.RolledBack(s, contract, cp, reported, depth, forkHash);
      s'.indexerCheckpoint.Some? && (s'.indexerCheckpoint.value > c <==> R.ForkLedger(cp.lastIndexed, depth) > c)
  {
  }
}
