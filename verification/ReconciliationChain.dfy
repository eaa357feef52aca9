/**
 * Reconciliation jobs against a chain: `chain(ledger)` is the hash the node reports for a
 * ledger. A hash lookup answers that, or fails and answers nothing.
 */
module ReconciliationChain {
  import opened Prelude
  import opened Reconciliation
  import opened ReconciliationJobs

  type Chain = int -> string

  predicate Looks(chain: Chain, ledger: int, answer: Option<string>) {
    answer.Some? ==> answer.value == chain(ledger)
  }

  /** Every lookup of the job is answered from the chain: before its window, and after it. */
  ghost predicate ToldBy(s: State, contract: string, j: Job, chain: Chain) {
    && Looks(chain, LastOf(s, contract), j.reported)
    && Looks(chain, ForkLedger(LastOf(s, contract), DepthOf(j.depth)), j.forkHash)
    && Looks(chain, LastOf(AfterJob(s, contract, j), contract), j.hash)
  }

  /** The stored hash, if there is one, is the chain's for the last indexed ledger. */
  predicate HashFits(c: Checkpoint, chain: Chain) {
    c.hash.Some? && c.hash.value != "" ==> c.hash.value == chain(c.lastIndexed)
  }

  /** The hash a job leaves: what it looked up last, else what it had, or had for the fork. */
  lemma {:induction false} HashAfter(s: State, contract: string, j: Job)
    ensures
      var c := CheckpointOf(s, contract);
      var kept := if Diverged(c, j.reported) then j.forkHash else c.hash;
      CheckpointOf(AfterJob(s, contract, j), contract).hash ==
      (if j.head.Some? && j.hash.Some? then j.hash else kept)
  {
    hide KeepUpTo, CountAbove, AfterBackfill;
  }

  /** What a job without a rollback does to rows and records. */
  lemma {:induction false} RowsStay(s: State, contract: string, j: Job)
    requires !Diverged(CheckpointOf(s, contract), j.reported)
    ensures AfterJob(s, contract, j).reorgs == s.reorgs && s.events <= AfterJob(s, contract, j).events
  {
    hide KeepUpTo, CountAbove, Backfilled, HasKey;
    var s1 := AfterReorgTest(s, contract, j.reported, j.depth, j.forkHash);
    var w := WindowOf(s, contract, j);
    if w.Some? {
      BackfillStores(s1.events, AnswerOf(j.backfill), w.value.to, Handled(j.backfill));
    }
  }

  // ---- the chain stands still ------------------------------------------------

  /** The job looks its new hash up if it moves the checkpoint. */
  predicate Refreshes(s: State, contract: string, j: Job) {
    WindowOf(s, contract, j).Some? ==> j.hash.Some?
  }

  lemma {:induction false} StillJob(s: State, contract: string, j: Job, chain: Chain)
    requires LastOf(s, contract) >= 0 && HashFits(CheckpointOf(s, contract), chain)
    requires ToldBy(s, contract, j, chain) && Refreshes(s, contract, j)
    ensures !Diverged(CheckpointOf(s, contract), j.reported)
    ensures AfterJob(s, contract, j).reorgs == s.reorgs && s.events <= AfterJob(s, contract, j).events
    ensures HashFits(CheckpointOf(AfterJob(s, contract, j), contract), chain)
    ensures LastOf(AfterJob(s, contract, j), contract) >= 0
  {
    RowsStay(s, contract, j);
    HashAfter(s, contract, j);
    JobMovesCheckpoint(s, contract, j);
    hide AfterJob;
  }

  ghost predicate StillRun(s: State, contract: string, jobs: seq<Job>, chain: Chain)
    decreases jobs
  {
    jobs != [] ==>
      && ToldBy(s, contract, jobs[0], chain) && Refreshes(s, contract, jobs[0])
      && StillRun(AfterJob(s, contract, jobs[0]), contract, jobs[1..], chain)
  }

  function AfterJobs(s: State, contract: string, jobs: seq<Job>): State
    decreases jobs
  {
    if jobs == [] then s else AfterJobs(AfterJob(s, contract, jobs[0]), contract, jobs[1..])
  }

  /**
   * While the chain stands still and every job that moves the checkpoint can look up its new
   * hash, no run of jobs removes a row or records a reorganisation.
   */
  lemma {:induction false} StillChainNeverRollsBack(s: State, contract: string, jobs: seq<Job>, chain: Chain)
    requires LastOf(s, contract) >= 0 && HashFits(CheckpointOf(s, contract), chain)
    requires StillRun(s, contract, jobs, chain)
    ensures AfterJobs(s, contract, jobs).reorgs == s.reorgs && s.events <= AfterJobs(s, contract, jobs).events
    ensures HashFits(CheckpointOf(AfterJobs(s, contract, jobs), contract), chain)
    decreases jobs
  {
    if jobs != [] {
      StillJob(s, contract, jobs[0], chain);
      hide AfterJob, ToldBy, Refreshes, HashFits, LastOf;
      StillChainNeverRollsBack(AfterJob(s, contract, jobs[0]), contract, jobs[1..], chain);
    }
  }

  /**
   * A job that moves the checkpoint and cannot look up the new hash keeps the hash of the old
   * ledger. On a chain that stands still the next job that is told a hash then rolls back
   * exactly when the chain has different hashes for the two ledgers.
   */
  lemma {:induction false} StaleHashRollsBackIff(s: State, contract: string, j: Job, next: Job, chain: Chain)
    requires LastOf(s, contract) >= 0 && CheckpointOf(s, contract).hash == Some(chain(LastOf(s, contract)))
    requires chain(LastOf(s, contract)) != ""
    requires ToldBy(s, contract, j, chain) && WindowOf(s, contract, j).Some? && j.hash.None?
    requires ToldBy(AfterJob(s, contract, j), contract, next, chain) && next.reported.Some?
    ensures
      var s1 := AfterJob(s, contract, j);
      && LastOf(s1, contract) > LastOf(s, contract)
      && (|AfterJob(s1, contract, next).reorgs| == |s.reorgs| + 1 <==> chain(LastOf(s1, contract)) != chain(LastOf(s, contract)))
      && (|AfterJob(s1, contract, next).reorgs| == |s.reorgs| <==> chain(LastOf(s1, contract)) == chain(LastOf(s, contract)))
  {
    HashAfter(s, contract, j);
    JobMovesCheckpoint(s, contract, j);
    RowsStay(s, contract, j);
    var s1 := AfterJob(s, contract, j);
    RunLeavesOthers(s1, contract, next.reported, next.depth, next.forkHash, next.head, next.size, next.backfill, next.hash, contract);
    hide Reconciled;
  }

  // ---- the chain changes -----------------------------------------------------

  /**
   * The checkpoint holds the hash the chain had for its ledger, and the next job is told
   * another one. It keeps exactly the rows up to max(last - depth, 0), each as often as before,
   * and records the old and the new hash, the ledgers and how many rows it removed. A job told
   * the same hash does neither.
   */
  lemma {:induction false} ChangedHashRollsBack(s: State, contract: string, j: Job, before: Chain, after: Chain, row: EventRow)
    requires LastOf(s, contract) >= 0 && CheckpointOf(s, contract).hash == Some(before(LastOf(s, contract)))
    requires before(LastOf(s, contract)) != "" && j.reported == Some(after(LastOf(s, contract)))
    ensures
      var last := LastOf(s, contract);
      var fork := if last > DepthOf(j.depth) then last - DepthOf(j.depth) else 0;
      var s1 := AfterReorgTest(s, contract, j.reported, j.depth, j.forkHash);
      if after(last) != before(last) then
        && multiset(s1.events)[row] == (if row.ledger <= fork then multiset(s.events)[row] else 0)
        && LastOf(s1, contract) == fork
        && |s1.reorgs| == |s.reorgs| + 1
        && var r := s1.reorgs[|s.reorgs|];
           r == ReorgEvent(contract, fork, last, before(last), after(last), r.rolledBack)
           && r.rolledBack == |s.events| - |s1.events|
      else
        s1.events == s.events && s1.reorgs == s.reorgs && LastOf(s1, contract) == last
  {
    var fork := ForkLedger(LastOf(s, contract), DepthOf(j.depth));
    KeepUpToIsExact(s.events, fork, row);
    KeptPlusRemoved(s.events, fork);
    hide KeepUpTo, CountAbove;
  }

  /** The rest of that job only adds rows. */
  lemma {:induction false} JobKeepsWhatTheTestKept(s: State, contract: string, j: Job)
    ensures
      var s1 := AfterReorgTest(s, contract, j.reported, j.depth, j.forkHash);
      s1.events <= AfterJob(s, contract, j).events && s1.reorgs == AfterJob(s, contract, j).reorgs
  {
    hide KeepUpTo, CountAbove, Backfilled, HasKey, AfterReorgTest;
    var s1 := AfterReorgTest(s, contract, j.reported, j.depth, j.forkHash);
    var c := CheckpointOf(s1, contract);
    if j.head.Some? && NextWindow(c.lastIndexed, j.head.value, WindowSize(j.size)).Some? {
      var w := NextWindow(c.lastIndexed, j.head.value, WindowSize(j.size)).value;
      BackfillStores(s1.events, AnswerOf(j.backfill), w.to, Handled(j.backfill));
    }
  }
}
