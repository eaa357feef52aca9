/** Runs of reconciliation jobs, each with its own reorg test, and what one contract's rollback does to another. */
module ReconciliationJobs {
  import opened Prelude
  import opened Reconciliation

  /** What one job meets: the node's answers, the configuration and the backfill. */
  datatype Job = Job(
    reported: Option<string>,
    depth: Option<nat>,
    forkHash: Option<string>,
    head: Option<int>,
    size: Option<int>,
    backfill: Backfill,
    hash: Option<string>)

  function AfterJob(s: State, contract: string, j: Job): State {
    Reconciled(s, contract, j.reported, j.depth, j.forkHash, j.head, j.size, j.backfill, j.hash)
  }

  /** Where the job's window starts: the checkpoint, or the fork if the job finds a reorg. */
  function StartOf(s: State, contract: string, j: Job): int {
    RunStart(CheckpointOf(s, contract), j.reported, j.depth)
  }

  /** The window the job takes. */
  function WindowOf(s: State, contract: string, j: Job): Option<Window> {
    if j.head.None? then None else NextWindow(StartOf(s, contract, j), j.head.value, WindowSize(j.size))
  }

  function LastOf(s: State, contract: string): int {
    CheckpointOf(s, contract).lastIndexed
  }

  /** After a job the checkpoint stands at the end of its window, or where the job started. */
  lemma {:induction false} JobMovesCheckpoint(s: State, contract: string, j: Job)
    requires LastOf(s, contract) >= 0
    ensures
      var w := WindowOf(s, contract, j);
      && 0 <= StartOf(s, contract, j) <= LastOf(s, contract)
      && LastOf(AfterJob(s, contract, j), contract) == (if w.Some? then w.value.to else StartOf(s, contract, j))
      && (w.Some? ==> w.value.from == StartOf(s, contract, j) + 1 <= w.value.to)
  {
    hide KeepUpTo, CountAbove, AfterBackfill;
    var c := CheckpointOf(s, contract);
    var s1 := AfterReorgTest(s, contract, j.reported, j.depth, j.forkHash);
    assert CheckpointOf(s1, contract).lastIndexed == StartOf(s, contract, j);
  }

  // ---- which ledgers a run of jobs covers ------------------------------------

  /** Some job's window holds the ledger. */
  ghost predicate Covers(s: State, contract: string, jobs: seq<Job>, ledger: int)
    decreases jobs
  {
    jobs != [] &&
    (|| (WindowOf(s, contract, jobs[0]).Some? && Inside(ledger, WindowOf(s, contract, jobs[0]).value))
     || Covers(AfterJob(s, contract, jobs[0]), contract, jobs[1..], ledger))
  }

  /** Some job leaves the checkpoint at or past the ledger. */
  ghost predicate Reaches(s: State, contract: string, jobs: seq<Job>, ledger: int)
    decreases jobs
  {
    jobs != [] &&
    (|| LastOf(AfterJob(s, contract, jobs[0]), contract) >= ledger
     || Reaches(AfterJob(s, contract, jobs[0]), contract, jobs[1..], ledger))
  }

  /** Some job starts below the ledger, and it or a later one leaves the checkpoint at or past it. */
  ghost predicate PassesOver(s: State, contract: string, jobs: seq<Job>, ledger: int)
    decreases jobs
  {
    jobs != [] &&
    (|| (StartOf(s, contract, jobs[0]) < ledger && Reaches(s, contract, jobs, ledger))
     || PassesOver(AfterJob(s, contract, jobs[0]), contract, jobs[1..], ledger))
  }

  /** A ledger is covered by a run of jobs, rollbacks included, if and only if the run passes over it. */
  lemma {:induction false} CoveredIff(s: State, contract: string, jobs: seq<Job>, ledger: int)
    requires LastOf(s, contract) >= 0
    ensures Covers(s, contract, jobs, ledger) <==> PassesOver(s, contract, jobs, ledger)
    decreases jobs
  {
    if jobs != [] {
      var s', rest := AfterJob(s, contract, jobs[0]), jobs[1..];
      JobMovesCheckpoint(s, contract, jobs[0]);
      if rest != [] {
        JobMovesCheckpoint(s', contract, rest[0]);
      }
      var w, start, last := WindowOf(s, contract, jobs[0]), StartOf(s, contract, jobs[0]), LastOf(s', contract);
      assert w.Some? && Inside(ledger, w.value) <==> start < ledger <= last;
      hide AfterJob, WindowOf, StartOf, LastOf;
      CoveredIff(s', contract, rest, ledger);
      assert Covers(s, contract, jobs, ledger) <==> start < ledger <= last || Covers(s', contract, rest, ledger);
      if start < ledger && Reaches(s, contract, jobs, ledger) && last < ledger {
        assert Reaches(s', contract, rest, ledger);
        assert PassesOver(s', contract, rest, ledger);
      }
    }
  }

  /** No job of the run finds a reorg for the contract. */
  ghost predicate Quiet(s: State, contract: string, jobs: seq<Job>)
    decreases jobs
  {
    jobs != [] ==>
      && !Diverged(CheckpointOf(s, contract), jobs[0].reported)
      && Quiet(AfterJob(s, contract, jobs[0]), contract, jobs[1..])
  }

  lemma {:induction false} QuietNeverStartsBelow(s: State, contract: string, jobs: seq<Job>, ledger: int)
    requires ledger <= LastOf(s, contract) && 0 <= LastOf(s, contract) && Quiet(s, contract, jobs)
    ensures !PassesOver(s, contract, jobs, ledger)
    decreases jobs
  {
    if jobs != [] {
      JobMovesCheckpoint(s, contract, jobs[0]);
      assert StartOf(s, contract, jobs[0]) == LastOf(s, contract);
      hide AfterJob, WindowOf, StartOf, LastOf;
      QuietNeverStartsBelow(AfterJob(s, contract, jobs[0]), contract, jobs[1..], ledger);
    }
  }

  // ---- one contract's rollback and another's rows ----------------------------

  /**
   * A rollback of one contract removes every row above its fork, whichever contract emitted
   * it, and leaves the other checkpoints. A removed ledger is covered again by the jobs of
   * another contract exactly when one of them starts below it, from a checkpoint that was behind
   * or after a rollback of its own, and the checkpoint then passes it. Until that contract rolls
   * back itself, a ledger at or below its checkpoint is not covered at all.
   */
  lemma {:induction false} RemovedLedgerCoveredIff(s: State, contract: string, c: Checkpoint, reported: string, depth: int,
                                                   forkHash: Option<string>, other: string, jobs: seq<Job>, ledger: int)
    requires c.hash.Some? && other != contract && LastOf(s, other) >= 0
    requires ledger > ForkLedger(c.lastIndexed, depth)
    ensures
      var s' := RolledBack(s, contract, c, reported, depth, forkHash);
      && CheckpointOf(s', other) == CheckpointOf(s, other)
      && (forall row | row in s'.events :: row.ledger != ledger)
      && (Covers(s', other, jobs, ledger) <==> PassesOver(s', other, jobs, ledger))
      && (ledger <= LastOf(s, other) && Quiet(s', other, jobs) ==> !Covers(s', other, jobs, ledger))
  {
    var s' := RolledBack(s, contract, c, reported, depth, forkHash);
    forall row | row in s'.events ensures row.ledger != ledger {
      NothingAboveFork(s.events, ForkLedger(c.lastIndexed, depth), row);
    }
    hide Covers, PassesOver, Quiet, KeepUpTo;
    CoveredIff(s', other, jobs, ledger);
    if ledger <= LastOf(s, other) && Quiet(s', other, jobs) {
      QuietNeverStartsBelow(s', other, jobs, ledger);
    }
  }

  /** A job that finds a reorg covers the ledger exactly when it rolls back below it and its window reaches it. */
  lemma {:induction false} OwnRollbackCoversIff(s: State, contract: string, j: Job, ledger: int)
    requires LastOf(s, contract) >= 0 && Diverged(CheckpointOf(s, contract), j.reported) && j.head.Some?
    ensures
      var fork := ForkLedger(LastOf(s, contract), DepthOf(j.depth));
      Covers(s, contract, [j], ledger) <==> fork < ledger <= Min(fork + WindowSize(j.size), j.head.value)
  {
    assert !Covers(AfterJob(s, contract, j), contract, [j][1..], ledger);
    hide AfterJob;
  }

  /** What such a job gets from the node for its window it stores again. */
  lemma {:induction false} OwnRollbackRestores(s: State, contract: string, j: Job, i: nat)
    requires LastOf(s, contract) >= 0 && WindowOf(s, contract, j).Some?
    requires i < Handled(j.backfill) && AnswerOf(j.backfill)[i].ledger <= WindowOf(s, contract, j).value.to
    ensures HasKey(AfterJob(s, contract, j).events, AnswerOf(j.backfill)[i])
  {
    hide KeepUpTo, CountAbove, HasKey, Backfilled;
    var s1 := AfterReorgTest(s, contract, j.reported, j.depth, j.forkHash);
    assert CheckpointOf(s1, contract).lastIndexed == StartOf(s, contract, j);
    BackfillStores(s1.events, AnswerOf(j.backfill), WindowOf(s, contract, j).value.to, Handled(j.backfill));
  }

  /**
   * Contract "a" rolls back from 20 to 10 and takes the row of contract "b" at ledger 15 with
   * it. No run of jobs of "b" covers that ledger until "b" rolls back itself; the indexer's own
   * checkpoint, if there is one, is rewound to 10.
   */
  lemma {:induction false} RollbackLosesRow(jobs: seq<Job>) returns (s: State, row: EventRow)
    ensures row in s.events && "a" in s.checkpoints && "b" in s.checkpoints && s.checkpoints["a"].hash == Some("old")
    ensures s.indexerCheckpoint == Some(20)
    ensures
      var s' := RolledBack(s, "a", s.checkpoints["a"], "new", DEFAULT_REORG_ROLLBACK_DEPTH, None);
      && row !in s'.events && s'.indexerCheckpoint == Some(10)
      && (Quiet(s', "b", jobs) ==> !Covers(s', "b", jobs, row.ledger))
  {
    row := EventRow(15, 0, "deposit");
    var a, b := Checkpoint(20, Some("old"), 20, 1, 20, 0), Checkpoint(20, Some("oldb"), 20, 1, 20, 1);
    s := State([row], map["a" := a, "b" := b], Some(20), []);
    RemovedLedgerCoveredIff(s, "a", a, "new", DEFAULT_REORG_ROLLBACK_DEPTH, None, "b", jobs, 15);
  }
}
