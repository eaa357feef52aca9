/**
 * `IndexerService`: contract events are fetched into `contract_events` rows behind a
 * checkpoint, and pending rows are applied in batches.
 */
module Indexer {
  import opened Prelude
  import opened EventPaging
  import L = Listener

  const BATCH_SIZE := 100
  const MAX_RETRIES := 5

  datatype Status = Pending | Processed | Failed | Dlq

  /** A `contract_events` row; `event` holds the columns copied from the RPC event. */
  datatype Row = Row(event: RpcEvent, logIndex: nat, status: Status, retryCount: nat)

  /**
   * How an attempt went: whether `decodeAndApply` returned, whether the status write after
   * it succeeded, and whether the status write of the catch block did.
   */
  datatype Attempt = Attempt(applied: bool, saved: bool, failureSaved: bool)

  datatype Try = Try(row: nat, outcome: Attempt)

  /** `attempts` lists, in order, every row whose effects the indexer has tried to apply. */
  datatype State = State(rows: seq<Row>, checkpoint: int, latest: int, attempts: seq<Try>)

  // ---- persisting a batch --------------------------------------------------

  predicate HasKey(rows: seq<Row>, ledger: int, logIndex: nat) {
    exists i :: 0 <= i < |rows| && rows[i].event.ledger == ledger && rows[i].logIndex == logIndex
  }

  /** One turn of the loop: the batch position is the log index. */
  function PersistOne(rows: seq<Row>, e: RpcEvent, index: nat): seq<Row> {
    if HasKey(rows, e.ledger, index) then rows else rows + [Row(e, index, Pending, 0)]
  }

  /** The first `n` turns. */
  function Persist(rows: seq<Row>, events: seq<RpcEvent>, n: nat): seq<Row>
    requires n <= |events|
  {
    if n == 0 then rows else PersistOne(Persist(rows, events, n - 1), events[n - 1], n - 1)
  }

  function NewCheckpoint(c: int, events: seq<RpcEvent>, safeLatest: int): int {
    Max(L.HighestLedger(c, events), safeLatest)
  }

  /**
   * Whether the database fails: at a turn of the loop, or, when `abortAt` is the number of
   * events, at the write of a checkpoint that moves.
   */
  predicate FetchFails(c: int, events: seq<RpcEvent>, safeLatest: int, abortAt: Option<nat>) {
    abortAt.Some? &&
    (abortAt.value < |events| || (abortAt.value == |events| && NewCheckpoint(c, events, safeLatest) > c))
  }

  /** A fetch; a failure leaves the rows stored before it and the checkpoint as it was. */
  function Fetch(s: State, events: seq<RpcEvent>, latest: Option<int>, abortAt: Option<nat>): State {
    var safeLatest := if latest.Some? then latest.value else s.checkpoint;
    var s1 := s.(latest := if safeLatest > 0 then safeLatest else s.latest);
    if FetchFails(s.checkpoint, events, safeLatest, abortAt)
    then s1.(rows := Persist(s.rows, events, abortAt.value))
    else s1.(rows := Persist(s.rows, events, |events|), checkpoint := NewCheckpoint(s.checkpoint, events, safeLatest))
  }

  // ---- applying a batch ----------------------------------------------------

  /** Both status writes that could record the attempt failed, or the only one did. */
  predicate Lost(a: Attempt) {
    !(a.applied && a.saved) && !a.failureSaved
  }

  /** The stored row after `applyEvent`; an attempt whose status write is lost leaves it as it was. */
  function AfterAttempt(row: Row, a: Attempt): Row {
    if a.applied && a.saved then row.(status := Processed)
    else if a.failureSaved then
      row.(retryCount := row.retryCount + 1, status := if row.retryCount + 1 >= MAX_RETRIES then Dlq else Status.Failed)
    else row
  }

  function PendingRows(rows: seq<Row>): set<nat> {
    set i | 0 <= i < |rows| && rows[i].status.Pending?
  }

  ghost predicate NoRepeats(s: seq<nat>) {
    forall i, j | 0 <= i < j < |s| :: s[i] != s[j]
  }

  /** The query may answer any 100 pending rows of lowest ledger, or all if there are fewer. */
  ghost predicate IsBatch(rows: seq<Row>, picked: seq<nat>) {
    && NoRepeats(picked)
    && (forall p | p in picked :: p in PendingRows(rows))
    && |picked| == Min(BATCH_SIZE, |PendingRows(rows)|)
    && (forall i, j | 0 <= i <= j < |picked| :: LedgerAt(rows, picked[i]) <= LedgerAt(rows, picked[j]))
    && (forall p, q | p in picked && q in PendingRows(rows) && q !in picked :: LedgerAt(rows, p) <= LedgerAt(rows, q))
  }

  function LedgerAt(rows: seq<Row>, i: nat): int {
    if i < |rows| then rows[i].event.ledger else 0
  }

  type Outcomes = nat -> Attempt

  /** How many rows of the batch are attempted before one loses its status write. */
  function Recorded(picked: seq<nat>, outcomes: Outcomes): (k: nat)
    ensures k <= |picked|
    ensures forall i | 0 <= i < k :: !Lost(outcomes(picked[i]))
    ensures k < |picked| ==> Lost(outcomes(picked[k]))
  {
    if picked == [] || Lost(outcomes(picked[0])) then 0 else 1 + Recorded(picked[1..], outcomes)
  }

  /** The rows attempted: a lost status write ends the batch. */
  function Attempted(picked: seq<nat>, outcomes: Outcomes): seq<nat> {
    picked[..Min(Recorded(picked, outcomes) + 1, |picked|)]
  }

  function ApplyRows(rows: seq<Row>, tried: seq<nat>, outcomes: Outcomes): seq<Row> {
    seq(|rows|, i requires 0 <= i < |rows| => if i in tried then AfterAttempt(rows[i], outcomes(i)) else rows[i])
  }

  function Tries(tried: seq<nat>, outcomes: Outcomes): seq<Try> {
    seq(|tried|, i requires 0 <= i < |tried| => Try(tried[i], outcomes(tried[i])))
  }

  function ProcessBatch(s: State, picked: seq<nat>, outcomes: Outcomes): State {
    var tried := Attempted(picked, outcomes);
    s.(rows := ApplyRows(s.rows, tried, outcomes), attempts := s.attempts + Tries(tried, outcomes))
  }

  class IndexerService {
    var rows: seq<Row>
    var checkpoint: int
    var latest: int
    var attempts: seq<Try>

    constructor ()
      ensures View() == State([], 0, 0, [])
    {
      rows, checkpoint, latest, attempts := [], 0, 0, [];
    }

    function View(): State
      reads this
    {
      State(rows, checkpoint, latest, attempts)
    }

    method FetchAndPersistEvents(events: seq<RpcEvent>, latestLedger: Option<int>, abortAt: Option<nat>)
      returns (persisted: Result<nat>)
      modifies this
      ensures View() == Fetch(old(View()), events, latestLedger, abortAt)
      ensures persisted.Err? <==> FetchFails(old(checkpoint), events,
                if latestLedger.Some? then latestLedger.value else old(checkpoint), abortAt)
      ensures persisted.Ok? ==> persisted.value == |rows| - |old(rows)|
    {
      hide L.HighestLedger, Persist;
      var lastProcessed := checkpoint;
      var safeLatest := if latestLedger.Some? then latestLedger.value else lastProcessed;
      if safeLatest > 0 {
        latest := safeLatest;
      }
      var maxEventLedger;
      persisted, maxEventLedger := PersistEvents(events, abortAt);
      if persisted.Err? {
        return;
      }
      var newCheckpoint := if |events| > 0 then Max(maxEventLedger, safeLatest) else Max(lastProcessed, safeLatest);
      if newCheckpoint > lastProcessed {
        if abortAt == Some(|events|) {
          return Err("query failed");
        }
        checkpoint := newCheckpoint;
      }
    }

    /** The loop over the fetched events. */
    method PersistEvents(events: seq<RpcEvent>, abortAt: Option<nat>) returns (persisted: Result<nat>, maxEventLedger: int)
      modifies this`rows
      ensures persisted.Ok? <==> !(abortAt.Some? && abortAt.value < |events|)
      ensures persisted.Ok? ==> && rows == Persist(old(rows), events, |events|)
                                && persisted.value == |rows| - |old(rows)|
                                && maxEventLedger == L.HighestLedger(checkpoint, events)
                                && (events == [] ==> maxEventLedger == checkpoint)
      ensures persisted.Err? ==> rows == Persist(old(rows), events, abortAt.value)
    {
      hide HasKey, L.HighestLedger, Persist;
      PersistNone(rows, events);
      var persistedCount := 0;
      maxEventLedger := checkpoint;
      L.HighestOfNone(checkpoint, events);
      for index := 0 to |events|
        invariant abortAt.Some? ==> abortAt.value >= index
        invariant rows == Persist(old(rows), events, index)
        invariant persistedCount == |rows| - |old(rows)| >= 0
        invariant maxEventLedger == L.HighestLedger(checkpoint, events[..index])
        invariant index == 0 ==> maxEventLedger == checkpoint
      {
        if abortAt == Some(index) {
          return Err("query failed"), maxEventLedger;
        }
        L.HighestStep(checkpoint, events, index);
        PersistStep(old(rows), events, index);
        if !HasKey(rows, events[index].ledger, index) {
          rows := rows + [Row(events[index], index, Pending, 0)];
          persistedCount := persistedCount + 1;
        }
        if events[index].ledger > maxEventLedger {
          maxEventLedger := events[index].ledger;
        }
      }
      assert events[..|events|] == events;
      persisted := Ok(persistedCount);
    }

    /** `completed` is false when a lost status write threw out of the batch. */
    method ProcessPendingBatch(picked: seq<nat>, outcomes: Outcomes) returns (completed: bool)
      requires IsBatch(rows, picked)
      modifies this
      ensures View() == ProcessBatch(old(View()), picked, outcomes)
      ensures completed <==> Recorded(picked, outcomes) == |picked|
    {
      hide PendingRows, LedgerAt, AfterAttempt, Lost, Recorded, IsBatch;
      PickedAreRows(rows, picked);
      var n := Min(Recorded(picked, outcomes) + 1, |picked|);
      var k := 0;
      completed := true;
      while k < |picked| && completed
        invariant 0 <= k <= n && (completed ==> k <= Recorded(picked, outcomes)) && (!completed ==> k == n == Recorded(picked, outcomes) + 1)
        invariant checkpoint == old(checkpoint) && latest == old(latest)
        invariant attempts == old(attempts) + Tries(picked[..k], outcomes)
        invariant rows == ApplyRows(old(rows), picked[..k], outcomes)
        decreases |picked| - k
      {
        var id := picked[k];
        assert id !in picked[..k];
        assert picked[..k + 1] == picked[..k] + [id];
        rows := rows[id := AfterAttempt(rows[id], outcomes(id))];
        attempts := attempts + [Try(id, outcomes(id))];
        completed := !Lost(outcomes(id));
        k := k + 1;
      }
    }
  }

  lemma {:induction false} PersistNone(rows: seq<Row>, events: seq<RpcEvent>)
    ensures Persist(rows, events, 0) == rows
  {
  }

  lemma {:induction false} PersistStep(rows: seq<Row>, events: seq<RpcEvent>, n: nat)
    requires n < |events|
    ensures Persist(rows, events, n + 1) == PersistOne(Persist(rows, events, n), events[n], n)
  {
  }

  lemma {:induction false} PickedAreRows(rows: seq<Row>, picked: seq<nat>)
    requires IsBatch(rows, picked)
    ensures NoRepeats(picked) && forall k | 0 <= k < |picked| :: picked[k] < |rows|
  {
    forall k | 0 <= k < |picked| ensures picked[k] < |rows| {
      assert picked[k] in picked;
    }
  }

  // ---- a batch drains the lowest ledgers -----------------------------------

  function Elements(s: seq<nat>): set<nat> {
    set x | x in s
  }

  lemma {:induction false} DistinctCount(s: seq<nat>)
    requires NoRepeats(s)
    ensures |Elements(s)| == |s|
  {
    if s != [] {
      var n := |s| - 1;
      DistinctCount(s[..n]);
      assert s == s[..n] + [s[n]];
      assert Elements(s) == Elements(s[..n]) + {s[n]};
      assert s[n] !in Elements(s[..n]);
    }
  }

  lemma {:induction false} SubsetLeaves(all: set<nat>, part: set<nat>)
    requires part <= all
    ensures |all - part| == |all| - |part|
  {
    assert all == (all - part) + part;
  }

  /** Exactly the rows whose attempt was recorded leave the pending state. */
  lemma {:induction false} BatchLeavesPending(rows: seq<Row>, picked: seq<nat>, outcomes: Outcomes)
    requires IsBatch(rows, picked)
    ensures
      var k := Recorded(picked, outcomes);
      var after := ApplyRows(rows, Attempted(picked, outcomes), outcomes);
      && PendingRows(after) == PendingRows(rows) - Elements(picked[..k])
      && |PendingRows(after)| == |PendingRows(rows)| - k
      && (k == |picked| ==> |PendingRows(after)| == Max(0, |PendingRows(rows)| - BATCH_SIZE))
  {
    hide LedgerAt;
    var k := Recorded(picked, outcomes);
    var tried := Attempted(picked, outcomes);
    assert tried == picked[..k] + (if k < |picked| then [picked[k]] else []);
    forall i | 0 <= i < |rows| && rows[i].status.Pending?
      ensures AfterAttempt(rows[i], outcomes(i)).status.Pending? <==> Lost(outcomes(i))
    {
    }
    RecordedAre(picked, outcomes);
    assert PendingRows(ApplyRows(rows, tried, outcomes)) == PendingRows(rows) - Elements(picked[..k]);
    assert NoRepeats(picked[..k]);
    DistinctCount(picked[..k]);
    assert Elements(picked[..k]) <= PendingRows(rows);
    hide ApplyRows, PendingRows;
    SubsetLeaves(PendingRows(rows), Elements(picked[..k]));
  }

  lemma {:induction false} RecordedAre(picked: seq<nat>, outcomes: Outcomes)
    ensures forall x | x in picked[..Recorded(picked, outcomes)] :: !Lost(outcomes(x))
  {
    hide Lost;
  }

  datatype Batch = Batch(picked: seq<nat>, outcomes: Outcomes)

  function AfterBatch(rows: seq<Row>, b: Batch): seq<Row> {
    ApplyRows(rows, Attempted(b.picked, b.outcomes), b.outcomes)
  }

  ghost predicate ValidBatches(rows: seq<Row>, batches: seq<Batch>)
    decreases batches
  {
    batches == [] || (IsBatch(rows, batches[0].picked) && ValidBatches(AfterBatch(rows, batches[0]), batches[1..]))
  }

  function RunBatches(rows: seq<Row>, batches: seq<Batch>): seq<Row>
    decreases batches
  {
    if batches == [] then rows else RunBatches(AfterBatch(rows, batches[0]), batches[1..])
  }

  function TotalRecorded(batches: seq<Batch>): nat {
    if batches == [] then 0 else Recorded(batches[0].picked, batches[0].outcomes) + TotalRecorded(batches[1..])
  }

  /** No status write is lost. */
  ghost predicate AllRecorded(batches: seq<Batch>) {
    forall b | b in batches :: Recorded(b.picked, b.outcomes) == |b.picked|
  }

  /** With nothing new arriving, each recorded attempt takes one row out of the queue. */
  lemma {:induction false} DrainCount(rows: seq<Row>, batches: seq<Batch>)
    requires ValidBatches(rows, batches)
    ensures |PendingRows(RunBatches(rows, batches))| == |PendingRows(rows)| - TotalRecorded(batches)
    decreases batches
  {
    if batches != [] {
      BatchLeavesPending(rows, batches[0].picked, batches[0].outcomes);
      hide IsBatch, PendingRows, ApplyRows, Recorded, Attempted;
      DrainCount(AfterBatch(rows, batches[0]), batches[1..]);
    }
  }

  /** If no status write is lost, the queue is empty after k batches iff k >= ceil(pending / 100). */
  lemma {:induction false} DrainsInCeilBatches(rows: seq<Row>, batches: seq<Batch>)
    requires ValidBatches(rows, batches) && AllRecorded(batches)
    ensures PendingRows(RunBatches(rows, batches)) == {} <==> |batches| >= CeilDiv(|PendingRows(rows)|, BATCH_SIZE)
    decreases batches
  {
    hide IsBatch, PendingRows, ApplyRows, CeilDiv, Recorded, Attempted;
    var n := |PendingRows(rows)|;
    CeilDivStep(n, BATCH_SIZE);
    if batches == [] {
      CeilDivPositive(n);
    } else {
      assert batches[0] in batches;
      BatchLeavesPending(rows, batches[0].picked, batches[0].outcomes);
      CeilDivStep(0, BATCH_SIZE);
      DrainsInCeilBatches(AfterBatch(rows, batches[0]), batches[1..]);
    }
  }

  lemma {:induction false} CeilDivPositive(n: nat)
    ensures CeilDiv(n, BATCH_SIZE) == 0 <==> n == 0
  {
    CeilDivStep(n, BATCH_SIZE);
  }

  // ---- keys ----------------------------------------------------------------

  ghost predicate UniqueKeys(rows: seq<Row>) {
    forall i, j | 0 <= i < j < |rows| :: rows[i].event.ledger != rows[j].event.ledger || rows[i].logIndex != rows[j].logIndex
  }

  /** Whatever is fetched, no two rows share (ledger, log index), and no row is lost or changed. */
  lemma {:induction false} PersistKeepsKeys(rows: seq<Row>, events: seq<RpcEvent>, n: nat)
    requires UniqueKeys(rows) && n <= |events|
    ensures UniqueKeys(Persist(rows, events, n)) && rows <= Persist(rows, events, n)
    ensures forall i | 0 <= i < n :: HasKey(Persist(rows, events, n), events[i].ledger, i)
  {
    if n > 0 {
      PersistKeepsKeys(rows, events, n - 1);
      var before, after := Persist(rows, events, n - 1), Persist(rows, events, n);
      assert before <= after;
      forall i | 0 <= i < n - 1 ensures HasKey(after, events[i].ledger, i) {
        KeyStays(before, after, events[i].ledger, i);
      }
      if after != before {
        assert after[|before|].event == events[n - 1] && after[|before|].logIndex == n - 1;
      }
    }
  }

  lemma {:induction false} KeyStays(a: seq<Row>, b: seq<Row>, ledger: int, index: nat)
    requires a <= b && HasKey(a, ledger, index)
    ensures HasKey(b, ledger, index)
  {
    var i :| 0 <= i < |a| && a[i].event.ledger == ledger && a[i].logIndex == index;
    assert b[i] == a[i];
  }

  /** Once every position of a batch is stored, persisting the batch changes nothing. */
  lemma {:induction false} StoredBatchIsSkipped(rows: seq<Row>, events: seq<RpcEvent>, n: nat)
    requires n <= |events| && forall i | 0 <= i < n :: HasKey(rows, events[i].ledger, i)
    ensures Persist(rows, events, n) == rows
  {
    hide HasKey;
    if n > 0 {
      StoredBatchIsSkipped(rows, events, n - 1);
    }
  }

  /** Fetching the same batch again stores nothing twice. */
  lemma {:induction false} RefetchIsIdempotent(rows: seq<Row>, events: seq<RpcEvent>)
    requires UniqueKeys(rows)
    ensures Persist(Persist(rows, events, |events|), events, |events|) == Persist(rows, events, |events|)
  {
    hide Persist;
    PersistKeepsKeys(rows, events, |events|);
    StoredBatchIsSkipped(Persist(rows, events, |events|), events, |events|);
  }

  // ---- positions -----------------------------------------------------------

  /** `part` are the first rows of `batch`, each at its own position. */
  ghost predicate IsPart(part: seq<Row>, batch: seq<RpcEvent>) {
    |part| <= |batch| && forall i | 0 <= i < |part| :: part[i].event == batch[i] && part[i].logIndex == i
  }

  function NewRows(batch: seq<RpcEvent>, from: nat, to: nat): (r: seq<Row>)
    requires from <= to <= |batch|
    ensures |r| == to - from
  {
    seq(to - from, i requires 0 <= i < to - from => Row(batch[from + i], from + i, Pending, 0))
  }

  lemma {:induction false} PartIsSkipped(done: seq<Row>, part: seq<Row>, batch: seq<RpcEvent>, n: nat)
    requires IsPart(part, batch) && n <= |part|
    ensures Persist(done + part, batch, n) == done + part
  {
    forall i | 0 <= i < n ensures HasKey(done + part, batch[i].ledger, i) {
      assert (done + part)[|done| + i] == part[i];
    }
    StoredBatchIsSkipped(done + part, batch, n);
  }

  /**
   * After an earlier fetch from the same checkpoint stopped half-way, the positions
   * already stored are skipped and the others are stored, each once.
   */
  lemma {:induction false} PersistResumes(done: seq<Row>, part: seq<Row>, batch: seq<RpcEvent>, c: int, n: nat)
    requires IsPart(part, batch) && |part| <= n <= |batch|
    requires forall r | r in done :: r.event.ledger <= c
    requires forall e | e in batch :: e.ledger > c
    ensures Persist(done + part, batch, n) == done + part + NewRows(batch, |part|, n)
  {
    hide HasKey;
    if n == |part| {
      PartIsSkipped(done, part, batch, n);
      assert NewRows(batch, |part|, n) == [];
    } else {
      PersistResumes(done, part, batch, c, n - 1);
      assert batch[n - 1] in batch;
      NewPositionIsFree(done, part, batch, c, n - 1);
      var added := Row(batch[n - 1], n - 1, Pending, 0);
      assert NewRows(batch, |part|, n) == NewRows(batch, |part|, n - 1) + [added];
      Associate(done + part, NewRows(batch, |part|, n - 1), [added]);
    }
  }

  lemma {:induction false} NewPositionIsFree(done: seq<Row>, part: seq<Row>, batch: seq<RpcEvent>, c: int, n: nat)
    requires IsPart(part, batch) && |part| <= n < |batch| && batch[n].ledger > c
    requires forall r | r in done :: r.event.ledger <= c
    ensures !HasKey(done + part + NewRows(batch, |part|, n), batch[n].ledger, n)
  {
    var rows := done + part + NewRows(batch, |part|, n);
    forall i | 0 <= i < |rows| ensures rows[i].event.ledger != batch[n].ledger || rows[i].logIndex != n {
      if i < |done| {
        assert rows[i] == done[i] && done[i] in done;
      } else if i < |done| + |part| {
        assert rows[i] == part[i - |done|];
      } else {
        assert rows[i] == NewRows(batch, |part|, n)[i - |done| - |part|];
      }
    }
  }

  /** For each of the first `n` positions that is not keyed, one row. */
  function Added(rows: seq<Row>, batch: seq<RpcEvent>, n: nat): seq<Row>
    requires n <= |batch|
  {
    if n == 0 then []
    else Added(rows, batch, n - 1)
         + (if HasKey(rows, batch[n - 1].ledger, n - 1) then [] else [Row(batch[n - 1], n - 1, Pending, 0)])
  }

  lemma {:induction false} AddedPositions(rows: seq<Row>, batch: seq<RpcEvent>, n: nat)
    requires n <= |batch|
    ensures forall r | r in Added(rows, batch, n) :: r.logIndex < n
  {
    hide HasKey;
    if n > 0 {
      AddedPositions(rows, batch, n - 1);
    }
  }

  /** Adding rows at earlier positions does not key a later one. */
  lemma {:induction false} EarlierPositionsDoNotKey(rows: seq<Row>, added: seq<Row>, ledger: int, n: nat)
    requires forall r | r in added :: r.logIndex < n
    ensures HasKey(rows + added, ledger, n) <==> HasKey(rows, ledger, n)
  {
    var all := rows + added;
    if i :| 0 <= i < |all| && all[i].event.ledger == ledger && all[i].logIndex == n {
      assert all[i] in rows + added;
    }
    if i :| 0 <= i < |rows| && rows[i].event.ledger == ledger && rows[i].logIndex == n {
      assert all[i] == rows[i];
    }
  }

  /** What any fetch adds to any table. */
  lemma {:induction false} PersistAdds(rows: seq<Row>, batch: seq<RpcEvent>, n: nat)
    requires n <= |batch|
    ensures Persist(rows, batch, n) == rows + Added(rows, batch, n)
  {
    hide HasKey;
    if n == 0 {
      assert rows + [] == rows;
    } else {
      var m := n - 1;
      PersistAdds(rows, batch, m);
      AddedPositions(rows, batch, m);
      EarlierPositionsDoNotKey(rows, Added(rows, batch, m), batch[m].ledger, m);
      Associate(rows, Added(rows, batch, m),
                if HasKey(rows, batch[m].ledger, m) then [] else [Row(batch[m], m, Pending, 0)]);
    }
  }

  /**
   * Positions depend on where the fetch began: of a batch already stored, a later fetch that
   * begins at its k-th event stores event k + j again exactly when the event at position j of
   * the first fetch was of another ledger.
   */
  lemma {:induction false} ShiftedPositionKeyedIff(done: seq<Row>, batch: seq<RpcEvent>, c: int, k: nat, j: nat)
    requires k + j < |batch|
    requires forall r | r in done :: r.event.ledger <= c
    requires forall e | e in batch :: e.ledger > c
    ensures HasKey(Persist(done, batch, |batch|), batch[k + j].ledger, j) <==> batch[j].ledger == batch[k + j].ledger
  {
    PersistResumes(done, [], batch, c, |batch|);
    var rows := Persist(done, batch, |batch|);
    var added := NewRows(batch, 0, |batch|);
    assert done + [] == done;
    assert rows == done + added;
    assert batch[k + j] in batch;
    hide Persist;
    if batch[j].ledger == batch[k + j].ledger {
      assert rows[|done| + j] == added[j];
    }
    if i :| 0 <= i < |rows| && rows[i].event.ledger == batch[k + j].ledger && rows[i].logIndex == j {
      assert i < |done| ==> rows[i] in done;
      assert i >= |done| ==> rows[i] == added[i - |done|];
    }
  }

  /** The rows a shifted fetch stores a second time. */
  function StoredAgain(batch: seq<RpcEvent>, k: nat, n: nat): seq<Row>
    requires k + n <= |batch|
  {
    if n == 0 then []
    else StoredAgain(batch, k, n - 1)
         + (if batch[n - 1].ledger == batch[k + n - 1].ledger then [] else [Row(batch[k + n - 1], n - 1, Pending, 0)])
  }

  lemma {:induction false} AddedIsStoredAgain(done: seq<Row>, batch: seq<RpcEvent>, c: int, k: nat, n: nat)
    requires k + n <= |batch|
    requires forall r | r in done :: r.event.ledger <= c
    requires forall e | e in batch :: e.ledger > c
    ensures Added(Persist(done, batch, |batch|), batch[k..], n) == StoredAgain(batch, k, n)
  {
    hide Persist, HasKey;
    if n > 0 {
      ShiftedPositionKeyedIff(done, batch, c, k, n - 1);
      AddedIsStoredAgain(done, batch, c, k, n - 1);
    }
  }

  /** What a fetch of `batch[k..]`, or of its first `n` events, adds to a table that holds `batch`. */
  lemma {:induction false} ShiftedRefetchAdds(done: seq<Row>, batch: seq<RpcEvent>, c: int, k: nat, n: nat)
    requires k + n <= |batch|
    requires forall r | r in done :: r.event.ledger <= c
    requires forall e | e in batch :: e.ledger > c
    ensures
      var rows := Persist(done, batch, |batch|);
      Persist(rows, batch[k..], n) == rows + StoredAgain(batch, k, n)
  {
    hide Persist;
    PersistAdds(Persist(done, batch, |batch|), batch[k..], n);
    AddedIsStoredAgain(done, batch, c, k, n);
  }
}
