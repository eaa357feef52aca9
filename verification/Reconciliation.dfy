/**
 * `ReconciliationService`: per-contract checkpoints that walk the chain in windows, and
 * the rollback taken when the stored hash of the last indexed ledger no longer matches.
 */
module Reconciliation {
  import opened Prelude

  const DEFAULT_RECONCILE_WINDOW: int := 200
  const DEFAULT_REORG_ROLLBACK_DEPTH: int := 10
  const BACKFILL_BATCH_SIZE: nat := 100

  /** A `contract_events` row; rows do not say which contract emitted them. */
  datatype EventRow = EventRow(ledger: int, logIndex: int, eventType: string)

  datatype Checkpoint = Checkpoint(
    lastIndexed: int,
    hash: Option<string>,
    chainHead: int,
    reconciledFrom: int,
    reconciledTo: int,
    backfillCount: int)

  datatype ReorgEvent = ReorgEvent(
    contract: string,
    forkLedger: int,
    previousLedger: int,
    previousHash: string,
    newHash: string,
    rolledBack: nat)

  datatype State = State(
    events: seq<EventRow>,
    checkpoints: map<string, Checkpoint>,
    indexerCheckpoint: Option<int>,
    reorgs: seq<ReorgEvent>)

  const FreshCheckpoint := Checkpoint(0, None, 0, 0, 0, 0)

  function CheckpointOf(s: State, contract: string): Checkpoint {
    if contract in s.checkpoints then s.checkpoints[contract] else FreshCheckpoint
  }

  // ---- rollback ------------------------------------------------------------

  /** What `delete({ ledger: MoreThan(fork) })` leaves. */
  function KeepUpTo(events: seq<EventRow>, fork: int): seq<EventRow> {
    if events == [] then []
    else (if events[0].ledger <= fork then [events[0]] else []) + KeepUpTo(events[1..], fork)
  }

  /** How many rows lie above a ledger. */
  function CountAbove(events: seq<EventRow>, fork: int): nat {
    if events == [] then 0 else (if events[0].ledger > fork then 1 else 0) + CountAbove(events[1..], fork)
  }

  /** The rows left are exactly those at or below the fork, each as often as before. */
  lemma {:induction false} KeepUpToIsExact(events: seq<EventRow>, fork: int, row: EventRow)
    ensures multiset(KeepUpTo(events, fork))[row] == if row.ledger <= fork then multiset(events)[row] else 0
  {
    if events != [] {
      KeepUpToIsExact(events[1..], fork, row);
      assert events == [events[0]] + events[1..];
      assert multiset(KeepUpTo(events, fork))[row] ==
             (if events[0].ledger <= fork && events[0] == row then 1 else 0) + multiset(KeepUpTo(events[1..], fork))[row];
    }
  }

  lemma {:induction false} KeptPlusRemoved(events: seq<EventRow>, fork: int)
    ensures |KeepUpTo(events, fork)| + CountAbove(events, fork) == |events|
  {
    if events != [] {
      KeptPlusRemoved(events[1..], fork);
    }
  }

  function ForkLedger(previous: int, depth: int): int {
    Max(previous - depth, 0)
  }

  /** Whether the lookups show a reorg: a stored hash, a reported one, and a difference. */
  predicate Diverged(c: Checkpoint, reported: Option<string>) {
    c.hash.Some? && c.hash.value != "" && reported.Some? && reported.value != c.hash.value
  }

  /** The state after the rollback of one contract. */
  function RolledBack(s: State, contract: string, c: Checkpoint, reported: string, depth: int, forkHash: Option<string>): State
    requires c.hash.Some?
  {
    var fork := ForkLedger(c.lastIndexed, depth);
    State(
      KeepUpTo(s.events, fork),
      s.checkpoints[contract := c.(lastIndexed := fork, hash := forkHash)],
      if s.indexerCheckpoint.Some? then Some(fork) else None,
      s.reorgs + [ReorgEvent(contract, fork, c.lastIndexed, c.hash.value, reported, CountAbove(s.events, fork))])
  }

  // ---- windows -------------------------------------------------------------

  datatype Window = Window(from: int, to: int)

  /** The window of one run; none when the checkpoint has reached the head. */
  function NextWindow(lastIndexed: int, head: int, size: int): Option<Window> {
    if lastIndexed >= head then None
    else
      var from := Max(lastIndexed + 1, 1);
      Some(Window(from, Min(from + size - 1, head)))
  }

  function WindowSize(configured: Option<int>): (w: int)
    ensures w > 0
  {
    if configured.Some? && configured.value > 0 then configured.value else DEFAULT_RECONCILE_WINDOW
  }

  // ---- backfill ------------------------------------------------------------

  predicate HasKey(events: seq<EventRow>, row: EventRow) {
    exists i :: 0 <= i < |events| && events[i].ledger == row.ledger && events[i].logIndex == row.logIndex
  }

  function BackfillOne(events: seq<EventRow>, row: EventRow, to: int): seq<EventRow> {
    if row.ledger <= to && !HasKey(events, row) then events + [row] else events
  }

  /** The rows after the first `n` of the node's answer. */
  function Backfilled(events: seq<EventRow>, answer: seq<EventRow>, to: int, n: nat): seq<EventRow>
    requires n <= |answer|
  {
    if n == 0 then events else BackfillOne(Backfilled(events, answer, to, n - 1), answer[n - 1], to)
  }

  /**
   * What the node answered, none if the request failed, and the row at which the database
   * failed, if it did.
   */
  datatype Backfill = Backfill(answer: Option<seq<EventRow>>, failAt: Option<nat>)

  function AnswerOf(b: Backfill): seq<EventRow> {
    if b.answer.Some? then b.answer.value else []
  }

  /** How much of the answer is gone through. */
  function Handled(b: Backfill): (n: nat)
    ensures n <= |AnswerOf(b)|
  {
    if b.failAt.Some? && b.failAt.value < |AnswerOf(b)| then b.failAt.value else |AnswerOf(b)|
  }

  function AfterBackfill(events: seq<EventRow>, b: Backfill, to: int): seq<EventRow> {
    Backfilled(events, AnswerOf(b), to, Handled(b))
  }

  /** The state after one run for one contract, once the checkpoint is loaded and a reorg dealt with. */
  function Advanced(s: State, contract: string, c: Checkpoint, head: Option<int>, size: Option<int>, b: Backfill,
                    hash: Option<string>): State {
    if head.None? then s
    else
      var newHash := if hash.Some? then hash else c.hash;
      match NextWindow(c.lastIndexed, head.value, WindowSize(size))
      case None => s.(checkpoints := s.checkpoints[contract := c.(chainHead := head.value, hash := newHash)])
      case Some(w) =>
        var events := AfterBackfill(s.events, b, w.to);
        s.(events := events,
           checkpoints := s.checkpoints[contract :=
             Checkpoint(w.to, newHash, head.value, w.from, w.to, |events| - |s.events|)])
  }

  function DepthOf(depth: Option<int>): int {
    if depth.Some? then depth.value else DEFAULT_REORG_ROLLBACK_DEPTH
  }

  /** The state after the reorg test of one run. */
  function AfterReorgTest(s: State, contract: string, reported: Option<string>, depth: Option<int>,
                          forkHash: Option<string>): State {
    var c := CheckpointOf(s, contract);
    if Diverged(c, reported) then RolledBack(s, contract, c, reported.value, DepthOf(depth), forkHash)
    else s.(checkpoints := s.checkpoints[contract := c])
  }

  /** The state after one run of the job for one contract. */
  function Reconciled(s: State, contract: string, reported: Option<string>, depth: Option<int>,
                      forkHash: Option<string>, head: Option<int>, size: Option<int>, b: Backfill,
                      hash: Option<string>): State {
    var s1 := AfterReorgTest(s, contract, reported, depth, forkHash);
    Advanced(s1, contract, CheckpointOf(s1, contract), head, size, b, hash)
  }

  class ReconciliationService {
    var events: seq<EventRow>
    var checkpoints: map<string, Checkpoint>
    var indexerCheckpoint: Option<int>
    var reorgs: seq<ReorgEvent>

    constructor (indexerCheckpoint: Option<int>)
      ensures View() == State([], map[], indexerCheckpoint, [])
    {
      events, checkpoints, reorgs := [], map[], [];
      this.indexerCheckpoint := indexerCheckpoint;
    }

    function View(): State
      reads this
    {
      State(events, checkpoints, indexerCheckpoint, reorgs)
    }

    method GetOrCreateCheckpoint(contract: string) returns (c: Checkpoint)
      modifies this
      ensures c == old(CheckpointOf(View(), contract))
      ensures View() == old(View()).(checkpoints := old(checkpoints)[contract := c])
    {
      if contract in checkpoints {
        c := checkpoints[contract];
        assert checkpoints == checkpoints[contract := c];
      } else {
        c := FreshCheckpoint;
        checkpoints := checkpoints[contract := c];
      }
    }

    /** `reported` and `forkHash` are what the node answers for the last indexed and the fork ledger. */
    method DetectAndHandleReorg(contract: string, c: Checkpoint, reported: Option<string>, depth: Option<int>,
                                forkHash: Option<string>)
      returns (c': Checkpoint, reorg: Option<ReorgEvent>)
      modifies this
      ensures reorg.Some? <==> Diverged(c, reported)
      ensures reorg.None? ==> View() == old(View()) && c' == c
      ensures reorg.Some? ==>
                && View() == RolledBack(old(View()), contract, c, reported.value, DepthOf(depth), forkHash)
                && c' == checkpoints[contract] && reorg.value == reorgs[|reorgs| - 1]
                && reorg.value.rolledBack == |old(events)| - |events|
    {
      c', reorg := c, None;
      if c.hash.None? || c.hash.value == "" || reported.None? || reported.value == c.hash.value {
        return;
      }
      var rollbackDepth := if depth.Some? then depth.value else DEFAULT_REORG_ROLLBACK_DEPTH;
      var forkLedger := Max(c.lastIndexed - rollbackDepth, 0);
      var before := |events|;
      KeptPlusRemoved(events, forkLedger);
      events := KeepUpTo(events, forkLedger);
      var rolledBackCount := before - |events|;
      c' := c.(lastIndexed := forkLedger, hash := forkHash);
      checkpoints := checkpoints[contract := c'];
      if indexerCheckpoint.Some? {
        indexerCheckpoint := Some(forkLedger);
      }
      var event := ReorgEvent(contract, forkLedger, c.lastIndexed, c.hash.value, reported.value, rolledBackCount);
      reorgs := reorgs + [event];
      reorg := Some(event);
    }

    /** Rows of the answer up to `to` that are not stored yet; a failed request adds none. */
    method BackfillGap(b: Backfill, to: int) returns (count: nat)
      modifies this`events
      ensures events == AfterBackfill(old(events), b, to)
      ensures count == |events| - |old(events)|
    {
      hide HasKey;
      count := 0;
      var rawEvents := AnswerOf(b);
      var i := 0;
      while i < |rawEvents| && b.failAt != Some(i)
        invariant 0 <= i <= Handled(b)
        invariant events == Backfilled(old(events), rawEvents, to, i)
        invariant count == |events| - |old(events)|
      {
        var raw := rawEvents[i];
        if raw.ledger <= to && !HasKey(events, raw) {
          events := events + [raw];
          count := count + 1;
        }
        i := i + 1;
      }
    }

    /**
     * One run for one contract, once the checkpoint is loaded and a reorg dealt with. A node
     * that does not answer for the backfill still lets the checkpoint advance.
     */
    method Advance(contract: string, c: Checkpoint, head: Option<int>, size: Option<int>, b: Backfill,
                   hash: Option<string>)
      returns (window: Option<Window>)
      requires contract in checkpoints
      modifies this
      ensures View() == Advanced(old(View()), contract, c, head, size, b, hash)
      ensures window == if head.None? then None else NextWindow(c.lastIndexed, head.value, WindowSize(size))
    {
      hide AfterBackfill;
      window := None;
      if head.None? {
        return;
      }
      var c' := c.(chainHead := head.value);
      if c.lastIndexed >= head.value {
        c' := c'.(hash := if hash.Some? then hash else c.hash);
        checkpoints := checkpoints[contract := c'];
        return;
      }
      var from := Max(c.lastIndexed + 1, 1);
      var to := Min(from + WindowSize(size) - 1, head.value);
      window := Some(Window(from, to));
      var count := BackfillGap(b, to);
      c' := c'.(reconciledFrom := from, reconciledTo := to, backfillCount := count);
      if count >= 0 {
        c' := c'.(lastIndexed := to);
      }
      checkpoints := checkpoints[contract := c'.(hash := if hash.Some? then hash else c.hash)];
    }

    /** One cron run for one contract: load, look for a reorg, then take one window. */
    method RunReconciliation(contract: string, configured: bool, reported: Option<string>, depth: Option<int>,
                             forkHash: Option<string>, head: Option<int>, size: Option<int>, b: Backfill,
                             hash: Option<string>)
      returns (window: Option<Window>)
      modifies this
      ensures !configured ==>
                View() == old(View()).(checkpoints := old(checkpoints)[contract := old(CheckpointOf(View(), contract))])
      ensures configured ==>
                View() == Reconciled(old(View()), contract, reported, depth, forkHash, head, size, b, hash)
      ensures window == if !configured || head.None? then None
                        else NextWindow(RunStart(old(CheckpointOf(View(), contract)), reported, depth), head.value, WindowSize(size))
    {
      hide Advanced, KeepUpTo, CountAbove;
      window := None;
      var c := GetOrCreateCheckpoint(contract);
      if !configured {
        return;
      }
      ghost var before := old(View());
      var c', reorg := DetectAndHandleReorg(contract, c, reported, depth, forkHash);
      assert before.checkpoints[contract := c][contract := c'] == before.checkpoints[contract := c'];
      assert View() == AfterReorgTest(before, contract, reported, depth, forkHash);
      window := Advance(contract, c', head, size, b, hash);
    }
  }

  /** Where a run starts from: the fork of a rollback taken in the same run, else the checkpoint. */
  function RunStart(c: Checkpoint, reported: Option<string>, depth: Option<int>): int {
    if Diverged(c, reported) then
      ForkLedger(c.lastIndexed, DepthOf(depth))
    else c.lastIndexed
  }

  predicate UniqueKeys(events: seq<EventRow>) {
    forall i, j | 0 <= i < j < |events| :: events[i].ledger != events[j].ledger || events[i].logIndex != events[j].logIndex
  }

  // ---- what a backfill stores ----------------------------------------------

  lemma {:induction false} KeyStays(a: seq<EventRow>, b: seq<EventRow>, row: EventRow)
    requires a <= b && HasKey(a, row)
    ensures HasKey(b, row)
  {
    var i :| 0 <= i < |a| && a[i].ledger == row.ledger && a[i].logIndex == row.logIndex;
    assert b[i] == a[i];
  }

  /**
   * Every row of the answer gone through that lies in the window has its key stored afterwards;
   * nothing stored is lost and nothing else is added.
   */
  lemma {:induction false} BackfillStores(events: seq<EventRow>, answer: seq<EventRow>, to: int, n: nat)
    requires n <= |answer|
    ensures events <= Backfilled(events, answer, to, n)
    ensures forall i | 0 <= i < n && answer[i].ledger <= to :: HasKey(Backfilled(events, answer, to, n), answer[i])
    ensures forall i | |events| <= i < |Backfilled(events, answer, to, n)| ::
              Backfilled(events, answer, to, n)[i] in answer[..n] && Backfilled(events, answer, to, n)[i].ledger <= to
  {
    if n > 0 {
      var m := n - 1;
      BackfillStores(events, answer, to, m);
      var before, after := Backfilled(events, answer, to, m), Backfilled(events, answer, to, n);
      RowIsKeyed(before, answer[m], to);
      assert after == BackfillOne(before, answer[m], to);
      hide HasKey, Backfilled;
      forall i | 0 <= i < m && answer[i].ledger <= to ensures HasKey(after, answer[i]) {
        KeyStays(before, after, answer[i]);
      }
      assert answer[..n] == answer[..m] + [answer[m]];
    }
  }

  lemma {:induction false} RowIsKeyed(events: seq<EventRow>, row: EventRow, to: int)
    ensures events <= BackfillOne(events, row, to)
    ensures row.ledger <= to ==> HasKey(BackfillOne(events, row, to), row)
  {
    if row.ledger <= to && !HasKey(events, row) {
      assert (events + [row])[|events|] == row;
    }
  }

  /** No two stored rows come to share a key. */
  lemma {:induction false} BackfillKeepsKeys(events: seq<EventRow>, answer: seq<EventRow>, to: int, n: nat)
    requires n <= |answer| && UniqueKeys(events)
    ensures UniqueKeys(Backfilled(events, answer, to, n))
  {
    if n > 0 {
      BackfillKeepsKeys(events, answer, to, n - 1);
    }
  }

  /** The row at position `i` of the answer is stored: it lies in the window and its key is free, also among the rows before it. */
  predicate Stores(events: seq<EventRow>, answer: seq<EventRow>, to: int, i: nat)
    requires i < |answer|
  {
    answer[i].ledger <= to && !HasKey(events, answer[i]) && !HasKey(answer[..i], answer[i])
  }

  /** The rows that a backfill adds. */
  function NewRows(events: seq<EventRow>, answer: seq<EventRow>, to: int, n: nat): seq<EventRow>
    requires n <= |answer|
  {
    if n == 0 then []
    else NewRows(events, answer, to, n - 1) + (if Stores(events, answer, to, n - 1) then [answer[n - 1]] else [])
  }

  lemma {:induction false} KeyInConcat(a: seq<EventRow>, b: seq<EventRow>, row: EventRow)
    ensures HasKey(a + b, row) <==> HasKey(a, row) || HasKey(b, row)
  {
    if HasKey(a, row) {
      KeyStays(a, a + b, row);
    }
    if i :| 0 <= i < |b| && b[i].ledger == row.ledger && b[i].logIndex == row.logIndex {
      assert (a + b)[|a| + i] == b[i];
    }
    if i :| 0 <= i < |a + b| && (a + b)[i].ledger == row.ledger && (a + b)[i].logIndex == row.logIndex {
      if i < |a| {
        assert a[i] == (a + b)[i];
      } else {
        assert b[i - |a|] == (a + b)[i];
      }
    }
  }

  lemma {:induction false} KeyOfOne(x: EventRow, row: EventRow)
    ensures HasKey([x], row) <==> x.ledger == row.ledger && x.logIndex == row.logIndex
  {
    assert [x][0] == x;
  }

  /** A key is stored afterwards exactly when it was before or a row gone through, of the window, has it. */
  lemma {:induction false} KeyStoredIff(events: seq<EventRow>, answer: seq<EventRow>, to: int, n: nat, row: EventRow)
    requires n <= |answer|
    ensures HasKey(Backfilled(events, answer, to, n), row) <==>
            HasKey(events, row) || (row.ledger <= to && HasKey(answer[..n], row))
  {
    if n > 0 {
      var m := n - 1;
      var before, x := Backfilled(events, answer, to, m), answer[m];
      KeyStoredIff(events, answer, to, m, row);
      KeyStoredIff(events, answer, to, m, x);
      assert answer[..n] == answer[..m] + [x];
      KeyInConcat(answer[..m], [x], row);
      KeyInConcat(before, [x], row);
      KeyOfOne(x, row);
      SameKey(before, x, row);
      assert Backfilled(events, answer, to, n) == BackfillOne(before, x, to);
      hide HasKey, Backfilled;
    }
  }

  lemma {:induction false} SameKey(events: seq<EventRow>, x: EventRow, row: EventRow)
    ensures x.ledger == row.ledger && x.logIndex == row.logIndex ==> (HasKey(events, x) <==> HasKey(events, row))
  {
  }

  /**
   * What a backfill adds, for any table and any answer: exactly the rows gone through that lie
   * in the window and whose key was free before and is not that of an earlier answered row.
   * Rows sent without an index share index 0, and keys are shared by all contracts.
   */
  lemma {:induction false} BackfillAddsExactly(events: seq<EventRow>, answer: seq<EventRow>, to: int, n: nat)
    requires n <= |answer|
    ensures Backfilled(events, answer, to, n) == events + NewRows(events, answer, to, n)
  {
    if n == 0 {
      assert events + [] == events;
    } else {
      var m := n - 1;
      BackfillAddsExactly(events, answer, to, m);
      KeyStoredIff(events, answer, to, m, answer[m]);
      hide HasKey;
      Associate(events, NewRows(events, answer, to, m), if Stores(events, answer, to, m) then [answer[m]] else []);
    }
  }

  /** The node answers with the first 100 of the contract's rows from the start of the window. */
  function FirstBatch(rows: seq<EventRow>): seq<EventRow> {
    rows[..Min(BACKFILL_BATCH_SIZE, |rows|)]
  }

  /**
   * `rows` are the contract's rows on the chain from the start of the window. However the
   * backfill went, the keys of all of them up to the end of the window are stored afterwards if
   * and only if those of the rows it did not go through were stored before or are keys of rows
   * it did go through: those past the first 100, those from the row at which the database failed
   * on, or all of them if the request failed. The request is not repeated for the rest, although
   * the checkpoint moves past the window.
   */
  lemma {:induction false} WindowKeysStoredIff(events: seq<EventRow>, rows: seq<EventRow>, b: Backfill, to: int)
    requires b.answer.Some? ==> b.answer.value == FirstBatch(rows)
    ensures
      var after := AfterBackfill(events, b, to);
      (forall i | 0 <= i < |rows| && rows[i].ledger <= to :: HasKey(after, rows[i])) <==>
      (forall i | Handled(b) <= i < |rows| && rows[i].ledger <= to ::
         HasKey(events, rows[i]) || HasKey(rows[..Handled(b)], rows[i]))
  {
    var answer, n := AnswerOf(b), Handled(b);
    assert answer[..n] == rows[..n];
    forall i | 0 <= i < |rows| && rows[i].ledger <= to
      ensures HasKey(AfterBackfill(events, b, to), rows[i]) <==> HasKey(events, rows[i]) || HasKey(rows[..n], rows[i])
      ensures i < n ==> HasKey(rows[..n], rows[i])
    {
      KeyStoredIff(events, answer, to, n, rows[i]);
      if i < n {
        assert rows[..n][i] == rows[i];
      }
    }
  }

  /** What one run leaves of other contracts, of the indexer's checkpoint and of the stored rows. */
  lemma {:induction false} RunLeavesOthers(s: State, contract: string, reported: Option<string>, depth: Option<int>,
                                           forkHash: Option<string>, head: Option<int>, size: Option<int>, b: Backfill,
                                           hash: Option<string>, other: string)
    ensures
      var c := CheckpointOf(s, contract);
      var s' := Reconciled(s, contract, reported, depth, forkHash, head, size, b, hash);
      && (other != contract ==> CheckpointOf(s', other) == CheckpointOf(s, other))
      && |s'.reorgs| == |s.reorgs| + (if Diverged(c, reported) then 1 else 0)
      && s'.indexerCheckpoint == (if Diverged(c, reported) && s.indexerCheckpoint.Some?
                                  then Some(RunStart(c, reported, depth)) else s.indexerCheckpoint)
      && (if Diverged(c, reported) then KeepUpTo(s.events, RunStart(c, reported, depth)) else s.events) <= s'.events
  {
    hide KeepUpTo, CountAbove, Backfilled, HasKey;
    var c := CheckpointOf(s, contract);
    var s1 := AfterReorgTest(s, contract, reported, depth, forkHash);
    var c1 := CheckpointOf(s1, contract);
    if head.Some? && c1.lastIndexed < head.value {
      var w := NextWindow(c1.lastIndexed, head.value, WindowSize(size)).value;
      BackfillStores(s1.events, AnswerOf(b), w.to, Handled(b));
    }
  }

  // ---- successive windows tile the ledgers ---------------------------------

  /** The windows of successive runs against the heads seen, from checkpoint `last`. */
  function Windows(last: int, heads: seq<int>, size: int): seq<Window>
    decreases heads
  {
    if heads == [] then []
    else
      match NextWindow(last, heads[0], size)
      case None => Windows(last, heads[1..], size)
      case Some(w) => [w] + Windows(w.to, heads[1..], size)
  }

  function FinalLast(last: int, heads: seq<int>, size: int): int
    decreases heads
  {
    if heads == [] then last
    else
      match NextWindow(last, heads[0], size)
      case None => FinalLast(last, heads[1..], size)
      case Some(w) => FinalLast(w.to, heads[1..], size)
  }

  predicate Inside(ledger: int, w: Window) {
    w.from <= ledger <= w.to
  }

  /** How many windows hold a ledger. */
  function TimesCovered(ws: seq<Window>, ledger: int): nat {
    if ws == [] then 0 else (if Inside(ledger, ws[0]) then 1 else 0) + TimesCovered(ws[1..], ledger)
  }

  /** Between reorgs, every ledger past the checkpoint up to where it ends is covered exactly once, no other at all. */
  lemma {:induction false} WindowsTile(last: int, heads: seq<int>, size: int, ledger: int)
    requires last >= 0 && size > 0
    ensures FinalLast(last, heads, size) >= last
    ensures TimesCovered(Windows(last, heads, size), ledger) ==
            if last < ledger <= FinalLast(last, heads, size) then 1 else 0
    decreases heads
  {
    if heads != [] {
      match NextWindow(last, heads[0], size)
      case None => WindowsTile(last, heads[1..], size, ledger);
      case Some(w) =>
        WindowsTile(w.to, heads[1..], size, ledger);
        var ws := Windows(last, heads, size);
        assert ws[0] == w && ws[1..] == Windows(w.to, heads[1..], size);
    }
  }

  /** `runs` runs against one head. */
  function Constant(head: int, runs: nat): seq<int> {
    seq(runs, _ => head)
  }

  lemma {:induction false} ConstantTail(head: int, runs: nat)
    requires runs > 0
    ensures Constant(head, runs)[0] == head && Constant(head, runs)[1..] == Constant(head, runs - 1)
  {
  }

  /** A fixed head is reached after exactly ceil(lag / window) runs, and kept. */
  lemma {:induction false} HeadReachedIff(last: int, head: int, size: int, runs: nat)
    requires 0 <= last <= head && size > 0
    ensures FinalLast(last, Constant(head, runs), size) == head <==> runs >= CeilDiv(head - last, size)
    decreases runs
  {
    CeilDivStep(head - last, size);
    if runs > 0 {
      ConstantTail(head, runs);
      if last < head {
        HeadReachedIff(Min(last + size, head), head, size, runs - 1);
      } else {
        HeadReachedIff(last, head, size, runs - 1);
      }
    }
  }

  // ---- contracts share one event table -------------------------------------

  lemma {:induction false} NothingAboveFork(events: seq<EventRow>, fork: int, row: EventRow)
    requires row in KeepUpTo(events, fork)
    ensures row in events && row.ledger <= fork
  {
    KeepUpToIsExact(events, fork, row);
    assert row in multiset(KeepUpTo(events, fork));
  }
}
