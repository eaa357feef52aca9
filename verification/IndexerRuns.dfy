/** Whole runs of the indexer: interrupted fetches, resumed fetches and batches. */
module IndexerRuns {
  import opened Prelude
  import opened EventPaging
  import opened Indexer
  import L = Listener

  /**
   * One poll: it may fail before it stores anything, at some row, or at the checkpoint; if the fetch
   * completes, a pending batch is applied.
   */
  datatype Tick =
    | Threw
    | Polled(log: seq<RpcEvent>, latest: int, abortAt: Option<nat>, picked: seq<nat>, outcomes: Outcomes)

  function BatchOf(c: int, tick: Tick): seq<RpcEvent>
    requires tick.Polled?
  {
    L.Between(tick.log, c, tick.latest)
  }

  predicate Aborted(c: int, tick: Tick)
    requires tick.Polled?
  {
    FetchFails(c, BatchOf(c, tick), tick.latest, tick.abortAt)
  }

  function Fetched(s: State, tick: Tick): State
    requires tick.Polled?
  {
    Fetch(s, BatchOf(s.checkpoint, tick), Some(tick.latest), tick.abortAt)
  }

  function Next(s: State, tick: Tick): State {
    if tick.Threw? then s
    else if Aborted(s.checkpoint, tick) then Fetched(s, tick)
    else ProcessBatch(Fetched(s, tick), tick.picked, tick.outcomes)
  }

  /** The chain only grows, closed ledgers stay closed, the tip does not go back. */
  ghost predicate ValidTick(s: State, log: seq<RpcEvent>, tip: int, tick: Tick) {
    tick.Polled? ==>
      && L.Grows(log, tip, tick.log) && tick.latest >= tip
      && (!Aborted(s.checkpoint, tick) ==> IsBatch(Fetched(s, tick).rows, tick.picked))
  }

  function LogAfter(log: seq<RpcEvent>, tick: Tick): seq<RpcEvent> {
    if tick.Polled? then tick.log else log
  }

  function TipAfter(tip: int, tick: Tick): int {
    if tick.Polled? then tick.latest else tip
  }

  ghost predicate ValidRun(s: State, log: seq<RpcEvent>, tip: int, ticks: seq<Tick>)
    decreases ticks
  {
    ticks == [] ||
    (ValidTick(s, log, tip, ticks[0])
     && ValidRun(Next(s, ticks[0]), LogAfter(log, ticks[0]), TipAfter(tip, ticks[0]), ticks[1..]))
  }

  function Run(s: State, ticks: seq<Tick>): State
    decreases ticks
  {
    if ticks == [] then s else Run(Next(s, ticks[0]), ticks[1..])
  }

  function FinalLog(log: seq<RpcEvent>, ticks: seq<Tick>): seq<RpcEvent>
    decreases ticks
  {
    if ticks == [] then log else FinalLog(LogAfter(log, ticks[0]), ticks[1..])
  }

  function FinalTip(tip: int, ticks: seq<Tick>): int
    decreases ticks
  {
    if ticks == [] then tip else FinalTip(TipAfter(tip, ticks[0]), ticks[1..])
  }

  // ---- the table is a prefix of the log -------------------------------------

  function Events(rows: seq<Row>): (r: seq<RpcEvent>)
    ensures |r| == |rows|
  {
    seq(|rows|, i requires 0 <= i < |rows| => rows[i].event)
  }

  /** The log up to the checkpoint, then the part of an interrupted batch stored so far. */
  ghost predicate Stored(rows: seq<Row>, c: int, log: seq<RpcEvent>, tip: int) {
    && 0 <= c <= tip && L.Ordered(log)
    && |L.UpTo(log, c)| <= |rows|
    && Events(rows[..|L.UpTo(log, c)|]) == L.UpTo(log, c)
    && IsPart(rows[|L.UpTo(log, c)|..], L.Between(log, c, tip))
  }

  lemma {:induction false} StartIsStored(log: seq<RpcEvent>)
    requires L.Ordered(log)
    ensures Stored([], 0, log, 0)
  {
    L.BetweenNone(log, 0, 0);
  }

  lemma {:induction false} ClosedPartIsFixed(log: seq<RpcEvent>, tip: int, log': seq<RpcEvent>, c: int)
    requires L.Grows(log, tip, log')
    ensures L.Between(log', c, tip) == L.Between(log, c, tip)
  {
    var tail := log'[|log|..];
    assert log' == log + tail;
    L.BetweenAppend(log, tail, c, tip);
    forall e | e in tail ensures e.ledger > tip {
      var i :| 0 <= i < |tail| && tail[i] == e;
      assert log'[|log| + i] == e;
    }
    L.BetweenNone(tail, c, tip);
  }

  /** A longer log and a later tip only extend what an interrupted batch will become. */
  lemma {:induction false} StoredGrows(rows: seq<Row>, c: int, log: seq<RpcEvent>, tip: int, log': seq<RpcEvent>, tip': int)
    requires Stored(rows, c, log, tip) && L.Grows(log, tip, log') && tip <= tip'
    ensures Stored(rows, c, log', tip')
  {
    hide L.Between;
    L.SealedPartIsFixed(log, tip, log', c);
    ClosedPartIsFixed(log, tip, log', c);
    L.BetweenJoin(log', c, tip, tip');
    var part := rows[|L.UpTo(log, c)|..];
    var short, long := L.Between(log, c, tip), L.Between(log', c, tip');
    assert short <= long;
    forall i | 0 <= i < |part| ensures part[i].event == long[i] && part[i].logIndex == i {
      assert long[i] == short[i];
    }
  }

  lemma {:induction false} LedgersSplit(rows: seq<Row>, c: int, log: seq<RpcEvent>, tip: int)
    requires Stored(rows, c, log, tip)
    ensures forall r | r in rows[..|L.UpTo(log, c)|] :: r.event.ledger <= c
    ensures forall e | e in L.Between(log, c, tip) :: e.ledger > c
  {
    hide L.Between, IsPart;
    var done := rows[..|L.UpTo(log, c)|];
    forall r | r in done ensures r.event.ledger <= c {
      var i :| 0 <= i < |done| && done[i] == r;
      assert Events(done)[i] == r.event;
      assert r.event in L.UpTo(log, c);
      L.BetweenMember(log, 0, c, r.event);
    }
    forall e | e in L.Between(log, c, tip) ensures e.ledger > c {
      L.BetweenMember(log, c, tip, e);
    }
  }

  lemma {:induction false} PersistIsPart(done: seq<Row>, part: seq<Row>, batch: seq<RpcEvent>, c: int, n: nat)
    requires IsPart(part, batch) && n <= |batch|
    requires forall r | r in done :: r.event.ledger <= c
    requires forall e | e in batch :: e.ledger > c
    ensures
      var rows := Persist(done + part, batch, n);
      |done| <= |rows| && rows[..|done|] == done && IsPart(rows[|done|..], batch) && |rows| == |done| + Max(|part|, n)
  {
    hide Persist;
    var rows := Persist(done + part, batch, n);
    if n <= |part| {
      PartIsSkipped(done, part, batch, n);
      assert rows[|done|..] == part;
    } else {
      PersistResumes(done, part, batch, c, n);
      var added := NewRows(batch, |part|, n);
      assert rows[|done|..] == part + added;
      forall i | 0 <= i < |part + added| ensures (part + added)[i].event == batch[i] && (part + added)[i].logIndex == i {
        if i >= |part| {
          assert (part + added)[i] == added[i - |part|];
        }
      }
    }
  }

  /** An interrupted or completed fetch keeps the table a prefix of the log. */
  lemma {:induction false} FetchKeepsStored(rows: seq<Row>, c: int, log: seq<RpcEvent>, tip: int, n: nat)
    requires Stored(rows, c, log, tip) && n <= |L.Between(log, c, tip)|
    ensures Stored(Persist(rows, L.Between(log, c, tip), n), c, log, tip)
    ensures n == |L.Between(log, c, tip)| ==> Stored(Persist(rows, L.Between(log, c, tip), n), tip, log, tip)
  {
    hide L.Between, Persist;
    var m := |L.UpTo(log, c)|;
    var done, part, batch := rows[..m], rows[m..], L.Between(log, c, tip);
    assert rows == done + part;
    LedgersSplit(rows, c, log, tip);
    PersistIsPart(done, part, batch, c, n);
    var after := Persist(rows, batch, n);
    if n == |batch| {
      L.BetweenJoin(log, 0, c, tip);
      assert |after| == |L.UpTo(log, tip)|;
      assert after[..|after|] == after == done + after[m..];
      EventsJoin(done, after[m..]);
      assert Events(after[m..]) == batch;
    }
  }

  lemma {:induction false} EventsJoin(a: seq<Row>, b: seq<Row>)
    ensures Events(a + b) == Events(a) + Events(b)
  {
  }

  lemma {:induction false} ApplyKeepsStored(rows: seq<Row>, c: int, log: seq<RpcEvent>, tip: int, tried: seq<nat>, outcomes: Outcomes)
    requires Stored(rows, c, log, tip)
    ensures Stored(ApplyRows(rows, tried, outcomes), c, log, tip)
  {
    hide L.Between;
    var m := |L.UpTo(log, c)|;
    var after := ApplyRows(rows, tried, outcomes);
    assert Events(after[..m]) == Events(rows[..m]);
    var part, part' := rows[m..], after[m..];
    forall i | 0 <= i < |part'| ensures part'[i].event == part[i].event && part'[i].logIndex == part[i].logIndex {
      assert part'[i] == after[m + i] && part[i] == rows[m + i];
    }
  }

  /** The checkpoint a completed fetch sets is the tip. */
  lemma {:induction false} CompletedCheckpoint(c: int, log: seq<RpcEvent>, tip: int)
    requires c <= tip
    ensures Max(L.HighestLedger(c, L.Between(log, c, tip)), tip) == tip
  {
    hide L.Between, L.HighestLedger;
    var batch := L.Between(log, c, tip);
    forall e | e in batch ensures e.ledger <= tip {
      L.BetweenMember(log, c, tip, e);
    }
  }

  lemma {:induction false} TickKeepsStored(s: State, log: seq<RpcEvent>, tip: int, tick: Tick)
    requires Stored(s.rows, s.checkpoint, log, tip) && ValidTick(s, log, tip, tick)
    ensures Stored(Next(s, tick).rows, Next(s, tick).checkpoint, LogAfter(log, tick), TipAfter(tip, tick))
  {
    hide L.Between, L.HighestLedger, Persist, ApplyRows, IsBatch, L.Grows, Attempted;
    if tick.Polled? {
      StoredGrows(s.rows, s.checkpoint, log, tip, tick.log, tick.latest);
      var batch := BatchOf(s.checkpoint, tick);
      var n := if Aborted(s.checkpoint, tick) then tick.abortAt.value else |batch|;
      FetchKeepsStored(s.rows, s.checkpoint, tick.log, tick.latest, n);
      CompletedCheckpoint(s.checkpoint, tick.log, tick.latest);
      hide Stored;
      if !Aborted(s.checkpoint, tick) {
        var f := Fetched(s, tick);
        assert f.checkpoint == tick.latest && f.rows == Persist(s.rows, batch, n);
        ApplyKeepsStored(f.rows, f.checkpoint, tick.log, tick.latest, Attempted(tick.picked, tick.outcomes), tick.outcomes);
      }
    }
  }

  lemma {:induction false} StoredIsPrefix(rows: seq<Row>, c: int, log: seq<RpcEvent>, tip: int)
    requires Stored(rows, c, log, tip)
    ensures L.UpTo(log, c) <= Events(rows) <= L.UpTo(log, tip)
  {
    hide L.Between;
    var m := |L.UpTo(log, c)|;
    assert rows == rows[..m] + rows[m..];
    EventsJoin(rows[..m], rows[m..]);
    L.BetweenJoin(log, 0, c, tip);
    assert Events(rows[m..]) <= L.Between(log, c, tip);
  }

  /**
   * Through any run of interrupted, resumed and completed fetches the stored events are
   * a prefix of the log that reaches at least to the checkpoint: every event at or
   * below it is stored, once, in log order.
   */
  lemma {:induction false} TableIsLogPrefix(s: State, log: seq<RpcEvent>, tip: int, ticks: seq<Tick>)
    requires Stored(s.rows, s.checkpoint, log, tip) && ValidRun(s, log, tip, ticks)
    ensures
      var end, endLog := Run(s, ticks), FinalLog(log, ticks);
      L.UpTo(endLog, end.checkpoint) <= Events(end.rows) <= L.UpTo(endLog, FinalTip(tip, ticks))
    decreases ticks
  {
    hide Stored, Next, ValidTick, L.Between, Events;
    if ticks == [] {
      StoredIsPrefix(s.rows, s.checkpoint, log, tip);
    } else {
      TickKeepsStored(s, log, tip, ticks[0]);
      TableIsLogPrefix(Next(s, ticks[0]), LogAfter(log, ticks[0]), TipAfter(tip, ticks[0]), ticks[1..]);
    }
  }

  /** From an empty table and checkpoint 0. */
  lemma {:induction false} TableIsLogPrefixFromEmpty(log: seq<RpcEvent>, ticks: seq<Tick>)
    requires L.Ordered(log) && ValidRun(State([], 0, 0, []), log, 0, ticks)
    ensures
      var end, endLog := Run(State([], 0, 0, []), ticks), FinalLog(log, ticks);
      L.UpTo(endLog, end.checkpoint) <= Events(end.rows) <= L.UpTo(endLog, FinalTip(0, ticks))
  {
    StartIsStored(log);
    hide Stored, Next, ValidTick, L.Between, Events, ValidRun, Run;
    TableIsLogPrefix(State([], 0, 0, []), log, 0, ticks);
  }

  // ---- when a row is attempted again -----------------------------------------

  /** The newest attempt of a row. */
  function LastTry(attempts: seq<Try>, i: nat): Option<Attempt> {
    if attempts == [] then None
    else if attempts[|attempts| - 1].row == i then Some(attempts[|attempts| - 1].outcome)
    else LastTry(attempts[..|attempts| - 1], i)
  }

  /** A row stands as its newest attempt left it: untouched if that attempt was lost, or if there was none. */
  predicate RowFits(row: Row, last: Option<Attempt>) {
    if last.None? || Lost(last.value) then row.status == Pending && row.retryCount == 0
    else if last.value.applied && last.value.saved then row.status == Processed && row.retryCount == 0
    else row.status == Status.Failed && row.retryCount == 1
  }

  /** Every attempt of a row but its newest was lost. */
  ghost predicate OnlyAfterLoss(attempts: seq<Try>) {
    forall a, b | 0 <= a < b < |attempts| && attempts[a].row == attempts[b].row :: Lost(attempts[a].outcome)
  }

  ghost predicate Tried(rows: seq<Row>, attempts: seq<Try>) {
    && OnlyAfterLoss(attempts) && UniqueKeys(rows)
    && (forall a | 0 <= a < |attempts| :: attempts[a].row < |rows|)
    && (forall i | 0 <= i < |rows| :: RowFits(rows[i], LastTry(attempts, i)))
  }

  lemma {:induction false} PersistAddsPending(rows: seq<Row>, events: seq<RpcEvent>, n: nat)
    requires n <= |events|
    ensures rows <= Persist(rows, events, n)
    ensures forall i | |rows| <= i < |Persist(rows, events, n)| ::
              Persist(rows, events, n)[i].status.Pending? && Persist(rows, events, n)[i].retryCount == 0
  {
    hide HasKey;
    if n > 0 {
      PersistAddsPending(rows, events, n - 1);
    }
  }

  lemma {:induction false} NeverTried(attempts: seq<Try>, i: nat)
    requires forall a | 0 <= a < |attempts| :: attempts[a].row != i
    ensures LastTry(attempts, i) == None
  {
    if attempts != [] {
      NeverTried(attempts[..|attempts| - 1], i);
    }
  }

  lemma {:induction false} PersistKeepsTried(rows: seq<Row>, attempts: seq<Try>, events: seq<RpcEvent>, n: nat)
    requires Tried(rows, attempts) && n <= |events|
    ensures Tried(Persist(rows, events, n), attempts)
  {
    hide Persist, HasKey, OnlyAfterLoss, LastTry;
    PersistAddsPending(rows, events, n);
    PersistKeepsKeys(rows, events, n);
    var after := Persist(rows, events, n);
    forall i | 0 <= i < |after| ensures RowFits(after[i], LastTry(attempts, i)) {
      if i < |rows| {
        assert after[i] == rows[i] && RowFits(rows[i], LastTry(attempts, i));
      } else {
        NeverTried(attempts, i);
      }
    }
  }

  /** The newest of some attempts is one of them, and none after it is of the same row. */
  lemma {:induction false} LastTryIs(attempts: seq<Try>, a: nat)
    requires a < |attempts| && forall b | a < b < |attempts| :: attempts[b].row != attempts[a].row
    ensures LastTry(attempts, attempts[a].row) == Some(attempts[a].outcome)
  {
    if a < |attempts| - 1 {
      LastTryIs(attempts[..|attempts| - 1], a);
    }
  }

  lemma {:induction false} LastTryOfOthers(attempts: seq<Try>, more: seq<Try>, i: nat)
    requires forall b | 0 <= b < |more| :: more[b].row != i
    ensures LastTry(attempts + more, i) == LastTry(attempts, i)
  {
    if more == [] {
      assert attempts + more == attempts;
    } else {
      var n := |more| - 1;
      LastTryOfOthers(attempts, more[..n], i);
      assert (attempts + more)[..|attempts| + n] == attempts + more[..n];
    }
  }

  /** If a row's newest attempt was lost, or there was none, all its attempts were lost. */
  lemma {:induction false} LostThroughout(attempts: seq<Try>, i: nat, a: nat)
    requires OnlyAfterLoss(attempts) && a < |attempts| && attempts[a].row == i
    requires LastTry(attempts, i).None? || Lost(LastTry(attempts, i).value)
    ensures Lost(attempts[a].outcome)
  {
    if b :| a < b < |attempts| && attempts[b].row == i {
    } else {
      LastTryIs(attempts, a);
    }
  }

  lemma {:induction false} TriedArePending(rows: seq<Row>, attempts: seq<Try>, picked: seq<nat>, outcomes: Outcomes)
    requires Tried(rows, attempts) && IsBatch(rows, picked)
    ensures
      var tried := Attempted(picked, outcomes);
      NoRepeats(tried) && forall x | x in tried :: x < |rows| && rows[x].status.Pending? && rows[x].retryCount == 0
                                                   && (LastTry(attempts, x).None? || Lost(LastTry(attempts, x).value))
  {
    hide LedgerAt, UniqueKeys, OnlyAfterLoss, LastTry, Recorded;
    var tried := Attempted(picked, outcomes);
    forall x | x in tried ensures x < |rows| && rows[x].status.Pending? && rows[x].retryCount == 0
                                  && (LastTry(attempts, x).None? || Lost(LastTry(attempts, x).value)) {
      assert x in picked;
      assert x in PendingRows(rows);
      assert RowFits(rows[x], LastTry(attempts, x));
    }
  }

  lemma {:induction false} TriesKeepOnlyAfterLoss(attempts: seq<Try>, tried: seq<nat>, outcomes: Outcomes)
    requires OnlyAfterLoss(attempts) && NoRepeats(tried)
    requires forall x | x in tried :: LastTry(attempts, x).None? || Lost(LastTry(attempts, x).value)
    ensures OnlyAfterLoss(attempts + Tries(tried, outcomes))
  {
    hide LastTry, Lost;
    var all := attempts + Tries(tried, outcomes);
    forall a, b | 0 <= a < b < |all| && all[a].row == all[b].row ensures Lost(all[a].outcome) {
      if a < |attempts| {
        if b >= |attempts| {
          assert all[b].row == tried[b - |attempts|];
          assert all[b].row in tried;
          LostThroughout(attempts, all[b].row, a);
        }
      }
    }
  }

  lemma {:induction false} LastTryAfter(attempts: seq<Try>, tried: seq<nat>, outcomes: Outcomes, i: nat)
    requires NoRepeats(tried)
    ensures LastTry(attempts + Tries(tried, outcomes), i) ==
            if i in tried then Some(outcomes(i)) else LastTry(attempts, i)
  {
    hide LastTry;
    var more := Tries(tried, outcomes);
    if i in tried {
      var k :| 0 <= k < |tried| && tried[k] == i;
      var all := attempts + more;
      assert all[|attempts| + k] == more[k];
      forall b | |attempts| + k < b < |all| ensures all[b].row != i {
        assert all[b] == more[b - |attempts|];
        assert tried[k] != tried[b - |attempts|];
      }
      LastTryIs(all, |attempts| + k);
    } else {
      LastTryOfOthers(attempts, more, i);
    }
  }

  lemma {:induction false} BatchKeepsTried(rows: seq<Row>, attempts: seq<Try>, picked: seq<nat>, outcomes: Outcomes)
    requires Tried(rows, attempts) && IsBatch(rows, picked)
    ensures
      var tried := Attempted(picked, outcomes);
      Tried(ApplyRows(rows, tried, outcomes), attempts + Tries(tried, outcomes))
  {
    var tried := Attempted(picked, outcomes);
    TriedArePending(rows, attempts, picked, outcomes);
    TriesKeepOnlyAfterLoss(attempts, tried, outcomes);
    hide IsBatch, NoRepeats, Attempted, OnlyAfterLoss, LastTry;
    var after := ApplyRows(rows, tried, outcomes);
    forall i | 0 <= i < |after| ensures RowFits(after[i], LastTry(attempts + Tries(tried, outcomes), i)) {
      assert RowFits(rows[i], LastTry(attempts, i));
      LastTryAfter(attempts, tried, outcomes, i);
    }
    KeysSurvive(rows, tried, outcomes);
    forall a | 0 <= a < |attempts + Tries(tried, outcomes)| ensures (attempts + Tries(tried, outcomes))[a].row < |after| {
      if a >= |attempts| {
        assert tried[a - |attempts|] in tried;
      }
    }
  }

  lemma {:induction false} KeysSurvive(rows: seq<Row>, tried: seq<nat>, outcomes: Outcomes)
    requires UniqueKeys(rows)
    ensures UniqueKeys(ApplyRows(rows, tried, outcomes))
  {
    var after := ApplyRows(rows, tried, outcomes);
    forall i, j | 0 <= i < j < |after|
      ensures after[i].event.ledger != after[j].event.ledger || after[i].logIndex != after[j].logIndex
    {
      assert after[i].event == rows[i].event && after[i].logIndex == rows[i].logIndex;
      assert after[j].event == rows[j].event && after[j].logIndex == rows[j].logIndex;
    }
  }

  /**
   * In every run, with any status writes failing: a row is pending exactly when it was never
   * attempted or its newest attempt lost its status write, so a row is attempted again only,
   * and whenever it is picked, after such a loss. Otherwise it is processed or failed as that
   * attempt was recorded. Nothing moves a failed row back to pending, so no row ever reaches
   * the dead-letter state. No two rows share a key.
   */
  lemma {:induction false} AttemptedAgainIffLost(s: State, log: seq<RpcEvent>, tip: int, ticks: seq<Tick>)
    requires Tried(s.rows, s.attempts) && ValidRun(s, log, tip, ticks)
    ensures Tried(Run(s, ticks).rows, Run(s, ticks).attempts)
    decreases ticks
  {
    hide Tried, L.Between, L.HighestLedger, Persist, ApplyRows, IsBatch, L.Grows, Attempted, Tries;
    if ticks != [] {
      var tick := ticks[0];
      if tick.Polled? {
        var batch := BatchOf(s.checkpoint, tick);
        var n := if Aborted(s.checkpoint, tick) then tick.abortAt.value else |batch|;
        PersistKeepsTried(s.rows, s.attempts, batch, n);
        if !Aborted(s.checkpoint, tick) {
          BatchKeepsTried(Fetched(s, tick).rows, s.attempts, tick.picked, tick.outcomes);
        }
      }
      AttemptedAgainIffLost(Next(s, tick), LogAfter(log, tick), TipAfter(tip, tick), ticks[1..]);
    }
  }

  /** How often a row's effects were applied. */
  function TimesApplied(attempts: seq<Try>, i: nat): nat {
    if attempts == [] then 0
    else TimesApplied(attempts[..|attempts| - 1], i)
         + (if attempts[|attempts| - 1].row == i && attempts[|attempts| - 1].outcome.applied then 1 else 0)
  }

  /** How often they were applied and the status write was lost. */
  function TimesLost(attempts: seq<Try>, i: nat): nat {
    if attempts == [] then 0
    else TimesLost(attempts[..|attempts| - 1], i)
         + (if attempts[|attempts| - 1].row == i && attempts[|attempts| - 1].outcome.applied
               && Lost(attempts[|attempts| - 1].outcome) then 1 else 0)
  }

  lemma {:induction false} AllLost(attempts: seq<Try>, i: nat)
    requires forall a | 0 <= a < |attempts| && attempts[a].row == i :: Lost(attempts[a].outcome)
    ensures TimesApplied(attempts, i) == TimesLost(attempts, i)
  {
    if attempts != [] {
      AllLost(attempts[..|attempts| - 1], i);
    }
  }

  lemma {:induction false} PrefixOnlyAfterLoss(attempts: seq<Try>)
    requires OnlyAfterLoss(attempts) && attempts != []
    ensures OnlyAfterLoss(attempts[..|attempts| - 1])
  {
    var init := attempts[..|attempts| - 1];
    forall a, b | 0 <= a < b < |init| && init[a].row == init[b].row ensures Lost(init[a].outcome) {
      assert attempts[a].row == attempts[b].row;
    }
  }

  /** A row's effects are applied once more than their status write is lost, at most: exactly once if none is. */
  lemma {:induction false} AppliedOncePlusLosses(attempts: seq<Try>, i: nat)
    requires OnlyAfterLoss(attempts)
    ensures TimesApplied(attempts, i) <= TimesLost(attempts, i) + 1
  {
    if attempts != [] {
      var n := |attempts| - 1;
      var init := attempts[..n];
      PrefixOnlyAfterLoss(attempts);
      if attempts[n].row == i {
        forall a | 0 <= a < |init| && init[a].row == i ensures Lost(init[a].outcome) {
          assert attempts[a].row == attempts[n].row;
        }
        AllLost(init, i);
      } else {
        AppliedOncePlusLosses(init, i);
      }
    }
  }

  /** In every run from an empty table a row's effects are applied at most once more than their status write is lost. */
  lemma {:induction false} AppliedOnceUnlessLost(log: seq<RpcEvent>, ticks: seq<Tick>, i: nat)
    requires L.Ordered(log) && ValidRun(State([], 0, 0, []), log, 0, ticks)
    ensures
      var attempts := Run(State([], 0, 0, []), ticks).attempts;
      TimesApplied(attempts, i) <= TimesLost(attempts, i) + 1
  {
    hide ValidRun, Run, TimesApplied, TimesLost;
    AttemptedAgainIffLost(State([], 0, 0, []), log, 0, ticks);
    AppliedOncePlusLosses(Run(State([], 0, 0, []), ticks).attempts, i);
  }

  /**
   * One pending row, two batches: the effects are applied and both status writes fail, so the
   * row is picked, and its effects applied, again.
   */
  lemma {:induction false} LostWriteAppliesTwice(e: RpcEvent, checkpoint: int)
    ensures
      var s := State([Row(e, 0, Pending, 0)], checkpoint, checkpoint, []);
      var lost: Outcomes, fine: Outcomes := _ => Attempt(true, false, false), _ => Attempt(true, true, true);
      var s1 := ProcessBatch(s, [0], lost);
      var s2 := ProcessBatch(s1, [0], fine);
      && IsBatch(s.rows, [0]) && IsBatch(s1.rows, [0])
      && s2.rows == [Row(e, 0, Processed, 0)] && TimesApplied(s2.attempts, 0) == 2
  {
    var s := State([Row(e, 0, Pending, 0)], checkpoint, checkpoint, []);
    var lost: Outcomes, fine: Outcomes := _ => Attempt(true, false, false), _ => Attempt(true, true, true);
    assert PendingRows(s.rows) == {0};
    assert Recorded([0], lost) == 0 && Recorded([0], fine) == 1;
    assert Attempted([0], lost) == [0] && Attempted([0], fine) == [0];
    var s1 := ProcessBatch(s, [0], lost);
    assert s1.rows == s.rows && s1.attempts == [Try(0, lost(0))];
    var s2 := ProcessBatch(s1, [0], fine);
    assert s2.rows == [Row(e, 0, Processed, 0)];
    assert s2.attempts == [Try(0, lost(0)), Try(0, fine(0))];
    TwiceApplied(s2.attempts);
  }

  lemma {:induction false} TwiceApplied(attempts: seq<Try>)
    requires |attempts| == 2 && forall a | 0 <= a < 2 :: attempts[a].row == 0 && attempts[a].outcome.applied
    ensures TimesApplied(attempts, 0) == 2
  {
    var first := attempts[..1];
    assert TimesApplied(first[..0], 0) == 0;
    assert first[..|first| - 1] == first[..0];
    assert TimesApplied(first, 0) == 1;
  }

  /** A row whose effects were applied is stored as failed exactly when its first status write failed and the second did not. */
  lemma {:induction false} AppliedRowFailsIff(row: Row, a: Attempt)
    requires row.status == Pending && row.retryCount == 0 && a.applied
    ensures AfterAttempt(row, a).status == Status.Failed <==> !a.saved && a.failureSaved
  {
  }
}
