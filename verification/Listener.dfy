/**
 * `SorobanListener.pollEvents`: fetch past the checkpoint, apply in ledger order,
 * move the checkpoint. Any poll may abort at any event; the log grows between polls.
 */
module Listener {
  import opened Prelude
  import opened EventPaging

  // ---- ledger-ordered logs -------------------------------------------------

  ghost predicate Ordered(log: seq<RpcEvent>) {
    forall i, j | 0 <= i <= j < |log| :: log[i].ledger <= log[j].ledger
  }

  /** The events of `log` with ledger in (lo, hi], in log order. */
  function Between(log: seq<RpcEvent>, lo: int, hi: int): seq<RpcEvent> {
    if log == [] then []
    else if lo < log[0].ledger <= hi then [log[0]] + Between(log[1..], lo, hi)
    else Between(log[1..], lo, hi)
  }

  lemma {:induction false} BetweenAppend(a: seq<RpcEvent>, b: seq<RpcEvent>, lo: int, hi: int)
    ensures Between(a + b, lo, hi) == Between(a, lo, hi) + Between(b, lo, hi)
  {
    if a == [] {
      assert a + b == b;
    } else {
      BetweenAppend(a[1..], b, lo, hi);
      assert (a + b)[1..] == a[1..] + b && (a + b)[0] == a[0];
      Associate([a[0]], Between(a[1..], lo, hi), Between(b, lo, hi));
    }
  }

  lemma {:induction false} BetweenMember(log: seq<RpcEvent>, lo: int, hi: int, e: RpcEvent)
    ensures e in Between(log, lo, hi) <==> e in log && lo < e.ledger <= hi
  {
    if log != [] {
      BetweenMember(log[1..], lo, hi, e);
      assert log == [log[0]] + log[1..];
    }
  }

  lemma {:induction false} BetweenNone(log: seq<RpcEvent>, lo: int, hi: int)
    requires forall e | e in log :: !(lo < e.ledger <= hi)
    ensures Between(log, lo, hi) == []
  {
    if log != [] {
      assert log[0] in log;
      BetweenNone(log[1..], lo, hi);
    }
  }

  lemma {:induction false} BetweenAll(log: seq<RpcEvent>, lo: int, hi: int)
    requires forall e | e in log :: lo < e.ledger <= hi
    ensures Between(log, lo, hi) == log
  {
    if log != [] {
      assert log[0] in log;
      BetweenAll(log[1..], lo, hi);
    }
  }

  lemma {:induction false} NoneBelow(log: seq<RpcEvent>, lo: int, hi: int)
    requires Ordered(log) && (log == [] || log[0].ledger > hi)
    ensures Between(log, lo, hi) == []
  {
    if log != [] {
      NoneBelow(log[1..], lo, hi);
    }
  }

  /** On an ordered log, consecutive ledger ranges join. */
  lemma {:induction false} BetweenJoin(log: seq<RpcEvent>, a: int, b: int, c: int)
    requires Ordered(log) && a <= b <= c
    ensures Between(log, a, b) + Between(log, b, c) == Between(log, a, c)
  {
    if log != [] {
      var rest := log[1..];
      BetweenJoin(rest, a, b, c);
      if log[0].ledger > b {
        NoneBelow(log, a, b);
      } else {
        Associate([log[0]], Between(rest, a, b), Between(rest, b, c));
      }
    }
  }

  lemma {:induction false} BetweenIsOrdered(log: seq<RpcEvent>, lo: int, hi: int)
    requires Ordered(log)
    ensures Ordered(Between(log, lo, hi))
  {
    if log != [] {
      BetweenIsOrdered(log[1..], lo, hi);
      forall e | e in Between(log[1..], lo, hi) ensures log[0].ledger <= e.ledger {
        BetweenMember(log[1..], lo, hi, e);
      }
    }
  }

  // ---- the stable sort by ledger -------------------------------------------

  function Insert(e: RpcEvent, sorted: seq<RpcEvent>): seq<RpcEvent> {
    if sorted == [] || e.ledger <= sorted[0].ledger then [e] + sorted
    else [sorted[0]] + Insert(e, sorted[1..])
  }

  /** `[...events].sort((a, b) => a.ledger - b.ledger)` */
  function SortByLedger(events: seq<RpcEvent>): seq<RpcEvent> {
    if events == [] then [] else Insert(events[0], SortByLedger(events[1..]))
  }

  lemma {:induction false} PrependKeepsOrder(x: RpcEvent, s: seq<RpcEvent>)
    requires Ordered(s) && (s == [] || x.ledger <= s[0].ledger)
    ensures Ordered([x] + s)
  {
  }

  lemma {:induction false} InsertIsOrdered(e: RpcEvent, s: seq<RpcEvent>)
    requires Ordered(s)
    ensures Insert(e, s) != [] && Ordered(Insert(e, s))
    ensures Insert(e, s)[0].ledger == if s == [] then e.ledger else Min(e.ledger, s[0].ledger)
  {
    if s == [] || e.ledger <= s[0].ledger {
      PrependKeepsOrder(e, s);
    } else {
      InsertIsOrdered(e, s[1..]);
      PrependKeepsOrder(s[0], Insert(e, s[1..]));
    }
  }

  lemma {:induction false} InsertAdds(e: RpcEvent, s: seq<RpcEvent>)
    ensures multiset(Insert(e, s)) == multiset(s) + multiset{e}
  {
    if s != [] && e.ledger > s[0].ledger {
      InsertAdds(e, s[1..]);
      assert s == [s[0]] + s[1..];
    }
  }

  lemma {:induction false} SortIsOrderedPermutation(events: seq<RpcEvent>)
    ensures Ordered(SortByLedger(events))
    ensures multiset(SortByLedger(events)) == multiset(events)
  {
    if events != [] {
      SortIsOrderedPermutation(events[1..]);
      InsertIsOrdered(events[0], SortByLedger(events[1..]));
      InsertAdds(events[0], SortByLedger(events[1..]));
      assert events == [events[0]] + events[1..];
    }
  }

  /** Sorting leaves an already ordered batch exactly as it was. */
  lemma {:induction false} SortKeepsOrdered(events: seq<RpcEvent>)
    requires Ordered(events)
    ensures SortByLedger(events) == events
  {
    if events != [] {
      SortKeepsOrdered(events[1..]);
    }
  }

  // ---- one poll ------------------------------------------------------------

  /** The checkpoint row's value and every event handed to the projections so far. */
  datatype State = State(checkpoint: int, handled: seq<RpcEvent>)

  /** `getEvents` rejected, or returned a response. */
  datatype Fetch = Threw | Fetched(events: seq<RpcEvent>, latestLedger: int)

  /**
   * `abortAt = Some(k)`: the k-th event of the ordered batch throws, or, when k is
   * the batch size, persisting the checkpoint throws. Events before k were applied.
   */
  function Poll(s: State, fetch: Fetch, abortAt: Option<nat>): State {
    if fetch.Threw? then s
    else if fetch.events == [] then
      if fetch.latestLedger > s.checkpoint && abortAt.None? then s.(checkpoint := fetch.latestLedger) else s
    else
      var ordered := SortByLedger(fetch.events);
      if abortAt.Some? && abortAt.value <= |ordered| then
        s.(handled := s.handled + ordered[..abortAt.value])
      else
        State(Max(HighestLedger(s.checkpoint, ordered), fetch.latestLedger), s.handled + ordered)
  }

  /** The running maximum kept by the loop over the ordered batch. */
  function HighestLedger(from: int, events: seq<RpcEvent>): (m: int)
    ensures m >= from
    ensures forall e | e in events :: e.ledger <= m
    ensures m == from || exists e :: e in events && e.ledger == m
  {
    if events == [] then from
    else
      var last := events[|events| - 1];
      var m := HighestLedger(from, events[..|events| - 1]);
      assert events == events[..|events| - 1] + [last];
      assert last in events;
      Max(m, last.ledger)
  }

  lemma {:induction false} HighestStep(from: int, events: seq<RpcEvent>, i: nat)
    requires i < |events|
    ensures HighestLedger(from, events[..i + 1]) == Max(HighestLedger(from, events[..i]), events[i].ledger)
  {
    assert events[..i + 1][..i] == events[..i];
  }

  lemma {:induction false} HighestOfNone(from: int, events: seq<RpcEvent>)
    ensures HighestLedger(from, events[..0]) == from
  {
  }

  class SorobanListener {
    var isPolling: bool
    var row: Option<int>
    var handled: seq<RpcEvent>

    constructor ()
      ensures !isPolling && View() == State(0, [])
    {
      isPolling, row, handled := false, None, [];
    }

    function View(): State
      reads this
    {
      State(if row.Some? then row.value else 0, handled)
    }

    /** One cron firing. `fetch` is what `getEvents(max(checkpoint + 1, 1))` comes back with. */
    method PollEvents(configured: bool, fetch: Fetch, abortAt: Option<nat>)
      modifies this
      ensures isPolling == old(isPolling)
      ensures !configured || old(isPolling) ==> View() == old(View())
      ensures configured && !old(isPolling) ==> View() == Poll(old(View()), fetch, abortAt)
    {
      if !configured || isPolling {
        return;
      }
      isPolling := true;
      Run(fetch, abortAt);
      isPolling := false;
    }

    /** The guarded body of the poll. */
    method Run(fetch: Fetch, abortAt: Option<nat>)
      modifies this
      ensures isPolling == old(isPolling)
      ensures View() == Poll(old(View()), fetch, abortAt)
    {
      var lastProcessedLedger := if row.Some? then row.value else 0;
      if fetch.Threw? {
        return;
      }
      if fetch.events == [] {
        if fetch.latestLedger > lastProcessedLedger && abortAt.None? {
          row := Some(fetch.latestLedger);
        }
        return;
      }
      var ordered := SortByLedger(fetch.events);
      var done, maxProcessedLedger := ApplyBatch(lastProcessedLedger, ordered, abortAt);
      if done {
        row := Some(Max(maxProcessedLedger, fetch.latestLedger));
      }
    }

    /** The loop over the ordered batch; `!done` when an event, or the final save, throws. */
    method ApplyBatch(lastProcessedLedger: int, ordered: seq<RpcEvent>, abortAt: Option<nat>)
      returns (done: bool, maxProcessedLedger: int)
      modifies this`handled
      ensures done <==> !(abortAt.Some? && abortAt.value <= |ordered|)
      ensures handled == old(handled) + if done then ordered else ordered[..abortAt.value]
      ensures done ==> maxProcessedLedger == HighestLedger(lastProcessedLedger, ordered)
    {
      hide HighestLedger;
      done, maxProcessedLedger := false, lastProcessedLedger;
      HighestOfNone(lastProcessedLedger, ordered);
      for i := 0 to |ordered|
        invariant abortAt.Some? ==> i <= abortAt.value
        invariant handled == old(handled) + ordered[..i]
        invariant maxProcessedLedger == HighestLedger(lastProcessedLedger, ordered[..i])
      {
        if abortAt == Some(i) {
          return;
        }
        HighestStep(lastProcessedLedger, ordered, i);
        assert ordered[..i + 1] == ordered[..i] + [ordered[i]];
        handled := handled + [ordered[i]];
        maxProcessedLedger := Max(maxProcessedLedger, ordered[i].ledger);
      }
      assert ordered[..|ordered|] == ordered;
      done := abortAt != Some(|ordered|);
    }
  }

  /** Whatever the fetch returns and wherever the poll aborts, the checkpoint never goes back. */
  lemma {:induction false} CheckpointNeverDecreases(s: State, fetch: Fetch, abortAt: Option<nat>)
    ensures Poll(s, fetch, abortAt).checkpoint >= s.checkpoint
    ensures s.handled <= Poll(s, fetch, abortAt).handled
  {
  }

  // ---- whole runs ----------------------------------------------------------

  /** One poll of a run: the chain's log and tip when it happened, and where it aborted. */
  datatype PollAt = PollAt(log: seq<RpcEvent>, latest: int, abortAt: Option<nat>)

  /** The fetch that returns exactly the log's events in (checkpoint, latest]. */
  function CompleteFetch(s: State, p: PollAt): Fetch {
    Fetched(Between(p.log, s.checkpoint, p.latest), p.latest)
  }

  /** The log only grows, and ledgers up to the highest tip seen so far are closed. */
  ghost predicate Grows(log: seq<RpcEvent>, sealed: int, log': seq<RpcEvent>) {
    log <= log' && Ordered(log') && forall i | |log| <= i < |log'| :: log'[i].ledger > sealed
  }

  ghost predicate ValidRun(log: seq<RpcEvent>, sealed: int, polls: seq<PollAt>)
    decreases polls
  {
    polls == [] ||
    (&& Grows(log, sealed, polls[0].log)
     && ValidRun(polls[0].log, Max(sealed, polls[0].latest), polls[1..]))
  }

  function RunPolls(s: State, polls: seq<PollAt>): State
    decreases polls
  {
    if polls == [] then s
    else RunPolls(Poll(s, CompleteFetch(s, polls[0]), polls[0].abortAt), polls[1..])
  }

  function FinalLog(log: seq<RpcEvent>, polls: seq<PollAt>): seq<RpcEvent>
    decreases polls
  {
    if polls == [] then log else FinalLog(polls[0].log, polls[1..])
  }

  /** Every event at or below the checkpoint has been handled at least once. */
  ghost predicate AllHandled(s: State, log: seq<RpcEvent>) {
    forall e | e in log && e.ledger <= s.checkpoint :: e in s.handled
  }

  /** The events of `log` at or below ledger `c` (ledgers count from 1). */
  function UpTo(log: seq<RpcEvent>, c: int): seq<RpcEvent> {
    Between(log, 0, c)
  }

  lemma {:induction false} BatchBounds(s: State, p: PollAt)
    requires Ordered(p.log)
    ensures
      var batch := Between(p.log, s.checkpoint, p.latest);
      && SortByLedger(batch) == batch
      && Max(HighestLedger(s.checkpoint, batch), p.latest) == Max(s.checkpoint, p.latest)
      && (batch != [] ==> s.checkpoint < p.latest)
  {
    var batch := Between(p.log, s.checkpoint, p.latest);
    BetweenIsOrdered(p.log, s.checkpoint, p.latest);
    SortKeepsOrdered(batch);
    forall e | e in batch ensures s.checkpoint < e.ledger <= p.latest {
      BetweenMember(p.log, s.checkpoint, p.latest, e);
    }
    if batch != [] {
      assert batch[0] in batch;
    }
  }

  lemma {:induction false} PollOutcome(s: State, p: PollAt)
    requires Ordered(p.log)
    ensures
      var s' := Poll(s, CompleteFetch(s, p), p.abortAt);
      && s.checkpoint <= s'.checkpoint <= Max(s.checkpoint, p.latest)
      && (s'.checkpoint > s.checkpoint || p.abortAt.None? ==>
            s' == State(Max(s.checkpoint, p.latest), s.handled + Between(p.log, s.checkpoint, p.latest)))
  {
    BatchBounds(s, p);
  }

  lemma {:induction false} PollKeepsAllHandled(s: State, log: seq<RpcEvent>, sealed: int, p: PollAt)
    requires AllHandled(s, log) && s.checkpoint <= sealed && Grows(log, sealed, p.log)
    ensures AllHandled(Poll(s, CompleteFetch(s, p), p.abortAt), p.log)
  {
    PollOutcome(s, p);
    var s' := Poll(s, CompleteFetch(s, p), p.abortAt);
    CheckpointNeverDecreases(s, CompleteFetch(s, p), p.abortAt);
    forall e | e in p.log && e.ledger <= s'.checkpoint ensures e in s'.handled {
      if e.ledger <= s.checkpoint {
        var i :| 0 <= i < |p.log| && p.log[i] == e;
        assert e in log;
      } else {
        BetweenMember(p.log, s.checkpoint, p.latest, e);
      }
    }
  }

  /**
   * In every run, however its polls abort, the checkpoint never decreases and every
   * event at or below it has been handled at least once.
   */
  lemma {:induction false} CheckpointIsComplete(s: State, log: seq<RpcEvent>, sealed: int, polls: seq<PollAt>)
    requires AllHandled(s, log) && s.checkpoint <= sealed && ValidRun(log, sealed, polls)
    ensures RunPolls(s, polls).checkpoint >= s.checkpoint
    ensures AllHandled(RunPolls(s, polls), FinalLog(log, polls))
    decreases polls
  {
    if polls != [] {
      var p := polls[0];
      PollOutcome(s, p);
      PollKeepsAllHandled(s, log, sealed, p);
      CheckpointIsComplete(Poll(s, CompleteFetch(s, p), p.abortAt), p.log, Max(sealed, p.latest), polls[1..]);
    }
  }

  ghost predicate NoAbort(polls: seq<PollAt>) {
    forall p | p in polls :: p.abortAt.None?
  }

  /** A growing log agrees with its past on every closed ledger. */
  lemma {:induction false} SealedPartIsFixed(log: seq<RpcEvent>, sealed: int, log': seq<RpcEvent>, c: int)
    requires Grows(log, sealed, log') && c <= sealed
    ensures UpTo(log', c) == UpTo(log, c)
  {
    var tail := log'[|log|..];
    assert log' == log + tail;
    BetweenAppend(log, tail, 0, c);
    forall e | e in tail ensures e.ledger > sealed {
      var i :| 0 <= i < |tail| && tail[i] == e;
      assert log'[|log| + i] == e;
    }
    BetweenNone(tail, 0, c);
  }

  /**
   * With no aborted poll, the handled sequence is exactly the log up to the
   * checkpoint: each event once, in log order.
   */
  lemma {:induction false} HandledIsTheLogPrefix(s: State, log: seq<RpcEvent>, sealed: int, polls: seq<PollAt>)
    requires 0 <= s.checkpoint <= sealed && s.handled == UpTo(log, s.checkpoint)
    requires ValidRun(log, sealed, polls) && NoAbort(polls)
    ensures
      var end := RunPolls(s, polls);
      end.handled == UpTo(FinalLog(log, polls), end.checkpoint)
    decreases polls
  {
    if polls != [] {
      var p := polls[0];
      var s' := Poll(s, CompleteFetch(s, p), p.abortAt);
      PollOutcome(s, p);
      SealedPartIsFixed(log, sealed, p.log, s.checkpoint);
      if p.latest <= s.checkpoint {
        BetweenNone(p.log, s.checkpoint, p.latest);
      } else {
        BetweenJoin(p.log, 0, s.checkpoint, p.latest);
      }
      HandledIsTheLogPrefix(s', p.log, Max(sealed, p.latest), polls[1..]);
    }
  }

  // ---- what the fetch must deliver -----------------------------------------

  lemma {:induction false} NormalizedLedgers(page: seq<RawEvent>, e: RpcEvent)
    requires e in Normalized(page)
    ensures exists k :: 0 <= k < |page| && LedgerOf(page[k]) == e.ledger
  {
    KeptWasReadable(page, e);
    var k :| 0 <= k < |page| && page[k] == Readable(e);
    assert LedgerOf(page[k]) == e.ledger;
  }

  lemma {:induction false} SplitBetween(log: seq<RawEvent>, k: nat, lo: int, hi: int)
    requires k <= |log|
    ensures Between(Normalized(log), lo, hi) ==
            Between(Normalized(log[..k]), lo, hi) + Between(Normalized(log[k..]), lo, hi)
  {
    assert log == log[..k] + log[k..];
    NormalizedAppend(log[..k], log[k..]);
    BetweenAppend(Normalized(log[..k]), Normalized(log[k..]), lo, hi);
  }

  /** Entries before the requested ledger are not fetched, entries from it on are above the checkpoint. */
  lemma {:induction false} LedgersAround(log: seq<RawEvent>, start: nat, c: int)
    requires LedgerOrdered(log) && start == FirstAtOrAfter(log, c + 1)
    ensures forall e | e in Normalized(log[..start]) :: e.ledger <= c
    ensures forall e | e in Normalized(log[start..]) :: e.ledger > c
  {
    forall e | e in Normalized(log[..start]) ensures e.ledger <= c {
      NormalizedLedgers(log[..start], e);
    }
    var after := log[start..];
    forall e | e in Normalized(after) ensures e.ledger > c {
      NormalizedLedgers(after, e);
      var k :| 0 <= k < |after| && LedgerOf(after[k]) == e.ledger;
      assert LedgerOf(log[start]) <= LedgerOf(log[start + k]);
    }
  }

  lemma {:induction false} BetweenIsShorter(log: seq<RpcEvent>, lo: int, hi: int)
    ensures |Between(log, lo, hi)| <= |log|
  {
    if log != [] {
      BetweenIsShorter(log[1..], lo, hi);
    }
  }

  /** What a response leaves unread, and what it should hold. */
  lemma {:induction false} ExpectedBatch(r: EventsResponse, log: seq<RawEvent>, start: nat, end: nat, c: int)
    requires IsSegment(r, log, start, end) && start == FirstAtOrAfter(log, c + 1) && LedgerOrdered(log)
    ensures Between(Normalized(log), c, r.latestLedger) ==
            Between(r.events, c, r.latestLedger) + Between(Normalized(log[end..]), c, r.latestLedger)
    ensures forall e | e in r.events + Normalized(log[end..]) :: e.ledger > c
  {
    hide LedgerOrdered, Normalized, FirstAtOrAfter, Between;
    LedgersAround(log, start, c);
    BetweenNone(Normalized(log[..start]), c, r.latestLedger);
    SplitBetween(log, start, c, r.latestLedger);
    SegmentsJoin(log, start, end, |log|);
    assert log[start..|log|] == log[start..] && log[end..|log|] == log[end..];
    BetweenAppend(r.events, Normalized(log[end..]), c, r.latestLedger);
  }

  /** No entry past the segment that can be read is at or below the reported tip. */
  ghost predicate LeavesNothing(r: EventsResponse, log: seq<RawEvent>, end: nat)
    requires end <= |log|
  {
    forall e | e in Normalized(log[end..]) :: e.ledger > r.latestLedger
  }

  /**
   * `getEvents(checkpoint + 1)` delivers exactly the ledgers above the checkpoint up to the
   * reported tip if and only if it returns nothing above that tip and leaves nothing
   * readable at or below it.
   */
  lemma {:induction false} FetchIsCompleteIff(r: EventsResponse, log: seq<RawEvent>, start: nat, end: nat, s: State)
    requires IsSegment(r, log, start, end) && start == FirstAtOrAfter(log, s.checkpoint + 1) && LedgerOrdered(log)
    ensures Fetched(r.events, r.latestLedger) == CompleteFetch(s, PollAt(Normalized(log), r.latestLedger, None))
       <==> (forall e | e in r.events :: e.ledger <= r.latestLedger) && LeavesNothing(r, log, end)
  {
    var c, tip, rest := s.checkpoint, r.latestLedger, Normalized(log[end..]);
    ExpectedBatch(r, log, start, end, c);
    EarlierLedgers(log, start, end);
    hide LedgerOrdered, Normalized, FirstAtOrAfter, Between, IsSegment;
    if (forall e | e in r.events :: e.ledger <= tip) && LeavesNothing(r, log, end) {
      BetweenAll(r.events, c, tip);
      BetweenNone(rest, c, tip);
    }
    if r.events == Between(r.events, c, tip) + Between(rest, c, tip) {
      BetweenIsShorter(r.events, c, tip);
      if e :| e in rest && e.ledger <= tip {
        BetweenMember(rest, c, tip, e);
        BetweenAll(r.events, c, tip);
      } else {
        BetweenNone(rest, c, tip);
        forall e | e in r.events ensures e.ledger <= tip {
          BetweenMember(r.events, c, tip, e);
        }
      }
    }
  }

  /** On an ordered log what is read has no later ledger than what is left. */
  lemma {:induction false} EarlierLedgers(log: seq<RawEvent>, start: nat, end: nat)
    requires start <= end <= |log| && LedgerOrdered(log)
    ensures forall a, b | a in Normalized(log[start..end]) && b in Normalized(log[end..]) :: a.ledger <= b.ledger
  {
    forall a, b | a in Normalized(log[start..end]) && b in Normalized(log[end..]) ensures a.ledger <= b.ledger {
      NormalizedLedgers(log[start..end], a);
      NormalizedLedgers(log[end..], b);
      var i :| 0 <= i < end - start && LedgerOf(log[start..end][i]) == a.ledger;
      var j :| 0 <= j < |log| - end && LedgerOf(log[end..][j]) == b.ledger;
      assert LedgerOf(log[start + i]) <= LedgerOf(log[end + j]);
    }
  }
}
