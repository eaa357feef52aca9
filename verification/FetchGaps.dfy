/**
 * What a poll loses when the fetch stopped before the tip it reports: the listener and the
 * indexer both store that tip as their checkpoint and drop the returned cursor.
 */
module FetchGaps {
  import opened Prelude
  import opened EventPaging
  import opened PagingEnds
  import opened Listener
  import I = Indexer
  import R = IndexerRuns

  /** Every entry left unread that can be read and is not above the checkpoint is in `have`. */
  ghost predicate NothingMissed(log: seq<RawEvent>, end: nat, checkpoint: int, have: seq<RpcEvent>) {
    forall i | end <= i < |log| && log[i].Readable? && log[i].event.ledger <= checkpoint :: log[i].event in have
  }

  /** The events of `log` at or below the checkpoint are all in `have`. */
  ghost predicate HasAll(log: seq<RawEvent>, checkpoint: int, have: seq<RpcEvent>) {
    forall e | e in Normalized(log) && e.ledger <= checkpoint :: e in have
  }

  /** Having everything up to the old checkpoint and all that was returned, only the unread rest can be missing. */
  lemma {:induction false} OnlyTheRestCanBeMissing(r: EventsResponse, log: seq<RawEvent>, start: nat, end: nat, c: int,
                                                   have: seq<RpcEvent>, checkpoint: int)
    requires LedgerOrdered(log) && IsSegment(r, log, start, end) && start == FirstAtOrAfter(log, c + 1)
    requires HasAll(log, c, have)
    ensures HasAll(log, checkpoint, have + r.events) <==> NothingMissed(log, end, checkpoint, have + r.events)
  {
    hide LedgerOrdered;
    var all := have + r.events;
    if HasAll(log, checkpoint, all) {
      forall i | end <= i < |log| && log[i].Readable? && log[i].event.ledger <= checkpoint ensures log[i].event in all {
        ReadableIsKept(log, i);
      }
    }
    if NothingMissed(log, end, checkpoint, all) {
      forall e | e in Normalized(log) && e.ledger <= checkpoint ensures e in all {
        EntryIsSomewhere(r, log, start, end, c, have, e);
      }
    }
  }

  lemma {:induction false} EntryIsSomewhere(r: EventsResponse, log: seq<RawEvent>, start: nat, end: nat, c: int,
                                            have: seq<RpcEvent>, e: RpcEvent)
    requires IsSegment(r, log, start, end) && start == FirstAtOrAfter(log, c + 1)
    requires HasAll(log, c, have) && e in Normalized(log)
    ensures e in have || e in r.events || exists i :: end <= i < |log| && log[i] == Readable(e)
  {
    KeptWasReadable(log, e);
    var k :| 0 <= k < |log| && log[k] == Readable(e);
    if k < start {
      assert LedgerOf(log[k]) <= c;
    } else if k < end {
      ReadableIsKept(log[start..end], k - start);
    }
  }

  // ---- the listener --------------------------------------------------------

  lemma {:induction false} SegmentIsOrdered(log: seq<RawEvent>)
    requires LedgerOrdered(log)
    ensures Ordered(Normalized(log))
  {
    if log != [] {
      var rest := log[1..];
      SegmentIsOrdered(rest);
      if log[0].Readable? {
        forall e | e in Normalized(rest) ensures log[0].event.ledger <= e.ledger {
          NormalizedLedgers(rest, e);
          var k :| 0 <= k < |rest| && LedgerOf(rest[k]) == e.ledger;
          assert LedgerOf(log[0]) <= LedgerOf(log[k + 1]);
        }
        assert Normalized(rest) != [] ==> Normalized(rest)[0] in Normalized(rest);
        PrependKeepsOrder(log[0].event, Normalized(rest));
      }
    }
  }

  /** What an unaborted poll does with a response. */
  lemma {:induction false} PollTakesAll(s: State, r: EventsResponse, log: seq<RawEvent>, start: nat, end: nat)
    requires LedgerOrdered(log) && IsSegment(r, log, start, end)
    ensures
      var s' := Poll(s, Fetched(r.events, r.latestLedger), None);
      && s'.checkpoint == Max(HighestLedger(s.checkpoint, r.events), r.latestLedger)
      && s'.handled == s.handled + r.events
  {
    assert LedgerOrdered(log[start..end]);
    SegmentIsOrdered(log[start..end]);
    SortKeepsOrdered(r.events);
    if r.events == [] {
      assert s.handled + [] == s.handled;
    }
  }

  /**
   * For every response that is a stretch of the chain's log: after the poll, everything at or
   * below the new checkpoint has been handled if and only if every readable entry past the
   * stretch at or below that checkpoint was handled already.
   */
  lemma {:induction false} PollIsCompleteIff(s: State, r: EventsResponse, log: seq<RawEvent>, start: nat, end: nat)
    requires LedgerOrdered(log) && IsSegment(r, log, start, end) && start == FirstAtOrAfter(log, s.checkpoint + 1)
    requires AllHandled(s, Normalized(log))
    ensures
      var s' := Poll(s, Fetched(r.events, r.latestLedger), None);
      var checkpoint := Max(HighestLedger(s.checkpoint, r.events), r.latestLedger);
      && s'.checkpoint == checkpoint
      && (AllHandled(s', Normalized(log)) <==> NothingMissed(log, end, checkpoint, s.handled + r.events))
  {
    PollTakesAll(s, r, log, start, end);
    hide Poll, HighestLedger, Normalized, FirstAtOrAfter, LedgerOrdered, IsSegment;
    assert HasAll(log, s.checkpoint, s.handled);
    OnlyTheRestCanBeMissing(r, log, start, end, s.checkpoint, s.handled, Max(HighestLedger(s.checkpoint, r.events), r.latestLedger));
  }

  /** Where the stretch of a call ends in the chain's log; a call that was never answered read nothing. */
  function EndOf(log: seq<RawEvent>, t: Trace, c: int): nat {
    if t.answered > 0 then t.end else FirstAtOrAfter(log, c + 1)
  }

  /**
   * The same by the way the call ended: a call that read to the end of the log loses nothing;
   * one that met the tip can lose only entries between the tip and the checkpoint; one that
   * failed or met the cap loses whatever is unread up to the checkpoint; one that was never
   * answered loses the unhandled events of the single ledger it steps over.
   */
  lemma {:induction false} PollAfterCall(s: State, size: int, r: EventsResponse, t: Trace, log: seq<RawEvent>)
    requires Delivered(size, s.checkpoint + 1, None, r, t) && size > 0
    requires LedgerOrdered(log) && (t.answered > 0 ==> log == t.log) && AllHandled(s, Normalized(log))
    ensures
      var s' := Poll(s, Fetched(r.events, r.latestLedger), None);
      var end, have := EndOf(log, t, s.checkpoint), s.handled + r.events;
      && (AllHandled(s', Normalized(log)) <==> NothingMissed(log, end, s'.checkpoint, have))
      && (t.answered > 0 && t.stop in {EmptyPage, ShortPage} ==> AllHandled(s', Normalized(log)))
      && (t.answered > 0 && t.stop == TipReached ==>
            (AllHandled(s', Normalized(log)) <==>
             forall i | end <= i < |log| && log[i].Readable? && r.latestLedger <= log[i].event.ledger <= s'.checkpoint ::
               log[i].event in have))
      && (t.answered == 0 ==> s' == State(s.checkpoint + 1, s.handled))
  {
    var c := s.checkpoint;
    var start, end := if t.answered > 0 then t.start else FirstAtOrAfter(log, c + 1), EndOf(log, t, c);
    if t.answered == 0 {
      assert log[start..start] == [];
      assert s.handled + [] == s.handled;
    }
    assert IsSegment(r, log, start, end);
    hide LedgerOrdered, Normalized, FirstAtOrAfter, IsSegment;
    PollIsCompleteIff(s, r, log, start, end);
    if t.answered > 0 && t.stop == TipReached {
      forall i | end <= i < |log| && log[i].Readable? ensures log[i].event.ledger >= r.latestLedger {
        assert LedgerOf(log[i]) >= r.latestLedger;
      }
    }
  }

  /** A node that answers the first request and fails the second. */
  function FailsSecond(log: seq<RawEvent>, tip: int): Timeline {
    (i: nat) => if i == 0 then Answer(log, Some(tip), true) else Failed
  }

  /**
   * More than one page below the tip, and the second request fails: the call comes back with
   * one page and the tip, and a poll from scratch skips the next event for good.
   */
  lemma {:induction false} SecondPageFailureLoses(log: seq<RawEvent>, tip: int)
    requires LedgerOrdered(log) && |log| > MAX_PAGE_SIZE
    requires forall i | 0 <= i <= MAX_PAGE_SIZE :: log[i].Readable? && 1 <= log[i].event.ledger < tip
    requires forall i | 0 <= i < MAX_PAGE_SIZE :: log[i] != log[MAX_PAGE_SIZE]
    ensures
      var t := Turns(FailsSecond(log, tip), 1, PageSize(None), None, 2);
      && t.stop == PageFailed && t.r.latestLedger == tip && t.r.events == Normalized(log[..MAX_PAGE_SIZE])
      && !AllHandled(Poll(State(0, []), Fetched(t.r.events, tip), None), Normalized(log))
  {
    var size, next := MAX_PAGE_SIZE, log[MAX_PAGE_SIZE].event;
    var page := PageAt(log, 0, size);
    assert page == log[..size];
    var t := Turns(FailsSecond(log, tip), 1, PageSize(None), None, 2);
    SecondTurnFails(log, tip);
    assert log[0..size] == log[..size];
    var r := EventsResponse(t.r.events, tip, None);
    if next in Normalized(log[..size]) {
      KeptWasReadable(log[..size], next);
    }
    if AllHandled(Poll(State(0, []), Fetched(t.r.events, tip), None), Normalized(log)) {
      PollTakesAll(State(0, []), r, log, 0, size);
      ReadableIsKept(log, size);
    }
  }

  lemma {:induction false} SecondTurnFails(log: seq<RawEvent>, tip: int)
    requires LedgerOrdered(log) && |log| > MAX_PAGE_SIZE
    requires forall i | 0 <= i <= MAX_PAGE_SIZE :: log[i].Readable? && 1 <= log[i].event.ledger < tip
    ensures Turns(FailsSecond(log, tip), 1, PageSize(None), None, 2) ==
            Turn(EventsResponse(Normalized(log[..MAX_PAGE_SIZE]), tip, Some(MAX_PAGE_SIZE)), PageFailed)
  {
    hide Normalized;
    var size := MAX_PAGE_SIZE;
    var page := PageAt(log, 0, size);
    assert page == log[..size] && |page| == size;
    assert FirstAtOrAfter(log, 1) == 0;
    StopsAtTipIff(page, tip, size);
    FullPageStops(page, tip, size);
    KnownStops(page, tip, size);
    NormalizedSize(page);
    hide StopAfter, FirstAtOrAfter;
    var first := TakeTurn(Answer(log, Some(tip), true), 1, size, None, EventsResponse([], 1, None));
    assert first == Turn(EventsResponse([] + Normalized(page), tip, Some(size)), CapReached);
    assert Turns(FailsSecond(log, tip), 1, PageSize(None), None, 0) == Turn(EventsResponse([], 1, None), CapReached);
    assert Turns(FailsSecond(log, tip), 1, PageSize(None), None, 1) == first;
  }

  // ---- the indexer ---------------------------------------------------------

  lemma {:induction false} FreshRowsHold(rows: seq<I.Row>, events: seq<RpcEvent>)
    ensures R.Events(rows + I.NewRows(events, 0, |events|)) == R.Events(rows) + events
  {
  }

  /**
   * The indexer stores the same tip: after a completed fetch, everything at or below its new
   * checkpoint is stored if and only if every readable entry past the stretch at or below
   * that checkpoint was stored already.
   */
  lemma {:induction false} FetchIsStoredIff(s: I.State, r: EventsResponse, log: seq<RawEvent>, start: nat, end: nat)
    requires LedgerOrdered(log) && IsSegment(r, log, start, end) && start == FirstAtOrAfter(log, s.checkpoint + 1)
    requires forall row | row in s.rows :: row.event.ledger <= s.checkpoint
    requires HasAll(log, s.checkpoint, R.Events(s.rows))
    ensures
      var s' := I.Fetch(s, r.events, Some(r.latestLedger), None);
      && s'.checkpoint == Max(HighestLedger(s.checkpoint, r.events), r.latestLedger)
      && R.Events(s'.rows) == R.Events(s.rows) + r.events
      && (HasAll(log, s'.checkpoint, R.Events(s'.rows)) <==>
          NothingMissed(log, end, s'.checkpoint, R.Events(s.rows) + r.events))
  {
    hide HighestLedger, I.Persist, LedgerOrdered, Normalized, FirstAtOrAfter, R.Events;
    ExpectedBatch(r, log, start, end, s.checkpoint);
    hide Between;
    forall e | e in r.events ensures e.ledger > s.checkpoint {
      assert e in r.events + Normalized(log[end..]);
    }
    I.PersistResumes(s.rows, [], r.events, s.checkpoint, |r.events|);
    assert s.rows + [] == s.rows;
    FreshRowsHold(s.rows, r.events);
    var s' := I.Fetch(s, r.events, Some(r.latestLedger), None);
    OnlyTheRestCanBeMissing(r, log, start, end, s.checkpoint, R.Events(s.rows), s'.checkpoint);
  }
}
