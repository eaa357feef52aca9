/** Where `getEvents` stops on a log that stands still, and when it does not stop at all. */
module PagingEnds {
  import opened Prelude
  import opened EventPaging

  // ---- the tip ledger ------------------------------------------------------

  /** A node whose log stands still, answers every request and sends cursors. */
  function Still(log: seq<RawEvent>, tip: int): Timeline {
    (i: nat) => Answer(log, Some(tip), true)
  }

  predicate AtTip(e: RawEvent, tip: int) {
    e.Readable? && e.event.ledger >= tip
  }

  /** The first readable entry at or after `p` that has reached the tip. */
  function FirstAtTip(log: seq<RawEvent>, p: nat, tip: int): (q: Option<nat>)
    requires p <= |log|
    ensures q.Some? ==> p <= q.value < |log| && AtTip(log[q.value], tip)
    ensures forall i | p <= i < (if q.Some? then q.value else |log|) :: !AtTip(log[i], tip)
    decreases |log| - p
  {
    if p == |log| then None else if AtTip(log[p], tip) then Some(p) else FirstAtTip(log, p + 1, tip)
  }

  /** The end of the last page: the one that holds that entry, or the end of the log. */
  function FetchEnd(log: seq<RawEvent>, start: nat, tip: int, size: nat): nat
    requires start <= |log| && size > 0
  {
    match FirstAtTip(log, start, tip)
    case None => |log|
    case Some(q) => Min(start + CeilDiv(q + 1 - start, size) * size, |log|)
  }

  /** The same position, page by page. */
  function ReadEnd(log: seq<RawEvent>, p: nat, tip: int, size: nat): (end: nat)
    requires p <= |log| && size > 0
    ensures p <= end <= |log|
    decreases |log| - p
  {
    var page := PageAt(log, p, size);
    if page == [] then p
    else if StopAfter(page, tip, size) != CapReached then p + |page|
    else ReadEnd(log, p + |page|, tip, size)
  }

  lemma {:induction false} MaxLedgerBounds(events: seq<RpcEvent>, e: RpcEvent)
    requires e in events
    ensures MaxLedger(events).Some? && MaxLedger(events).value >= e.ledger
  {
    if e != events[0] {
      MaxLedgerBounds(events[1..], e);
    }
  }

  /** A page stops the loop at the tip exactly when it holds an entry that has reached it. */
  lemma {:induction false} StopsAtTipIff(page: seq<RawEvent>, tip: int, size: int)
    ensures StopAfter(page, tip, size) == TipReached <==> exists k :: 0 <= k < |page| && AtTip(page[k], tip)
  {
    var events := Normalized(page);
    if k: nat :| k < |page| && AtTip(page[k], tip) {
      ReadableIsKept(page, k);
      MaxLedgerBounds(events, page[k].event);
    }
    if StopAfter(page, tip, size) == TipReached {
      MaxLedgerIsReached(events);
      var e :| e in events && e.ledger == MaxLedger(events).value;
      KeptWasReadable(page, e);
    }
  }

  /** Whether the page from `p` holds that first entry. */
  lemma {:induction false} PageHoldsTip(log: seq<RawEvent>, p: nat, tip: int, size: nat)
    requires p <= |log| && size > 0
    ensures
      var q := FirstAtTip(log, p, tip);
      StopAfter(PageAt(log, p, size), tip, size) == TipReached <==> q.Some? && q.value < p + size
  {
    var page, q := PageAt(log, p, size), FirstAtTip(log, p, tip);
    StopsAtTipIff(page, tip, size);
    assert forall k | 0 <= k < |page| :: page[k] == log[p + k];
    if q.Some? && q.value < p + size {
      assert page[q.value - p] == log[q.value];
    }
  }

  lemma {:induction false} SameFirst(log: seq<RawEvent>, p: nat, p': nat, tip: int)
    requires p <= p' <= |log|
    requires FirstAtTip(log, p, tip).Some? ==> p' <= FirstAtTip(log, p, tip).value
    ensures FirstAtTip(log, p', tip) == FirstAtTip(log, p, tip)
    decreases p' - p
  {
    if p < p' {
      SameFirst(log, p + 1, p', tip);
    }
  }

  lemma {:induction false} TipOnThisPage(log: seq<RawEvent>, p: nat, tip: int, size: nat)
    requires p <= |log| && size > 0
    requires FirstAtTip(log, p, tip).Some? && FirstAtTip(log, p, tip).value < p + size
    ensures FetchEnd(log, p, tip, size) == Min(p + size, |log|)
  {
    OnePage(FirstAtTip(log, p, tip).value + 1 - p, size);
  }

  lemma {:induction false} TipOnLaterPage(log: seq<RawEvent>, p: nat, tip: int, size: nat)
    requires p + size <= |log| && size > 0
    requires FirstAtTip(log, p, tip).Some? ==> FirstAtTip(log, p, tip).value >= p + size
    ensures FetchEnd(log, p, tip, size) == FetchEnd(log, p + size, tip, size)
  {
    var q := FirstAtTip(log, p, tip);
    SameFirst(log, p, p + size, tip);
    hide FirstAtTip;
    if q.Some? {
      CeilDivStep(q.value + 1 - p, size);
      PagesAddUp(p, CeilDiv(q.value + 1 - p - size, size), size);
      hide CeilDiv;
    }
  }

  lemma {:induction false} NoTipLeft(log: seq<RawEvent>, p: nat, tip: int, size: nat)
    requires p <= |log| && size > 0 && FirstAtTip(log, p, tip).None?
    ensures FetchEnd(log, p, tip, size) == |log|
  {
  }

  /** Page by page or in one formula, reading ends at the same position. */
  lemma {:induction false} ReadEndIsFetchEnd(log: seq<RawEvent>, p: nat, tip: int, size: nat)
    requires p <= |log| && size > 0
    ensures ReadEnd(log, p, tip, size) == FetchEnd(log, p, tip, size)
    decreases |log| - p
  {
    hide StopAfter, FetchEnd, FirstAtTip;
    var page, q := PageAt(log, p, size), FirstAtTip(log, p, tip);
    PageHoldsTip(log, p, tip, size);
    FullPageStops(page, tip, size);
    if q.Some? && q.value < p + size {
      TipOnThisPage(log, p, tip, size);
    } else if |page| == size {
      TipOnLaterPage(log, p, tip, size);
      ReadEndIsFetchEnd(log, p + size, tip, size);
    } else {
      NoTipLeft(log, p, tip, size);
    }
  }

  lemma {:induction false} FullPageStops(page: seq<RawEvent>, tip: int, size: nat)
    ensures StopAfter(page, tip, size) == CapReached ==> |page| >= size
    ensures StopAfter(page, tip, size) != CapReached ==> |page| < size || StopAfter(page, tip, size) == TipReached
  {
  }

  lemma {:induction false} OnePage(n: nat, size: nat)
    requires 0 < n <= size
    ensures CeilDiv(n, size) == 1
  {
    CeilDivStep(n, size);
    CeilDivStep(0, size);
  }

  lemma {:induction false} PagesAddUp(p: nat, k: nat, size: nat)
    ensures p + (1 + k) * size == p + size + k * size
  {
  }

  /** What the loop holds once it has read up to position `p`. */
  ghost predicate ReadUpTo(r: EventsResponse, log: seq<RawEvent>, start: nat, p: nat, fromLedger: int, cursor: Option<nat>) {
    && start <= p <= |log| && r.events == Normalized(log[start..p])
    && RequestPosition(log, fromLedger, cursor, r) == p
  }

  lemma {:induction false} FewerThanAll(log: seq<RawEvent>, start: nat, p: nat)
    requires start <= p <= |log|
    ensures |Normalized(log[start..p])| <= |Normalized(log[start..])|
  {
    SegmentsJoin(log, start, p, |log|);
    assert log[start..|log|] == log[start..];
  }

  /** One turn on such a log reads one page more. */
  lemma {:induction false} TurnReadsPage(log: seq<RawEvent>, tip: int, fromLedger: int, size: nat, cursor: Option<nat>,
                                         start: nat, p: nat, r: EventsResponse)
    requires size > 0 && ReadUpTo(r, log, start, p, fromLedger, cursor)
    ensures
      var page := PageAt(log, p, size);
      var t := TakeTurn(Answer(log, Some(tip), true), fromLedger, size, cursor, r);
      && p + |page| <= |log| && t.r.latestLedger == tip
      && t.r.events == Normalized(log[start..p + |page|])
      && t.stop == (if page == [] then EmptyPage else StopAfter(page, tip, size))
      && (page != [] ==> ReadUpTo(t.r, log, start, p + |page|, fromLedger, cursor))
  {
    hide StopAfter, Normalized, FirstAtOrAfter;
    var page := PageAt(log, p, size);
    if page != [] {
      SegmentsJoin(log, start, p, p + |page|);
      assert page == log[p..p + |page|];
    }
  }

  /** From any point of the loop, reading goes on to `ReadEnd`. */
  lemma {:induction false} LoopReachesEnd(log: seq<RawEvent>, tip: int, fromLedger: int, size: nat, cursor: Option<nat>,
                                          start: nat, p: nat, i: nat) returns (n: nat)
    requires size > 0 && start <= p <= |log| && |Normalized(log[start..])| < MAX_EVENTS_PER_FETCH
    requires
      var t := Turns(Still(log, tip), fromLedger, size, cursor, i);
      t.stop == CapReached && ReadUpTo(t.r, log, start, p, fromLedger, cursor)
    ensures
      var t := Turns(Still(log, tip), fromLedger, size, cursor, n);
      && t.stop in {EmptyPage, TipReached, ShortPage} && t.r.latestLedger == tip
      && t.r.events == Normalized(log[start..ReadEnd(log, p, tip, size)])
    decreases |log| - p
  {
    hide StopAfter, Normalized, FirstAtOrAfter, TakeTurn;
    var t := Turns(Still(log, tip), fromLedger, size, cursor, i);
    FewerThanAll(log, start, p);
    assert Continues(t);
    n := i + 1;
    var page := PageAt(log, p, size);
    assert Turns(Still(log, tip), fromLedger, size, cursor, n)
        == TakeTurn(Answer(log, Some(tip), true), fromLedger, size, cursor, t.r);
    TurnReadsPage(log, tip, fromLedger, size, cursor, start, p, t.r);
    KnownStops(page, tip, size);
    hide Turns, ReadUpTo, PageAt;
    if page != [] && StopAfter(page, tip, size) == CapReached {
      n := LoopReachesEnd(log, tip, fromLedger, size, cursor, start, p + |page|, n);
    }
  }

  lemma {:induction false} KnownStops(page: seq<RawEvent>, tip: int, size: nat)
    ensures StopAfter(page, tip, size) in {CapReached, TipReached, ShortPage}
  {
  }

  /** Every entry up to and including ledger `tip` lies before `end`. */
  ghost predicate CoversThroughTip(log: seq<RawEvent>, end: nat, tip: int) {
    forall i | end <= i < |log| :: LedgerOf(log[i]) > tip
  }

  /**
   * On a log that stands still, with fewer readable entries than the cap, the call returns
   * exactly the entries up to the end of the page that first reaches the tip. The tip ledger
   * is covered exactly when that page is the last, or is followed by a later ledger.
   */
  lemma {:induction false} TipLedgerCoveredIff(log: seq<RawEvent>, tip: int, fromLedger: int, size: nat, cursor: Option<nat>)
    returns (n: nat)
    requires size > 0 && LedgerOrdered(log) && (cursor.Some? ==> cursor.value <= |log|)
    requires
      var start := if cursor.Some? then cursor.value else FirstAtOrAfter(log, fromLedger);
      |Normalized(log[start..])| < MAX_EVENTS_PER_FETCH
    ensures
      var start := if cursor.Some? then cursor.value else FirstAtOrAfter(log, fromLedger);
      var end := FetchEnd(log, start, tip, size);
      var t := Turns(Still(log, tip), fromLedger, size, cursor, n);
      && !Continues(t) && t.stop in {EmptyPage, TipReached, ShortPage}
      && start <= end <= |log| && t.r.events == Normalized(log[start..end]) && t.r.latestLedger == tip
      && (CoversThroughTip(log, end, tip) <==> end == |log| || LedgerOf(log[end]) > tip)
  {
    var start := if cursor.Some? then cursor.value else FirstAtOrAfter(log, fromLedger);
    hide StopAfter, FirstAtOrAfter, FetchEnd, ReadEnd, Normalized, TakeTurn;
    NothingRead(log, start);
    assert Turns(Still(log, tip), fromLedger, size, cursor, 0) == Turn(EventsResponse([], fromLedger, None), CapReached);
    n := LoopReachesEnd(log, tip, fromLedger, size, cursor, start, start, 0);
    ReadEndIsFetchEnd(log, start, tip, size);
  }

  lemma {:induction false} NothingRead(log: seq<RawEvent>, p: nat)
    requires p <= |log|
    ensures Normalized(log[p..p]) == []
  {
  }

  /** Two events in the tip ledger, pages of one: the call returns the first and stops. */
  lemma {:induction false} TipLedgerCanBeCut() returns (log: seq<RawEvent>, n: nat)
    ensures LedgerOrdered(log) && |log| == 2 && LedgerOf(log[1]) == 5
    ensures
      var t := Turns(Still(log, 5), 1, 1, None, n);
      !Continues(t) && t.r == EventsResponse(Normalized(log[0..1]), 5, t.r.cursor) && |t.r.events| == 1
  {
    var e1, e2 := RpcEvent("a", 5, ["deposit"], ""), RpcEvent("b", 5, ["deposit"], "");
    log := [Readable(e1), Readable(e2)];
    NormalizedSize(log);
    assert log[0..] == log;
    n := TipLedgerCoveredIff(log, 5, 1, 1, None);
    assert FirstAtOrAfter(log, 1) == 0 && FirstAtTip(log, 0, 5) == Some(0);
    OnePage(1, 1);
    assert FetchEnd(log, 0, 5, 1) == 1;
    assert log[0..1] == [Readable(e1)];
    assert Normalized([Readable(e1)]) == [e1] + Normalized([]);
  }

  // ---- calls that do not end -----------------------------------------------

  /** A full page of entries that cannot be read. */
  function Unreadables(n: nat): (log: seq<RawEvent>)
    ensures |log| == n && forall i | 0 <= i < n :: log[i] == Unreadable(1)
  {
    seq(n, _ => Unreadable(1))
  }

  lemma {:induction false} UnreadablePage(n: nat, p: nat, size: nat)
    requires p + size <= n && size > 0
    ensures
      var page := PageAt(Unreadables(n), p, size);
      && |page| == size && Normalized(page) == [] && StopAfter(page, 2, size) == CapReached
      && PastLastReadable(page) == 0
  {
    var page := PageAt(Unreadables(n), p, size);
    UnreadableTailIsEmpty(page);
  }

  /** A node that adds a page of unreadable entries before every request. */
  function Growing(size: nat): Timeline {
    (i: nat) => Answer(Unreadables((i + 1) * size), Some(2), true)
  }

  lemma {:induction false} MoreIsLonger(i: nat, j: nat, size: nat)
    requires i <= j
    ensures i * size <= j * size
    decreases j - i
  {
    if i < j {
      MoreIsLonger(i, j - 1, size);
      assert j * size == (j - 1) * size + size;
    }
  }

  lemma {:induction false} GrowingIsHonest(size: nat)
    requires size > 0
    ensures HonestNode(Growing(size), size)
  {
    var rpc := Growing(size);
    forall i: nat, j: nat | i <= j ensures rpc(i).log <= rpc(j).log {
      MoreIsLonger(i + 1, j + 1, size);
    }
  }

  lemma {:induction false} UnreadableTurn(n: nat, p: nat, size: nat, r: EventsResponse, withCursor: bool)
    requires p + size <= n && size > 0 && r.events == []
    requires RequestPosition(Unreadables(n), 1, None, r) == p
    ensures TakeTurn(Answer(Unreadables(n), Some(2), withCursor), 1, size, None, r) ==
            Turn(EventsResponse([], 2, if withCursor then Some(p + size) else r.cursor), CapReached)
  {
    hide StopAfter, Normalized, FirstAtOrAfter, PastLastReadable;
    UnreadablePage(n, p, size);
  }

  /**
   * It is an honest node that sends cursors, but no number of requests ends the call: the
   * position moves on with the log and the event cap is never met.
   */
  lemma {:induction false} UnreadableGrowthNeverEnds(size: nat, n: nat)
    requires size > 0
    ensures HonestNode(Growing(size), size)
    ensures Turns(Growing(size), 1, size, None, n) ==
            Turn(EventsResponse([], if n == 0 then 1 else 2, if n == 0 then None else Some(n * size)), CapReached)
    ensures Continues(Turns(Growing(size), 1, size, None, n))
  {
    hide HonestNode, TakeTurn, FirstAtOrAfter;
    GrowingIsHonest(size);
    if n > 0 {
      UnreadableGrowthNeverEnds(size, n - 1);
      assert n * size == (n - 1) * size + size;
      StartOfUnreadables(n * size);
      UnreadableTurn(n * size, (n - 1) * size, size, Turns(Growing(size), 1, size, None, n - 1).r, true);
    }
  }

  lemma {:induction false} StartOfUnreadables(n: nat)
    requires n > 0
    ensures FirstAtOrAfter(Unreadables(n), 1) == 0
  {
  }

  /** Without cursors one such page is enough: it is asked for again without end. */
  lemma {:induction false} UnreadablePageIsAskedAgain(size: nat, n: nat)
    requires size > 0
    ensures
      var rpc := (i: nat) => Answer(Unreadables(size), Some(2), false);
      && Turns(rpc, 1, size, None, n) == Turn(EventsResponse([], if n == 0 then 1 else 2, None), CapReached)
      && Continues(Turns(rpc, 1, size, None, n))
  {
    hide TakeTurn, FirstAtOrAfter;
    if n > 0 {
      UnreadablePageIsAskedAgain(size, n - 1);
      StartOfUnreadables(size);
      UnreadableTurn(size, 0, size, EventsResponse([], if n == 1 then 1 else 2, None), false);
    }
  }
}
