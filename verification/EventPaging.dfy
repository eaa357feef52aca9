/**
 * `SorobanService.getEvents`: cursor paging over the event log of an RPC node.
 *
 * The node is a timeline of replies, one per request. Every answered request
 * shows the log as it stood then; the log may have grown since the previous
 * page. Cursors are positions in that log.
 */
module EventPaging {
  import opened Prelude

  const MAX_EVENTS_PER_FETCH: nat := 10_000
  const MAX_PAGE_SIZE: nat := 200

  datatype RpcEvent = RpcEvent(id: string, ledger: int, topic: seq<string>, value: string)

  /** An entry as the node sends it: `normalizeEvent` either reads it or drops it. */
  datatype RawEvent = Readable(event: RpcEvent) | Unreadable(at: int)

  function LedgerOf(e: RawEvent): int {
    match e
    case Readable(event) => event.ledger
    case Unreadable(at) => at
  }

  /** `rawEvents.map(normalizeEvent).filter(e => e !== null)` */
  function Normalized(page: seq<RawEvent>): seq<RpcEvent> {
    if page == [] then []
    else
      (match page[0]
       case Readable(event) => [event]
       case Unreadable(_) => []) + Normalized(page[1..])
  }

  lemma {:induction false} NormalizedAppend(a: seq<RawEvent>, b: seq<RawEvent>)
    ensures Normalized(a + b) == Normalized(a) + Normalized(b)
  {
    if a == [] {
      assert a + b == b;
    } else {
      NormalizedAppend(a[1..], b);
      assert (a + b)[1..] == a[1..] + b;
    }
  }

  lemma {:induction false} NormalizedSize(page: seq<RawEvent>)
    ensures |Normalized(page)| <= |page|
  {
    if page != [] {
      NormalizedSize(page[1..]);
    }
  }

  /** The request either fails after its retries (or returns a JSON-RPC error), or is answered. */
  datatype Reply = Failed | Answer(log: seq<RawEvent>, latestLedger: Option<int>, withCursor: bool)

  type Timeline = nat -> Reply

  ghost predicate LedgerOrdered(log: seq<RawEvent>) {
    forall i, j | 0 <= i <= j < |log| :: LedgerOf(log[i]) <= LedgerOf(log[j])
  }

  /** Whether the page of `size` entries from `p` on has an entry that can be read. */
  ghost predicate PageProgress(log: seq<RawEvent>, p: nat, size: nat)
    requires p + size <= |log|
  {
    exists k :: p <= k < p + size && log[k].Readable?
  }

  ghost predicate Productive(log: seq<RawEvent>, size: int) {
    forall p: nat | size > 0 && p + size <= |log| :: PageProgress(log, p, size)
  }

  /** The position moves on: the node sends a cursor, or every full page holds something readable. */
  ghost predicate MovesOn(body: Reply, size: int)
    requires body.Answer?
  {
    body.withCursor || Productive(body.log, size)
  }

  /** An append-only, ledger-ordered log whose pages move the position. */
  ghost predicate HonestNode(rpc: Timeline, size: int) {
    && (forall i: nat | rpc(i).Answer? :: LedgerOrdered(rpc(i).log) && MovesOn(rpc(i), size))
    && (forall i: nat, j: nat | i <= j && rpc(i).Answer? && rpc(j).Answer? :: rpc(i).log <= rpc(j).log)
  }

  ghost predicate AlwaysProductive(rpc: Timeline, size: int) {
    forall i: nat | rpc(i).Answer? :: Productive(rpc(i).log, size)
  }

  /** While the call lasts the log stays below some length. */
  ghost predicate GrowsUpTo(rpc: Timeline, bound: nat) {
    forall i: nat | rpc(i).Answer? :: |rpc(i).log| <= bound
  }

  /** Where a request carrying `startLedger` begins. */
  function FirstAtOrAfter(log: seq<RawEvent>, ledger: int): (p: nat)
    ensures p <= |log|
    ensures forall i | 0 <= i < p :: LedgerOf(log[i]) < ledger
    ensures p < |log| ==> LedgerOf(log[p]) >= ledger
  {
    if log == [] || LedgerOf(log[0]) >= ledger then 0
    else
      var rest := FirstAtOrAfter(log[1..], ledger);
      assert forall i | 0 < i < rest + 1 :: log[i] == log[1..][i - 1];
      rest + 1
  }

  /** Growth of the log does not move a start point that already lies inside it. */
  lemma {:induction false} StartIsStable(short: seq<RawEvent>, long: seq<RawEvent>, ledger: int)
    requires short <= long
    requires FirstAtOrAfter(short, ledger) < |short|
    ensures FirstAtOrAfter(long, ledger) == FirstAtOrAfter(short, ledger)
  {
    var p := FirstAtOrAfter(short, ledger);
    assert forall i | 0 <= i < p :: LedgerOf(long[i]) == LedgerOf(short[i]) < ledger;
    assert LedgerOf(long[p]) >= ledger;
  }

  /** The node's answer to a request for `size` entries from position `p`. */
  function PageAt(log: seq<RawEvent>, p: nat, size: int): (page: seq<RawEvent>) {
    if size <= 0 || p > |log| then [] else log[p..Min(p + size, |log|)]
  }

  function MaxLedger(events: seq<RpcEvent>): Option<int> {
    if events == [] then None
    else
      match MaxLedger(events[1..])
      case None => Some(events[0].ledger)
      case Some(m) => Some(Max(events[0].ledger, m))
  }

  /** Offset just past the last readable entry: what the id of the last kept event points at. */
  function PastLastReadable(page: seq<RawEvent>): (k: nat)
    ensures k <= |page|
    ensures forall i | k <= i < |page| :: page[i].Unreadable?
    ensures k > 0 ==> page[k - 1].Readable?
  {
    if page == [] then 0
    else if page[|page| - 1].Readable? then |page|
    else PastLastReadable(page[..|page| - 1])
  }

  /** Position the next request resumes from: the node's cursor, else the last kept event's id. */
  function NextPosition(p: nat, page: seq<RawEvent>, withCursor: bool): nat {
    if withCursor then p + |page| else p + PastLastReadable(page)
  }

  /**
   * Exactly when a non-empty page moves the request position. A full page with no
   * readable entry from a node that sends no cursor would be asked for again forever.
   */
  lemma {:induction false} PositionMovesIff(p: nat, page: seq<RawEvent>, withCursor: bool)
    requires page != []
    ensures NextPosition(p, page, withCursor) > p <==>
            withCursor || (exists k :: 0 <= k < |page| && page[k].Readable?)
  {
    var k := PastLastReadable(page);
    if k > 0 {
      assert page[k - 1].Readable?;
    }
  }

  lemma {:induction false} UnreadableTailIsEmpty(page: seq<RawEvent>)
    requires forall i | 0 <= i < |page| :: page[i].Unreadable?
    ensures Normalized(page) == []
  {
    if page != [] {
      UnreadableTailIsEmpty(page[1..]);
    }
  }

  lemma {:induction false} ReadableIsKept(page: seq<RawEvent>, k: nat)
    requires k < |page| && page[k].Readable?
    ensures page[k].event in Normalized(page)
  {
    if k > 0 {
      ReadableIsKept(page[1..], k - 1);
    }
  }

  lemma {:induction false} KeptWasReadable(page: seq<RawEvent>, e: RpcEvent)
    requires e in Normalized(page)
    ensures exists k :: 0 <= k < |page| && page[k] == Readable(e)
  {
    if page[0] == Readable(e) {
    } else {
      KeptWasReadable(page[1..], e);
      var k :| 0 <= k < |page[1..]| && page[1..][k] == Readable(e);
      assert page[k + 1] == Readable(e);
    }
  }

  lemma {:induction false} MaxLedgerIsReached(events: seq<RpcEvent>)
    requires events != []
    ensures MaxLedger(events).Some?
    ensures exists e :: e in events && e.ledger == MaxLedger(events).value
  {
    if |events| == 1 {
      assert events[0] in events;
    } else {
      MaxLedgerIsReached(events[1..]);
      var e :| e in events[1..] && e.ledger == MaxLedger(events[1..]).value;
      assert e in events;
      assert events[0] in events;
    }
  }

  datatype EventsResponse = EventsResponse(events: seq<RpcEvent>, latestLedger: int, cursor: Option<nat>)

  datatype Stop = NotConfigured | PageFailed | CapReached | EmptyPage | TipReached | ShortPage

  /** What a call saw: the last log shown, and the segment of it that was read. */
  datatype Trace = Trace(log: seq<RawEvent>, start: nat, end: nat, answered: nat, stop: Stop)

  /** The response holds the readable entries of `log[start..end]`, each once and in order. */
  ghost predicate IsSegment(r: EventsResponse, log: seq<RawEvent>, start: nat, end: nat) {
    && start <= end <= |log|
    && r.events == Normalized(log[start..end])
    && (r.cursor.Some? ==>
          && start <= r.cursor.value <= end
          && r.events == Normalized(log[start..r.cursor.value]))
  }

  /** Nothing readable past the segment has a ledger below the reported tip. */
  ghost predicate CoversBelowTip(r: EventsResponse, log: seq<RawEvent>, end: nat) {
    forall i | end <= i < |log| :: LedgerOf(log[i]) >= r.latestLedger
  }

  function PageSize(limit: Option<int>): int {
    Min(if limit.Some? then limit.value else MAX_PAGE_SIZE, MAX_PAGE_SIZE)
  }

  /** Adjacent segments join: reading on from a position neither skips nor repeats an entry. */
  lemma {:induction false} SegmentsJoin(log: seq<RawEvent>, a: nat, b: nat, c: nat)
    requires a <= b <= c <= |log|
    ensures Normalized(log[a..b]) + Normalized(log[b..c]) == Normalized(log[a..c])
  {
    assert log[a..b] + log[b..c] == log[a..c];
    NormalizedAppend(log[a..b], log[b..c]);
  }

  lemma {:induction false} DropUnreadableTail(page: seq<RawEvent>)
    ensures Normalized(page[..PastLastReadable(page)]) == Normalized(page)
  {
    var k := PastLastReadable(page);
    UnreadableTailIsEmpty(page[k..]);
    NormalizedAppend(page[..k], page[k..]);
    assert page == page[..k] + page[k..];
  }

  /** What the next position leaves behind on a page is all unreadable. */
  lemma {:induction false} NothingReadableLeft(log: seq<RawEvent>, p: nat, page: seq<RawEvent>, withCursor: bool)
    requires p + |page| <= |log| && page == log[p..p + |page|]
    ensures p <= NextPosition(p, page, withCursor) <= p + |page|
    ensures Normalized(log[p..NextPosition(p, page, withCursor)]) == Normalized(page)
  {
    if !withCursor {
      DropUnreadableTail(page);
      assert page[..PastLastReadable(page)] == log[p..NextPosition(p, page, withCursor)];
    }
  }

  lemma {:induction false} TipCovers(log: seq<RawEvent>, p: nat, page: seq<RawEvent>, latest: int)
    requires LedgerOrdered(log)
    requires p + |page| <= |log| && page == log[p..p + |page|]
    requires MaxLedger(Normalized(page)).Some? && MaxLedger(Normalized(page)).value >= latest
    ensures forall i | p + |page| <= i < |log| :: LedgerOf(log[i]) >= latest
  {
    MaxLedgerIsReached(Normalized(page));
    var e :| e in Normalized(page) && e.ledger >= latest;
    KeptWasReadable(page, e);
    var k :| 0 <= k < |page| && page[k] == Readable(e);
    assert log[p + k] == page[k];
  }

  /** The running response once a non-empty page has been absorbed. */
  function AfterPage(r: EventsResponse, latest: int, p: nat, page: seq<RawEvent>, withCursor: bool): EventsResponse {
    var pageEvents := Normalized(page);
    EventsResponse(
      r.events + pageEvents,
      latest,
      if withCursor || pageEvents != [] then Some(NextPosition(p, page, withCursor)) else r.cursor)
  }

  lemma {:induction false} AfterPageIsSegment(r: EventsResponse, latest: int, log: seq<RawEvent>, start: nat, p: nat,
                                              page: seq<RawEvent>, withCursor: bool)
    requires IsSegment(r, log, start, p)
    requires p + |page| <= |log| && page == log[p..p + |page|]
    ensures IsSegment(AfterPage(r, latest, p, page, withCursor), log, start, p + |page|)
    ensures |AfterPage(r, latest, p, page, withCursor).events| <= |r.events| + |page|
  {
    SegmentsJoin(log, start, p, p + |page|);
    NothingReadableLeft(log, p, page, withCursor);
    SegmentsJoin(log, start, p, NextPosition(p, page, withCursor));
    NormalizedSize(page);
  }

  /** A segment of one log is the same segment of every log that extends it. */
  lemma {:induction false} SegmentSurvivesGrowth(r: EventsResponse, log: seq<RawEvent>, start: nat, end: nat,
                                                 longer: seq<RawEvent>)
    requires IsSegment(r, log, start, end) && log <= longer
    ensures IsSegment(r, longer, start, end)
  {
    assert log[start..end] == longer[start..end];
    if r.cursor.Some? {
      assert log[start..r.cursor.value] == longer[start..r.cursor.value];
    }
  }

  /** Where reading began: the caller's cursor, or the first entry of the requested ledger on. */
  ghost predicate StartsRight(log: seq<RawEvent>, start: nat, fromLedger: int, cursor: Option<nat>) {
    start == if cursor.Some? then cursor.value else FirstAtOrAfter(log, fromLedger)
  }

  ghost predicate Shown(rpc: Timeline, request: nat, log: seq<RawEvent>) {
    rpc(request).Answer? && rpc(request).log == log
  }

  /** The next request, on whatever the log has become, goes on where the last one stopped. */
  lemma {:induction false} Resume(log: seq<RawEvent>, request: nat, fromLedger: int, cursor: Option<nat>, r: EventsResponse, t: Trace)
    returns (t': Trace)
    requires cursor.Some? ==> cursor.value <= |log|
    requires request == 0 ==> r.events == [] && r.cursor.None?
    requires request > 0 ==>
               && IsSegment(r, t.log, t.start, t.end) && r.cursor.Some?
               && t.log <= log
               && t.start < |t.log| && StartsRight(t.log, t.start, fromLedger, cursor)
    ensures t'.log == log && t'.answered == request + 1 && t'.stop == CapReached
    ensures t'.end == RequestPosition(log, fromLedger, cursor, r)
    ensures IsSegment(r, t'.log, t'.start, t'.end) && StartsRight(t'.log, t'.start, fromLedger, cursor)
  {
    var p := RequestPosition(log, fromLedger, cursor, r);
    t' := Trace(log, if request == 0 then p else t.start, p, request + 1, CapReached);
    if request > 0 {
      SegmentSurvivesGrowth(r, t.log, t.start, t.end, log);
      if cursor.None? {
        StartIsStable(t.log, log, fromLedger);
      }
    }
  }

  /** Where a request starts: the newest cursor at hand, else `startLedger`. */
  function RequestPosition(log: seq<RawEvent>, fromLedger: int, cursor: Option<nat>, r: EventsResponse): nat {
    if r.cursor.Some? then r.cursor.value
    else if cursor.Some? then cursor.value
    else FirstAtOrAfter(log, fromLedger)
  }

  /** What holds of the running response before the request numbered `request`. */
  ghost predicate InProgress(request: nat, fromLedger: int, cursor: Option<nat>, r: EventsResponse, t: Trace) {
    && t.stop == CapReached && t.answered == request
    && IsSegment(r, t.log, t.start, t.end)
    && (request == 0 ==> r == EventsResponse([], fromLedger, None))
    && (request > 0 ==>
          && r.cursor.Some?
          && t.start < |t.log| && LedgerOrdered(t.log) && StartsRight(t.log, t.start, fromLedger, cursor))
  }

  /** What holds once the loop has been left on account of the page just handled. */
  ghost predicate Finished(size: int, fromLedger: int, cursor: Option<nat>, r: EventsResponse, t: Trace) {
    && IsSegment(r, t.log, t.start, t.end)
    && t.stop in {PageFailed, EmptyPage, TipReached, ShortPage}
    && (t.answered > 0 ==> LedgerOrdered(t.log) && StartsRight(t.log, t.start, fromLedger, cursor))
    && (t.stop in {EmptyPage, TipReached, ShortPage} && size > 0 ==> CoversBelowTip(r, t.log, t.end))
    && (t.stop in {EmptyPage, ShortPage} && size > 0 ==> t.end == |t.log|)
    && (t.answered == 0 ==> r == EventsResponse([], fromLedger, None))
  }

  /** The stop rules after a non-empty page: chain tip reached, or a short page; else go on. */
  function StopAfter(page: seq<RawEvent>, latest: int, pageSize: int): Stop {
    var maxPageLedger := MaxLedger(Normalized(page));
    if maxPageLedger.Some? && maxPageLedger.value >= latest then TipReached
    else if |page| < pageSize then ShortPage
    else CapReached
  }

  /** What the loop has after a turn; `CapReached` stands for going on while the cap allows. */
  datatype Turn = Turn(r: EventsResponse, stop: Stop)

  function LatestOf(body: Reply, r: EventsResponse): int
    requires body.Answer?
  {
    if body.latestLedger.Some? then body.latestLedger.value else r.latestLedger
  }

  /** One turn of the paging loop, as a function of the reply. */
  function TakeTurn(body: Reply, fromLedger: int, pageSize: int, cursor: Option<nat>, r: EventsResponse): Turn {
    if body.Failed? then Turn(r, PageFailed)
    else
      var p := RequestPosition(body.log, fromLedger, cursor, r);
      var page := PageAt(body.log, p, pageSize);
      if page == [] then Turn(r.(latestLedger := LatestOf(body, r)), EmptyPage)
      else Turn(AfterPage(r, LatestOf(body, r), p, page, body.withCursor), StopAfter(page, LatestOf(body, r), pageSize))
  }

  /** Whether the loop goes on. */
  predicate Continues(t: Turn) {
    t.stop == CapReached && |t.r.events| < MAX_EVENTS_PER_FETCH
  }

  /** The loop after at most `n` requests. */
  function Turns(rpc: Timeline, fromLedger: int, pageSize: int, cursor: Option<nat>, n: nat): Turn {
    if n == 0 then Turn(EventsResponse([], fromLedger, None), CapReached)
    else
      var before := Turns(rpc, fromLedger, pageSize, cursor, n - 1);
      if Continues(before) then TakeTurn(rpc(n - 1), fromLedger, pageSize, cursor, before.r) else before
  }

  /** A non-empty page is a slice of the log; what each stop rule says about the rest of it. */
  lemma {:induction false} PageFacts(log: seq<RawEvent>, p: nat, size: int, latest: int, withCursor: bool)
    requires LedgerOrdered(log) && (withCursor || Productive(log, size))
    requires p <= |log| && PageAt(log, p, size) != []
    ensures
      var page := PageAt(log, p, size);
      var stop := StopAfter(page, latest, size);
      && p + |page| <= |log| && page == log[p..p + |page|] && |page| <= size
      && (stop == TipReached ==> forall i | p + |page| <= i < |log| :: LedgerOf(log[i]) >= latest)
      && (stop == ShortPage ==> p + |page| == |log|)
      && (stop == CapReached && Productive(log, size) ==> Normalized(page) != [])
      && (stop == CapReached ==> NextPosition(p, page, withCursor) > p)
  {
    var page := PageAt(log, p, size);
    var stop := StopAfter(page, latest, size);
    if stop == TipReached {
      TipCovers(log, p, page, latest);
    } else if stop == CapReached && Productive(log, size) {
      FullPageProgress(log, p, size);
      if NextPosition(p, page, withCursor) == p {
        UnreadableTailIsEmpty(page);
      }
    }
  }

  lemma {:induction false} PageEndsLoop(body: Reply, fromLedger: int, pageSize: int, cursor: Option<nat>, latest: int,
                                        r: EventsResponse, t: Trace)
    requires body.Answer? && LedgerOrdered(body.log) && MovesOn(body, pageSize)
    requires t.log == body.log && t.answered > 0
    requires IsSegment(r, t.log, t.start, t.end) && StartsRight(t.log, t.start, fromLedger, cursor)
    requires PageAt(body.log, t.end, pageSize) != []
    requires StopAfter(PageAt(body.log, t.end, pageSize), latest, pageSize) != CapReached
    ensures
      var page := PageAt(body.log, t.end, pageSize);
      Finished(pageSize, fromLedger, cursor,
               AfterPage(r, latest, t.end, page, body.withCursor),
               t.(end := t.end + |page|, stop := StopAfter(page, latest, pageSize)))
  {
    hide LedgerOrdered, Productive, MaxLedger, FirstAtOrAfter, Normalized, NextPosition;
    PageFacts(body.log, t.end, pageSize, latest, body.withCursor);
    AfterPageIsSegment(r, latest, t.log, t.start, t.end, PageAt(body.log, t.end, pageSize), body.withCursor);
  }

  lemma {:induction false} EmptyPageEndsLoop(body: Reply, fromLedger: int, pageSize: int, cursor: Option<nat>,
                                             latest: int, r: EventsResponse, t: Trace)
    requires body.Answer? && LedgerOrdered(body.log)
    requires t.log == body.log && t.answered > 0
    requires IsSegment(r, t.log, t.start, t.end) && StartsRight(t.log, t.start, fromLedger, cursor)
    requires PageAt(body.log, t.end, pageSize) == []
    ensures Finished(pageSize, fromLedger, cursor, r.(latestLedger := latest), t.(stop := EmptyPage))
  {
    hide LedgerOrdered, Normalized, FirstAtOrAfter;
  }

  lemma {:induction false} PageGoesOn(body: Reply, fromLedger: int, pageSize: int, cursor: Option<nat>, latest: int,
                                      r: EventsResponse, t: Trace)
    requires body.Answer? && LedgerOrdered(body.log) && MovesOn(body, pageSize)
    requires t.log == body.log && t.answered > 0 && t.stop == CapReached
    requires IsSegment(r, t.log, t.start, t.end) && StartsRight(t.log, t.start, fromLedger, cursor)
    requires PageAt(body.log, t.end, pageSize) != []
    requires StopAfter(PageAt(body.log, t.end, pageSize), latest, pageSize) == CapReached
    ensures
      var page := PageAt(body.log, t.end, pageSize);
      var r' := AfterPage(r, latest, t.end, page, body.withCursor);
      && (Productive(body.log, pageSize) ==> |r'.events| > |r.events|)
      && r'.cursor.Some? && r'.cursor.value > t.end
      && InProgress(t.answered, fromLedger, cursor, r', t.(end := t.end + |page|))
  {
    hide LedgerOrdered, Productive, MaxLedger, FirstAtOrAfter, Normalized, NextPosition;
    PageFacts(body.log, t.end, pageSize, latest, body.withCursor);
    AfterPageIsSegment(r, latest, t.log, t.start, t.end, PageAt(body.log, t.end, pageSize), body.withCursor);
  }

  /** How far the requests have come: one past the newest cursor. */
  function Reached(r: EventsResponse): nat {
    if r.cursor.Some? then r.cursor.value + 1 else 0
  }

  /** One turn of the paging loop: one request and what it adds to the running response. */
  method ReadPage(body: Reply, request: nat, fromLedger: int, pageSize: int, cursor: Option<nat>,
                  r: EventsResponse, ghost t: Trace)
    returns (r': EventsResponse, more: bool, ghost t': Trace)
    requires body.Answer? ==> LedgerOrdered(body.log) && MovesOn(body, pageSize)
    requires body.Answer? && request > 0 ==> t.log <= body.log
    requires body.Answer? && cursor.Some? ==> cursor.value <= |body.log|
    requires InProgress(request, fromLedger, cursor, r, t)
    ensures Turn(r', t'.stop) == TakeTurn(body, fromLedger, pageSize, cursor, r) && (more <==> t'.stop == CapReached)
    ensures |r.events| <= |r'.events| <= |r.events| + Max(pageSize, 0)
    ensures t'.answered <= request + 1
    ensures more ==> InProgress(request + 1, fromLedger, cursor, r', t') && Reached(r') > Reached(r)
    ensures more && Productive(body.log, pageSize) ==> |r'.events| > |r.events|
    ensures more ==> body.Answer? && t'.log == body.log
    ensures !more ==> Finished(pageSize, fromLedger, cursor, r', t')
  {
    hide LedgerOrdered, Productive, MovesOn, IsSegment, AfterPage, StopAfter, Normalized, FirstAtOrAfter;
    if body.Failed? {
      r', t', more := r, t.(stop := PageFailed), false;
      return;
    }
    var p := RequestPosition(body.log, fromLedger, cursor, r);
    t' := Resume(body.log, request, fromLedger, cursor, r, t);

    var latestLedger := if body.latestLedger.Some? then body.latestLedger.value else r.latestLedger;
    var rawEvents := PageAt(body.log, p, pageSize);
    if rawEvents == [] {
      EmptyPageEndsLoop(body, fromLedger, pageSize, cursor, latestLedger, r, t');
      r', t', more := r.(latestLedger := latestLedger), t'.(stop := EmptyPage), false;
      return;
    }
    var stop := StopAfter(rawEvents, latestLedger, pageSize);
    more := stop == CapReached;
    PageSizeBound(r, latestLedger, body.log, p, pageSize, body.withCursor);
    if more {
      PageGoesOn(body, fromLedger, pageSize, cursor, latestLedger, r, t');
    } else {
      PageEndsLoop(body, fromLedger, pageSize, cursor, latestLedger, r, t');
    }
    r' := AfterPage(r, latestLedger, p, rawEvents, body.withCursor);
    t' := t'.(end := p + |rawEvents|, stop := stop);
  }

  lemma {:induction false} PageSizeBound(r: EventsResponse, latest: int, log: seq<RawEvent>, p: nat, size: int,
                                         withCursor: bool)
    ensures |r.events| <= |AfterPage(r, latest, p, PageAt(log, p, size), withCursor).events| <= |r.events| + Max(size, 0)
  {
    NormalizedSize(PageAt(log, p, size));
  }

  /** What a finished call promises of its response. */
  ghost predicate Delivered(size: int, fromLedger: int, cursor: Option<nat>, r: EventsResponse, t: Trace) {
    && IsSegment(r, t.log, t.start, t.end)
    && (t.answered > 0 ==> LedgerOrdered(t.log) && StartsRight(t.log, t.start, fromLedger, cursor))
    && (t.stop in {EmptyPage, TipReached, ShortPage} && size > 0 ==> CoversBelowTip(r, t.log, t.end))
    && (t.stop in {EmptyPage, ShortPage} && size > 0 ==> t.end == |t.log|)
    && (t.stop == CapReached ==> |r.events| >= MAX_EVENTS_PER_FETCH)
    && (t.answered == 0 ==> r == EventsResponse([], fromLedger, None))
  }

  lemma {:induction false} LoopDelivers(size: int, request: nat, fromLedger: int, cursor: Option<nat>, r: EventsResponse, t: Trace)
    requires Finished(size, fromLedger, cursor, r, t) ||
             (InProgress(request, fromLedger, cursor, r, t) && |r.events| >= MAX_EVENTS_PER_FETCH)
    ensures Delivered(size, fromLedger, cursor, r, t)
  {
    hide IsSegment, LedgerOrdered, FirstAtOrAfter;
  }

  lemma {:induction false} NothingYet(size: int, fromLedger: int, cursor: Option<nat>, r: EventsResponse, t: Trace)
    requires r == EventsResponse([], fromLedger, None) && t == Trace([], 0, 0, 0, t.stop)
    ensures t.stop == CapReached ==> InProgress(0, fromLedger, cursor, r, t)
    ensures t.stop == NotConfigured ==> Delivered(size, fromLedger, cursor, r, t)
  {
  }

  lemma {:induction false} CursorInLog(request: nat, fromLedger: int, cursor: Option<nat>, r: EventsResponse, t: Trace)
    requires InProgress(request, fromLedger, cursor, r, t)
    ensures Reached(r) <= |t.log| + 1
  {
  }

  /**
   * The paging loop. `rpc(i)` is the node's reply to the i-th request of this call.
   * `cursor` comes from an earlier response, so it lies inside every later log. The
   * call ends because every page adds an event, or because the log does not outgrow
   * `bound` while it lasts.
   */
  method GetEvents(configured: bool, rpc: Timeline, fromLedger: int, limit: Option<int>, cursor: Option<nat>,
                   ghost bound: nat)
    returns (r: EventsResponse, ghost t: Trace, ghost requests: nat)
    requires HonestNode(rpc, PageSize(limit))
    requires AlwaysProductive(rpc, PageSize(limit)) || GrowsUpTo(rpc, bound)
    requires cursor.Some? ==> forall i: nat | rpc(i).Answer? :: cursor.value <= |rpc(i).log|
    ensures configured ==>
              var last := Turns(rpc, fromLedger, PageSize(limit), cursor, requests);
              r == last.r && t.stop == last.stop && !Continues(last)
    ensures !configured ==> r == EventsResponse([], fromLedger, None) && requests == 0
    ensures Delivered(PageSize(limit), fromLedger, cursor, r, t)
    ensures |r.events| < MAX_EVENTS_PER_FETCH + Max(PageSize(limit), 0)
    ensures AlwaysProductive(rpc, PageSize(limit)) ==> requests <= MAX_EVENTS_PER_FETCH + 1
    ensures GrowsUpTo(rpc, bound) ==> requests <= bound + 2
  {
    hide Productive, LedgerOrdered, MovesOn, TakeTurn, InProgress, Finished, Delivered;
    r := EventsResponse([], fromLedger, None);
    t := Trace([], 0, 0, 0, NotConfigured);
    requests := 0;
    NothingYet(PageSize(limit), fromLedger, cursor, r, t);
    if !configured {
      return;
    }
    var pageSize := PageSize(limit);
    var request, more := 0, true;
    ghost var productive := AlwaysProductive(rpc, pageSize);
    t := t.(stop := CapReached);
    NothingYet(pageSize, fromLedger, cursor, r, t);

    while more && |r.events| < MAX_EVENTS_PER_FETCH
      invariant Turn(r, t.stop) == Turns(rpc, fromLedger, pageSize, cursor, requests) && (more <==> t.stop == CapReached)
      invariant requests == if more then request else request + 1
      invariant more ==> request <= Reached(r)
      invariant productive ==> request <= |r.events| && request <= MAX_EVENTS_PER_FETCH
      invariant |r.events| < MAX_EVENTS_PER_FETCH + Max(pageSize, 0)
      invariant more ==> InProgress(request, fromLedger, cursor, r, t)
      invariant more && request > 0 ==> Shown(rpc, request - 1, t.log)
      invariant GrowsUpTo(rpc, bound) ==> request <= bound + 1 && (more ==> Reached(r) <= bound + 1)
      invariant !more ==> Finished(pageSize, fromLedger, cursor, r, t)
      decreases more, if productive then MAX_EVENTS_PER_FETCH - |r.events| else bound + 1 - Reached(r)
    {
      r, more, t := ReadPage(rpc(request), request, fromLedger, pageSize, cursor, r, t);
      requests := request + 1;
      if more {
        request := request + 1;
        CursorInLog(request, fromLedger, cursor, r, t);
      }
    }
    LoopDelivers(pageSize, request, fromLedger, cursor, r, t);
  }

  lemma {:induction false} FullPageProgress(log: seq<RawEvent>, p: nat, size: nat)
    requires size > 0 && p + size <= |log| && Productive(log, size)
    ensures Normalized(log[p..p + size]) != []
  {
    assert PageProgress(log, p, size);
    var k :| p <= k < p + size && log[k].Readable?;
    ReadableIsKept(log[p..p + size], k - p);
  }

  /** A second call made with the returned cursor continues the very same segment. */
  lemma {:induction false} ResumedFetchContinues(r1: EventsResponse, t1: Trace, r2: EventsResponse, t2: Trace)
    requires IsSegment(r1, t1.log, t1.start, t1.end) && IsSegment(r2, t2.log, t2.start, t2.end)
    requires t1.log <= t2.log
    requires r1.cursor == Some(t2.start)
    ensures t1.start <= t2.start
    ensures r1.events + r2.events == Normalized(t2.log[t1.start..t2.end])
  {
    SegmentSurvivesGrowth(r1, t1.log, t1.start, t1.end, t2.log);
    SegmentsJoin(t2.log, t1.start, t2.start, t2.end);
  }
}
