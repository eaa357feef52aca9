/**
 * `EmailService`'s in-memory queue: one email is taken at a time, in order, and only
 * while fewer than the configured number were sent in the last minute. A delivery
 * suspends, so requests and other runs of the job fall between its start and its end.
 */
module EmailQueue {
  import opened Prelude

  const WINDOW := 60_000

  datatype Email = Email(to: string, userAddress: Option<string>, body: string)

  /** How a delivery ended. */
  datatype Outcome = Outcome(email: Email, sent: bool, at: int)

  /**
   * The service's queue, its recent timestamps and the email in delivery; then the
   * clock, the emails accepted so far, and how each delivery ended.
   */
  datatype State = State(
    queue: seq<Email>,
    recent: seq<int>,
    inFlight: Option<Email>,
    clock: int,
    accepted: seq<Email>,
    done: seq<Outcome>)

  datatype Step =
    | Queue(email: Email, allowed: bool, now: int)
    | Start(now: int)
    | Finish(delivered: bool, now: int)

  // ---- the operations ------------------------------------------------------

  predicate Queueable(email: Email, allowed: bool) {
    email.to != "" && (email.userAddress.Some? ==> allowed)
  }

  /** `filter((t) => t >= cutoff)` */
  function Recent(ts: seq<int>, cutoff: int): seq<int> {
    if ts == [] then []
    else if ts[0] >= cutoff then [ts[0]] + Recent(ts[1..], cutoff)
    else Recent(ts[1..], cutoff)
  }

  function Next(limit: nat, s: State, step: Step): State {
    match step
    case Queue(email, allowed, now) =>
      if Queueable(email, allowed)
      then s.(queue := s.queue + [email], accepted := s.accepted + [email], clock := now)
      else s.(clock := now)
    case Start(now) =>
      if s.inFlight.Some? || s.queue == [] then s.(clock := now)
      else
        var recent := Recent(s.recent, now - WINDOW);
        if |recent| < limit
        then s.(recent := recent, inFlight := Some(s.queue[0]), queue := s.queue[1..], clock := now)
        else s.(recent := recent, clock := now)
    case Finish(delivered, now) =>
      if s.inFlight.None? then s.(clock := now)
      else s.(recent := if delivered then s.recent + [now] else s.recent, inFlight := None, clock := now,
              done := s.done + [Outcome(s.inFlight.value, delivered, now)])
  }

  class EmailService {
    const limit: nat
    var queue: seq<Email>
    var sentTimestamps: seq<int>
    var inFlight: Option<Email>
    ghost var clock: int
    ghost var accepted: seq<Email>
    ghost var done: seq<Outcome>

    constructor (limit: nat)
      ensures View() == State([], [], None, 0, [], []) && this.limit == limit
    {
      this.limit := limit;
      queue, sentTimestamps, inFlight := [], [], None;
      clock, accepted, done := 0, [], [];
    }

    ghost function View(): State
      reads this
    {
      State(queue, sentTimestamps, inFlight, clock, accepted, done)
    }

    method QueueEmail(email: Email, allowed: bool, now: int) returns (queued: bool)
      modifies this
      ensures View() == Next(limit, old(View()), Queue(email, allowed, now))
      ensures queued <==> Queueable(email, allowed)
    {
      clock := now;
      if email.to == "" || (email.userAddress.Some? && !allowed) {
        return false;
      }
      queue := queue + [email];
      accepted := accepted + [email];
      queued := true;
    }

    method CanSendMore(now: int) returns (more: bool)
      modifies this`sentTimestamps
      ensures sentTimestamps == Recent(old(sentTimestamps), now - WINDOW)
      ensures more <==> |sentTimestamps| < limit
    {
      sentTimestamps := Recent(sentTimestamps, now - WINDOW);
      more := |sentTimestamps| < limit;
    }

    /** `processQueue` up to the point where the delivery suspends. */
    method StartProcessing(now: int)
      modifies this
      ensures View() == Next(limit, old(View()), Start(now))
    {
      clock := now;
      if inFlight.Some? || queue == [] {
        return;
      }
      var more := CanSendMore(now);
      if !more {
        return;
      }
      inFlight := Some(queue[0]);
      queue := queue[1..];
    }

    /** The rest of `processQueue`, once the delivery has succeeded or thrown. */
    method FinishProcessing(delivered: bool, now: int)
      requires inFlight.Some?
      modifies this
      ensures View() == Next(limit, old(View()), Finish(delivered, now))
    {
      clock := now;
      done := done + [Outcome(inFlight.value, delivered, now)];
      if delivered {
        sentTimestamps := sentTimestamps + [now];
      }
      inFlight := None;
    }
  }

  // ---- conservation and order ----------------------------------------------

  function Emails(done: seq<Outcome>): (r: seq<Email>)
    ensures |r| == |done|
  {
    seq(|done|, i requires 0 <= i < |done| => done[i].email)
  }

  function InFlight(s: State): seq<Email> {
    if s.inFlight.Some? then [s.inFlight.value] else []
  }

  /** Deliveries follow the order of acceptance, and no accepted email is lost or repeated. */
  ghost predicate FirstInFirstOut(s: State) {
    s.accepted == Emails(s.done) + InFlight(s) + s.queue
  }

  lemma {:induction false} StepIsFifo(limit: nat, s: State, step: Step)
    requires FirstInFirstOut(s)
    ensures FirstInFirstOut(Next(limit, s, step))
  {
    hide Recent;
    var t := Next(limit, s, step);
    match step
    case Queue(_, _, _) =>
    case Start(_) =>
      if t.inFlight != s.inFlight {
        assert s.queue == [s.queue[0]] + s.queue[1..];
      }
    case Finish(_, _) =>
      if t.inFlight != s.inFlight {
        assert Emails(t.done) == Emails(s.done) + InFlight(s);
      }
  }

  // ---- the rate limit ------------------------------------------------------

  /** When emails were sent, in order. */
  function SentTimes(done: seq<Outcome>): seq<int> {
    if done == [] then []
    else SentTimes(done[..|done| - 1]) + (if done[|done| - 1].sent then [done[|done| - 1].at] else [])
  }

  ghost predicate Sorted(ts: seq<int>) {
    forall i, j | 0 <= i <= j < |ts| :: ts[i] <= ts[j]
  }

  ghost predicate AtMost(ts: seq<int>, bound: int) {
    forall i | 0 <= i < |ts| :: ts[i] <= bound
  }

  /** Any `limit` + 1 consecutive sends span more than a minute. */
  ghost predicate Spaced(ts: seq<int>, limit: nat) {
    forall j | limit <= j < |ts| :: ts[j] - ts[j - limit] > WINDOW
  }

  /** `recent` is the end of `ts`, and what was dropped is over a minute old. */
  ghost predicate IsRecentEnd(recent: seq<int>, ts: seq<int>, clock: int) {
    && |recent| <= |ts| && recent == ts[|ts| - |recent|..]
    && forall i | 0 <= i < |ts| - |recent| :: ts[i] + WINDOW < clock
  }

  /** While an email is in delivery, one more send keeps the spacing. */
  ghost predicate RoomForOne(ts: seq<int>, limit: nat, clock: int) {
    limit > 0 && (|ts| >= limit ==> ts[|ts| - limit] + WINDOW < clock)
  }

  ghost predicate Limited(limit: nat, s: State) {
    var ts := SentTimes(s.done);
    && Sorted(ts) && AtMost(ts, s.clock)
    && Spaced(ts, limit) && IsRecentEnd(s.recent, ts, s.clock)
    && (s.inFlight.Some? ==> RoomForOne(ts, limit, s.clock))
  }

  /** Times none of which is old are all kept. */
  lemma {:induction false} RecentKeepsAll(ts: seq<int>, cutoff: int)
    requires forall i | 0 <= i < |ts| :: ts[i] >= cutoff
    ensures Recent(ts, cutoff) == ts
  {
    if ts != [] {
      RecentKeepsAll(ts[1..], cutoff);
      assert ts == [ts[0]] + ts[1..];
    }
  }

  /** On sorted times, pruning cuts off a prefix. */
  lemma {:induction false} RecentIsEnd(ts: seq<int>, cutoff: int)
    requires Sorted(ts)
    ensures |Recent(ts, cutoff)| <= |ts| && Recent(ts, cutoff) == ts[|ts| - |Recent(ts, cutoff)|..]
    ensures forall i | 0 <= i < |ts| - |Recent(ts, cutoff)| :: ts[i] < cutoff
  {
    if ts == [] {
    } else if ts[0] >= cutoff {
      RecentKeepsAll(ts, cutoff);
    } else {
      var end := Recent(ts, cutoff);
      assert end == Recent(ts[1..], cutoff);
      RecentIsEnd(ts[1..], cutoff);
      hide Recent, Sorted;
      OneMoreDropped(ts, end, cutoff);
    }
  }

  lemma {:induction false} OneMoreDropped(ts: seq<int>, end: seq<int>, cutoff: int)
    requires ts != [] && ts[0] < cutoff && |end| < |ts|
    requires end == ts[1..][|ts| - 1 - |end|..]
    requires forall i | 0 <= i < |ts| - 1 - |end| :: ts[1..][i] < cutoff
    ensures end == ts[|ts| - |end|..]
    ensures forall i | 0 <= i < |ts| - |end| :: ts[i] < cutoff
  {
    var tail := ts[1..];
    forall i | 0 <= i < |ts| - |end| ensures ts[i] < cutoff {
      if i > 0 {
        assert tail[i - 1] < cutoff;
      }
    }
  }

  lemma {:induction false} PruneKeepsEnd(recent: seq<int>, ts: seq<int>, clock: int, now: int)
    requires Sorted(ts) && IsRecentEnd(recent, ts, clock) && clock <= now
    ensures IsRecentEnd(Recent(recent, now - WINDOW), ts, now)
  {
    var k := |ts| - |recent|;
    assert Sorted(recent);
    RecentIsEnd(recent, now - WINDOW);
    var pruned := Recent(recent, now - WINDOW);
    assert pruned == ts[|ts| - |pruned|..];
    forall i | 0 <= i < |ts| - |pruned| ensures ts[i] + WINDOW < now {
      if i >= k {
        assert ts[i] == recent[i - k];
      }
    }
  }

  lemma {:induction false} CountAll(ts: seq<int>, lo: int, hi: int)
    requires forall i | 0 <= i < |ts| :: lo <= ts[i] <= hi
    ensures CountIn(ts, lo, hi) == |ts|
  {
    if ts != [] {
      CountAll(ts[..|ts| - 1], lo, hi);
    }
  }

  /**
   * What `canSendMore` counts: after pruning, the timestamps left are as many as the emails
   * sent in the last minute, however long ago the list was pruned before.
   */
  lemma {:induction false} PrunedCountIsLastMinute(recent: seq<int>, ts: seq<int>, clock: int, now: int)
    requires Sorted(ts) && AtMost(ts, clock) && IsRecentEnd(recent, ts, clock) && clock <= now
    ensures |Recent(recent, now - WINDOW)| == CountIn(ts, now - WINDOW, now)
  {
    PruneKeepsEnd(recent, ts, clock, now);
    var pruned := Recent(recent, now - WINDOW);
    var k := |ts| - |pruned|;
    var gone := ts[..k];
    assert ts == gone + pruned;
    CountAppend(gone, pruned, now - WINDOW, now);
    assert AtMost(gone, now - WINDOW - 1);
    CountBelow(gone, now - WINDOW, now);
    RecentAreLate(recent, now - WINDOW);
    forall i | 0 <= i < |pruned| ensures now - WINDOW <= pruned[i] <= now {
      assert pruned[i] == ts[k + i];
    }
    CountAll(pruned, now - WINDOW, now);
  }

  lemma {:induction false} RecentAreLate(ts: seq<int>, cutoff: int)
    ensures forall i | 0 <= i < |Recent(ts, cutoff)| :: Recent(ts, cutoff)[i] >= cutoff
  {
    if ts != [] {
      RecentAreLate(ts[1..], cutoff);
    }
  }

  lemma {:induction false} AppendSend(ts: seq<int>, recent: seq<int>, limit: nat, clock: int, now: int)
    requires Sorted(ts) && AtMost(ts, clock) && clock <= now
    requires Spaced(ts, limit) && IsRecentEnd(recent, ts, clock) && RoomForOne(ts, limit, clock)
    ensures Sorted(ts + [now]) && AtMost(ts + [now], now) && Spaced(ts + [now], limit) && IsRecentEnd(recent + [now], ts + [now], now)
  {
    var all := ts + [now];
    forall i, j | 0 <= i <= j < |all| ensures all[i] <= all[j] {
      if i < |ts| {
        assert ts[i] <= clock;
      }
    }
    forall j | limit <= j < |all| ensures all[j] - all[j - limit] > WINDOW {
      if j < |ts| {
        assert ts[j] - ts[j - limit] > WINDOW;
      }
    }
    assert (recent + [now]) == all[|all| - |recent + [now]|..];
  }

  lemma {:induction false} StartLeavesRoom(ts: seq<int>, recent: seq<int>, limit: nat, now: int)
    requires IsRecentEnd(recent, ts, now) && |recent| < limit
    ensures RoomForOne(ts, limit, now)
  {
  }

  lemma {:induction false} LaterClock(limit: nat, s: State, now: int)
    requires Limited(limit, s) && s.clock <= now
    ensures Limited(limit, s.(clock := now))
  {
    hide SentTimes, Sorted, Spaced;
  }

  lemma {:induction false} StepKeepsLimit(limit: nat, s: State, step: Step)
    requires Limited(limit, s) && s.clock <= step.now
    ensures Limited(limit, Next(limit, s, step))
  {
    hide Recent, Sorted, Spaced, IsRecentEnd, RoomForOne, AtMost;
    var ts := SentTimes(s.done);
    var now := step.now;
    LaterClock(limit, s, now);
    match step
    case Queue(_, _, _) =>
    case Start(_) =>
      if s.inFlight.None? && s.queue != [] {
        PruneKeepsEnd(s.recent, ts, s.clock, now);
        if |Recent(s.recent, now - WINDOW)| < limit {
          StartLeavesRoom(ts, Recent(s.recent, now - WINDOW), limit, now);
        }
      }
    case Finish(delivered, _) =>
      if s.inFlight.Some? {
        var o := Outcome(s.inFlight.value, delivered, now);
        assert (s.done + [o])[..|s.done|] == s.done;
        assert SentTimes(s.done + [o]) == if delivered then ts + [now] else ts;
        if delivered {
          AppendSend(ts, s.recent, limit, s.clock, now);
        }
      }
  }

  // ---- whole runs ----------------------------------------------------------

  ghost predicate ClockRuns(clock: int, steps: seq<Step>)
    decreases steps
  {
    steps == [] || (clock <= steps[0].now && ClockRuns(steps[0].now, steps[1..]))
  }

  function Run(limit: nat, s: State, steps: seq<Step>): State
    decreases steps
  {
    if steps == [] then s else Run(limit, Next(limit, s, steps[0]), steps[1..])
  }

  lemma {:induction false} RunKeeps(limit: nat, s: State, steps: seq<Step>)
    requires Limited(limit, s) && FirstInFirstOut(s) && ClockRuns(s.clock, steps)
    ensures Limited(limit, Run(limit, s, steps)) && FirstInFirstOut(Run(limit, s, steps))
    decreases steps
  {
    hide Limited, FirstInFirstOut;
    if steps != [] {
      StepKeepsLimit(limit, s, steps[0]);
      StepIsFifo(limit, s, steps[0]);
      assert Next(limit, s, steps[0]).clock == steps[0].now;
      hide Next;
      RunKeeps(limit, Next(limit, s, steps[0]), steps[1..]);
    }
  }

  function Fresh(start: int): State {
    State([], [], None, start, [], [])
  }

  lemma {:induction false} FreshIsFine(limit: nat, start: int)
    ensures Limited(limit, Fresh(start)) && FirstInFirstOut(Fresh(start))
  {
  }

  /** How many of the times fall in [lo, hi]. */
  function CountIn(ts: seq<int>, lo: int, hi: int): (n: nat)
    ensures n <= |ts|
  {
    if ts == [] then 0
    else CountIn(ts[..|ts| - 1], lo, hi) + (if lo <= ts[|ts| - 1] <= hi then 1 else 0)
  }

  lemma {:induction false} CountAppend(a: seq<int>, b: seq<int>, lo: int, hi: int)
    ensures CountIn(a + b, lo, hi) == CountIn(a, lo, hi) + CountIn(b, lo, hi)
  {
    if b == [] {
      assert a + b == a;
    } else {
      CountAppend(a, b[..|b| - 1], lo, hi);
      assert (a + b)[..|a + b| - 1] == a + b[..|b| - 1];
    }
  }

  lemma {:induction false} CountBelow(ts: seq<int>, lo: int, hi: int)
    requires AtMost(ts, lo - 1)
    ensures CountIn(ts, lo, hi) == 0
  {
    if ts != [] {
      CountBelow(ts[..|ts| - 1], lo, hi);
    }
  }

  lemma {:induction false} EarlierAreOut(ts: seq<int>, limit: nat, lo: int)
    requires Sorted(ts) && Spaced(ts, limit) && |ts| > limit && ts[|ts| - 1] <= lo + WINDOW
    ensures AtMost(ts[..|ts| - limit], lo - 1)
  {
    var n := |ts| - 1;
    assert ts[n] - ts[n - limit] > WINDOW;
    var early := ts[..|ts| - limit];
    forall i | 0 <= i < |early| ensures early[i] <= lo - 1 {
      assert early[i] == ts[i] <= ts[n - limit];
    }
  }

  lemma {:induction false} PrefixSpaced(ts: seq<int>, limit: nat)
    requires Sorted(ts) && Spaced(ts, limit) && ts != []
    ensures Sorted(ts[..|ts| - 1]) && Spaced(ts[..|ts| - 1], limit)
  {
    var t := ts[..|ts| - 1];
    forall j | limit <= j < |t| ensures t[j] - t[j - limit] > WINDOW {
      assert ts[j] - ts[j - limit] > WINDOW;
    }
  }

  lemma {:induction false} SpacingBoundsWindow(ts: seq<int>, limit: nat, lo: int)
    requires Sorted(ts) && Spaced(ts, limit)
    ensures CountIn(ts, lo, lo + WINDOW) <= limit
  {
    hide Sorted, Spaced, AtMost;
    if |ts| > limit {
      if ts[|ts| - 1] <= lo + WINDOW {
        var k := |ts| - limit;
        EarlierAreOut(ts, limit, lo);
        CountBelow(ts[..k], lo, lo + WINDOW);
        assert ts == ts[..k] + ts[k..];
        CountAppend(ts[..k], ts[k..], lo, lo + WINDOW);
      } else {
        PrefixSpaced(ts, limit);
        SpacingBoundsWindow(ts[..|ts| - 1], limit, lo);
      }
    }
  }

  /** In every run, no closed one-minute window holds more than `limit` sent emails. */
  lemma {:induction false} NoWindowExceedsLimit(limit: nat, steps: seq<Step>, start: int, lo: int)
    requires ClockRuns(start, steps)
    ensures
      var end := Run(limit, Fresh(start), steps);
      && CountIn(SentTimes(end.done), lo, lo + WINDOW) <= limit
      && FirstInFirstOut(end)
  {
    hide Run, Spaced, Sorted, AtMost, FirstInFirstOut, IsRecentEnd, RoomForOne, CountIn, SentTimes;
    FreshIsFine(limit, start);
    RunKeeps(limit, Fresh(start), steps);
    SpacingBoundsWindow(SentTimes(Run(limit, Fresh(start), steps).done), limit, lo);
  }

  function Failures(done: seq<Outcome>): nat {
    if done == [] then 0 else Failures(done[..|done| - 1]) + (if done[|done| - 1].sent then 0 else 1)
  }

  lemma {:induction false} DoneIsSentOrFailed(done: seq<Outcome>)
    ensures |done| == |SentTimes(done)| + Failures(done)
  {
    if done != [] {
      DoneIsSentOrFailed(done[..|done| - 1]);
    }
  }

  /** Every accepted email is queued, in delivery, sent, or failed. */
  lemma {:induction false} NothingIsLost(limit: nat, steps: seq<Step>, start: int)
    requires ClockRuns(start, steps)
    ensures
      var end := Run(limit, Fresh(start), steps);
      |end.accepted| == |end.queue| + |InFlight(end)| + |SentTimes(end.done)| + Failures(end.done)
  {
    hide Run, Limited, SentTimes, Failures, Emails;
    FreshIsFine(limit, start);
    RunKeeps(limit, Fresh(start), steps);
    DoneIsSentOrFailed(Run(limit, Fresh(start), steps).done);
  }

  /** The emails of a run that ask to be queued, have a recipient, and are not refused by their user's preferences. */
  function Wanted(steps: seq<Step>): seq<Email>
    decreases steps
  {
    if steps == [] then []
    else
      match steps[0]
      case Queue(email, allowed, _) =>
        if email.to == "" || (email.userAddress.Some? && !allowed) then Wanted(steps[1..]) else [email] + Wanted(steps[1..])
      case _ => Wanted(steps[1..])
  }

  /** In every run exactly those emails are accepted, in the order they came. */
  lemma {:induction false} AcceptedAreWanted(limit: nat, s: State, steps: seq<Step>)
    ensures Run(limit, s, steps).accepted == s.accepted + Wanted(steps)
    decreases steps
  {
    hide Recent;
    if steps != [] {
      var s' := Next(limit, s, steps[0]);
      AcceptedAreWanted(limit, s', steps[1..]);
      if s'.accepted != s.accepted {
        Associate(s.accepted, [steps[0].email], Wanted(steps[1..]));
      }
    }
  }

  /** The answers about users follow their preferences. */
  ghost predicate Consulted(steps: seq<Step>, optedOut: string -> bool) {
    forall i | 0 <= i < |steps| && steps[i].Queue? && steps[i].email.userAddress.Some? ::
      steps[i].allowed == !optedOut(steps[i].email.userAddress.value)
  }

  lemma {:induction false} WantedIff(steps: seq<Step>, optedOut: string -> bool, email: Email)
    requires Consulted(steps, optedOut)
    ensures email in Wanted(steps) <==>
            && (exists i :: 0 <= i < |steps| && steps[i].Queue? && steps[i].email == email)
            && email.to != "" && (email.userAddress.Some? ==> !optedOut(email.userAddress.value))
    decreases steps
  {
    if steps != [] {
      var rest := steps[1..];
      assert Consulted(rest, optedOut) by {
        forall i | 0 <= i < |rest| && rest[i].Queue? && rest[i].email.userAddress.Some?
          ensures rest[i].allowed == !optedOut(rest[i].email.userAddress.value)
        {
          assert rest[i] == steps[i + 1];
        }
      }
      WantedIff(rest, optedOut, email);
      if i :| 0 <= i < |steps| && steps[i].Queue? && steps[i].email == email {
        if i > 0 {
          assert rest[i - 1] == steps[i];
        }
      }
      if i :| 0 <= i < |rest| && rest[i].Queue? && rest[i].email == email {
        assert steps[i + 1] == rest[i];
      }
    }
  }

  /** In every run an email is accepted if and only if it was asked for, has a recipient and its user has not opted out. */
  lemma {:induction false} AcceptedIff(limit: nat, steps: seq<Step>, start: int, optedOut: string -> bool, email: Email)
    requires Consulted(steps, optedOut)
    ensures email in Run(limit, Fresh(start), steps).accepted <==>
            && (exists i :: 0 <= i < |steps| && steps[i].Queue? && steps[i].email == email)
            && email.to != "" && (email.userAddress.Some? ==> !optedOut(email.userAddress.value))
  {
    hide Run, Wanted, Consulted;
    AcceptedAreWanted(limit, Fresh(start), steps);
    WantedIff(steps, optedOut, email);
  }
}
