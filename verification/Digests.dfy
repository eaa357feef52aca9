/** `DigestService.processUserDigest`: at most one digest per user, frequency and period. */
module Digests {
  import opened Prelude
  import opened WeekKeys

  const MAX_DIGEST_ITEMS: nat := 20

  datatype Frequency = Daily | Weekly

  /** Day number, or week number, of the period a date falls in. */
  function Period(f: Frequency, d: Date): int
    requires ValidDate(d)
  {
    if f.Daily? then DayNumber(d) else WeekIndex(DayNumber(d))
  }

  function KeyOf(f: Frequency, d: Date): string
    requires ValidDate(d) && d.year >= 101
  {
    if f.Daily? then DailyKey(d) else WeeklyKey(d)
  }

  lemma {:induction false} KeyNamesPeriod(f: Frequency, a: Date, b: Date)
    requires ValidDate(a) && ValidDate(b) && a.year >= 101 && b.year >= 101
    ensures KeyOf(f, a) == KeyOf(f, b) <==> Period(f, a) == Period(f, b)
  {
    if f.Daily? {
      SameDailyKeyIff(a, b);
      DayNumberFollowsCalendar(a, b);
    } else {
      SameWeeklyKeyIff(a, b);
      SameWeekIff(DayNumber(a), DayNumber(b));
    }
  }

  datatype Periods = Periods(lastDaily: Option<string>, lastWeekly: Option<string>)

  /** One candidate handled by the hourly job: the user's local date and what was found. */
  datatype Candidate = Candidate(user: string, frequency: Frequency, date: Date, hasEmail: bool, unread: nat, saves: bool)

  /** A queued digest; `attempt` numbers the attempt that queued it. */
  datatype Queued = Queued(user: string, frequency: Frequency, key: string, items: nat, attempt: nat)

  datatype State = State(rows: map<string, Periods>, queued: seq<Queued>)

  predicate Dated(c: Candidate) {
    ValidDate(c.date) && c.date.year >= 101
  }

  /** A candidate with a real calendar date, past the years that `Date.UTC` remaps. */
  type Attempt = c: Candidate | Dated(c)
    witness Candidate("", Daily, Date(2000, 1, 1), false, 0, true)

  function RowOf(s: State, user: string): Periods {
    if user in s.rows then s.rows[user] else Periods(None, None)
  }

  function Last(s: State, user: string, f: Frequency): Option<string> {
    if f.Daily? then RowOf(s, user).lastDaily else RowOf(s, user).lastWeekly
  }

  function Recorded(row: Periods, f: Frequency, key: string): Periods {
    if f.Daily? then row.(lastDaily := Some(key)) else row.(lastWeekly := Some(key))
  }

  /** `saves` is false when writing the digest state throws after the email was queued. */
  function Process(s: State, a: Attempt, n: nat): State
  {
    var key := KeyOf(a.frequency, a.date);
    if !a.hasEmail || Last(s, a.user, a.frequency) == Some(key) || a.unread == 0 then s
    else
      State(
        if a.saves then s.rows[a.user := Recorded(RowOf(s, a.user), a.frequency, key)] else s.rows,
        s.queued + [Queued(a.user, a.frequency, key, Min(a.unread, MAX_DIGEST_ITEMS), n)])
  }

  class DigestService {
    var rows: map<string, Periods>
    var queued: seq<Queued>

    constructor ()
      ensures View() == State(map[], [])
    {
      rows, queued := map[], [];
    }

    function View(): State
      reads this
    {
      State(rows, queued)
    }

    method ProcessUserDigest(a: Attempt, n: nat)
        modifies this
      ensures View() == Process(old(View()), a, n)
    {
      if !a.hasEmail {
        return;
      }
      var key := KeyOf(a.frequency, a.date);
      var state := if a.user in rows then rows[a.user] else Periods(None, None);
      var lastPeriod := if a.frequency.Daily? then state.lastDaily else state.lastWeekly;
      if lastPeriod == Some(key) {
        return;
      }
      var taken := Min(a.unread, MAX_DIGEST_ITEMS);
      if taken == 0 {
        return;
      }
      queued := queued + [Queued(a.user, a.frequency, key, taken, n)];
      if a.saves {
        rows := rows[a.user := Recorded(state, a.frequency, key)];
      }
    }
  }

  // ---- whole runs ----------------------------------------------------------

  /** The state after the first `n` attempts. */
  function RunDigests(attempts: seq<Attempt>, n: nat): State
    requires n <= |attempts|
  {
    if n == 0 then State(map[], []) else Process(RunDigests(attempts, n - 1), attempts[n - 1], n - 1)
  }

  /** Each user's local date never goes back, and every queued digest is recorded. */
  ghost predicate ValidRun(attempts: seq<Attempt>) {
    && (forall i | 0 <= i < |attempts| :: attempts[i].saves)
    && (forall i, j | 0 <= i <= j < |attempts| && attempts[i].user == attempts[j].user ::
          DayNumber(attempts[i].date) <= DayNumber(attempts[j].date))
  }

  predicate SamePair(q: Queued, user: string, f: Frequency) {
    q.user == user && q.frequency == f
  }

  /** A queued digest carries the key of the attempt that queued it. */
  predicate Traced(attempts: seq<Attempt>, n: nat, q: Queued)
  {
    && q.attempt < n <= |attempts|
    && attempts[q.attempt].user == q.user && attempts[q.attempt].frequency == q.frequency
    && q.key == KeyOf(q.frequency, attempts[q.attempt].date)
  }

  /** The state row holds the key of some past attempt whose period is at least the digest's. */
  ghost predicate Covered(attempts: seq<Attempt>, n: nat, s: State, q: Queued)
    requires Traced(attempts, n, q)
  {
    exists m: nat :: m < n && attempts[m].user == q.user &&
      Last(s, q.user, q.frequency) == Some(KeyOf(q.frequency, attempts[m].date)) &&
      Period(q.frequency, attempts[q.attempt].date) <= Period(q.frequency, attempts[m].date)
  }

  ghost predicate AllCovered(attempts: seq<Attempt>, n: nat, s: State) {
    forall i | 0 <= i < |s.queued| :: Traced(attempts, n, s.queued[i]) && Covered(attempts, n, s, s.queued[i])
  }

  ghost predicate PeriodsIncrease(attempts: seq<Attempt>, s: State) {
    forall i, j | 0 <= i < j < |s.queued| && SamePair(s.queued[i], s.queued[j].user, s.queued[j].frequency) ::
      PeriodAt(attempts, s.queued[i]) < PeriodAt(attempts, s.queued[j])
  }

  ghost predicate Inv(attempts: seq<Attempt>, n: nat, s: State) {
    AllCovered(attempts, n, s) && PeriodsIncrease(attempts, s)
  }

  function PeriodAt(attempts: seq<Attempt>, q: Queued): int
  {
    if q.attempt < |attempts| then Period(q.frequency, attempts[q.attempt].date) else 0
  }

  /** A digest for a period later than the recorded one is later than all queued for the pair. */
  lemma {:induction false} NewPeriodIsLater(attempts: seq<Attempt>, n: nat, s: State, q: Queued)
    requires ValidRun(attempts) && n < |attempts|
    requires Traced(attempts, n, q) && Covered(attempts, n, s, q)
    requires SamePair(q, attempts[n].user, attempts[n].frequency)
    requires Last(s, q.user, q.frequency) != Some(KeyOf(q.frequency, attempts[n].date))
    ensures PeriodAt(attempts, q) < Period(q.frequency, attempts[n].date)
  {
    var m: nat :| m < n && attempts[m].user == q.user &&
      Last(s, q.user, q.frequency) == Some(KeyOf(q.frequency, attempts[m].date)) &&
      Period(q.frequency, attempts[q.attempt].date) <= Period(q.frequency, attempts[m].date);
    KeyNamesPeriod(q.frequency, attempts[m].date, attempts[n].date);
    assert DayNumber(attempts[m].date) <= DayNumber(attempts[n].date);
  }

  /** The attempt queues a digest: its period has not been recorded yet. */
  predicate Queues(s: State, a: Attempt) {
    a.hasEmail && Last(s, a.user, a.frequency) != Some(KeyOf(a.frequency, a.date)) && a.unread > 0
  }

  lemma {:induction false} QueueKeepsPeriods(attempts: seq<Attempt>, n: nat, s: State)
    requires ValidRun(attempts) && n < |attempts| && Inv(attempts, n, s) && Queues(s, attempts[n])
    ensures PeriodsIncrease(attempts, Process(s, attempts[n], n))
  {
    var a := attempts[n];
    var s' := Process(s, a, n);
    forall i | 0 <= i < |s.queued| && SamePair(s.queued[i], a.user, a.frequency)
      ensures PeriodAt(attempts, s.queued[i]) < Period(a.frequency, a.date)
    {
      NewPeriodIsLater(attempts, n, s, s.queued[i]);
    }
  }

  lemma {:induction false} QueueKeepsCover(attempts: seq<Attempt>, n: nat, s: State)
    requires ValidRun(attempts) && n < |attempts| && Inv(attempts, n, s) && Queues(s, attempts[n])
    ensures AllCovered(attempts, n + 1, Process(s, attempts[n], n))
  {
    var a := attempts[n];
    var s' := Process(s, a, n);
    forall i | 0 <= i < |s'.queued|
      ensures Traced(attempts, n + 1, s'.queued[i]) && Covered(attempts, n + 1, s', s'.queued[i])
    {
      var q := s'.queued[i];
      if i < |s.queued| {
        assert q == s.queued[i];
        if SamePair(q, a.user, a.frequency) {
          NewPeriodIsLater(attempts, n, s, q);
          CoveredByNew(attempts, n, s', q);
        } else {
          CoveredElsewhere(attempts, n, s, q);
        }
      } else {
        CoveredByNew(attempts, n, s', q);
      }
    }
  }

  lemma {:induction false} ProcessKeepsInv(attempts: seq<Attempt>, n: nat, s: State)
    requires ValidRun(attempts) && n < |attempts| && Inv(attempts, n, s)
    ensures Inv(attempts, n + 1, Process(s, attempts[n], n))
  {
    if Queues(s, attempts[n]) {
      QueueKeepsPeriods(attempts, n, s);
      QueueKeepsCover(attempts, n, s);
    } else {
      forall i | 0 <= i < |s.queued|
        ensures Traced(attempts, n + 1, s.queued[i]) && Covered(attempts, n + 1, s, s.queued[i])
      {
        CoveredLater(attempts, n, s, s.queued[i]);
      }
    }
  }

  lemma {:induction false} CoveredLater(attempts: seq<Attempt>, n: nat, s: State, q: Queued)
    requires n < |attempts| && Traced(attempts, n, q) && Covered(attempts, n, s, q)
    ensures Traced(attempts, n + 1, q) && Covered(attempts, n + 1, s, q)
  {
  }

  lemma {:induction false} CoveredByNew(attempts: seq<Attempt>, n: nat, s': State, q: Queued)
    requires n < |attempts| && Traced(attempts, n + 1, q) && SamePair(q, attempts[n].user, attempts[n].frequency)
    requires Last(s', q.user, q.frequency) == Some(KeyOf(q.frequency, attempts[n].date))
    requires PeriodAt(attempts, q) <= Period(q.frequency, attempts[n].date)
    ensures Covered(attempts, n + 1, s', q)
  {
    assert attempts[n].user == q.user;
  }

  /** Recording one pair's key leaves every other pair's as it was. */
  lemma {:induction false} CoveredElsewhere(attempts: seq<Attempt>, n: nat, s: State, q: Queued)
    requires n < |attempts| && Traced(attempts, n, q) && Covered(attempts, n, s, q)
    requires !SamePair(q, attempts[n].user, attempts[n].frequency)
    ensures Traced(attempts, n + 1, q) && Covered(attempts, n + 1, Process(s, attempts[n], n), q)
  {
    assert Last(Process(s, attempts[n], n), q.user, q.frequency) == Last(s, q.user, q.frequency);
    CoveredLater(attempts, n, s, q);
  }

  lemma {:induction false} RunKeepsInv(attempts: seq<Attempt>, n: nat)
    requires ValidRun(attempts) && n <= |attempts|
    ensures Inv(attempts, n, RunDigests(attempts, n))
  {
    hide KeyOf, Period, PeriodAt, Traced, Covered;
    if n == 0 {
      assert RunDigests(attempts, n).queued == [];
    } else {
      var s := RunDigests(attempts, n - 1);
      RunKeepsInv(attempts, n - 1);
      ProcessKeepsInv(attempts, n - 1, s);
      assert RunDigests(attempts, n) == Process(s, attempts[n - 1], n - 1);
      assert Inv(attempts, n, Process(s, attempts[n - 1], n - 1));
    }
  }

  /** In every run no user is queued two digests of one frequency for the same period. */
  lemma {:induction false} OneDigestPerPeriod(attempts: seq<Attempt>, i: nat, j: nat)
    requires ValidRun(attempts)
    requires i < j < |RunDigests(attempts, |attempts|).queued|
    ensures
      var queued := RunDigests(attempts, |attempts|).queued;
      SamePair(queued[i], queued[j].user, queued[j].frequency) ==> queued[i].key != queued[j].key
  {
    var s := RunDigests(attempts, |attempts|);
    RunKeepsInv(attempts, |attempts|);
    var a, b := s.queued[i], s.queued[j];
    assert Traced(attempts, |attempts|, a) && Traced(attempts, |attempts|, b);
    if SamePair(a, b.user, b.frequency) {
      KeyNamesPeriod(a.frequency, attempts[a.attempt].date, attempts[b.attempt].date);
    }
  }

  /** A recorded key is that of a digest queued for the user and frequency. */
  ghost predicate RecordedWasQueued(s: State) {
    forall user, f | Last(s, user, f).Some? ::
      exists i :: 0 <= i < |s.queued| && SamePair(s.queued[i], user, f) && Some(s.queued[i].key) == Last(s, user, f)
  }

  lemma {:induction false} StepRecordsQueued(s: State, a: Attempt, n: nat)
    requires RecordedWasQueued(s)
    ensures RecordedWasQueued(Process(s, a, n))
  {
    hide KeyOf;
    var t := Process(s, a, n);
    forall user, f | Last(t, user, f).Some?
      ensures exists i :: 0 <= i < |t.queued| && SamePair(t.queued[i], user, f) && Some(t.queued[i].key) == Last(t, user, f)
    {
      if Last(t, user, f) == Last(s, user, f) {
        var i :| 0 <= i < |s.queued| && SamePair(s.queued[i], user, f) && Some(s.queued[i].key) == Last(s, user, f);
        assert t.queued[i] == s.queued[i];
      } else {
        assert SamePair(t.queued[|s.queued|], user, f);
      }
    }
  }

  lemma {:induction false} RunRecordsQueued(attempts: seq<Attempt>, n: nat)
    requires n <= |attempts|
    ensures RecordedWasQueued(RunDigests(attempts, n))
  {
    hide Process;
    if n > 0 {
      RunRecordsQueued(attempts, n - 1);
      StepRecordsQueued(RunDigests(attempts, n - 1), attempts[n - 1], n - 1);
    }
  }

  /** Some digest of the user and frequency was queued for the period. */
  ghost predicate QueuedFor(attempts: seq<Attempt>, s: State, a: Attempt) {
    exists i :: 0 <= i < |s.queued| && SamePair(s.queued[i], a.user, a.frequency)
                && PeriodAt(attempts, s.queued[i]) == Period(a.frequency, a.date)
  }

  lemma {:induction false} QueuesIffNoneYet(attempts: seq<Attempt>, n: nat)
    requires ValidRun(attempts) && n < |attempts|
    ensures
      var s, a := RunDigests(attempts, n), attempts[n];
      Last(s, a.user, a.frequency) == Some(KeyOf(a.frequency, a.date)) <==> QueuedFor(attempts, s, a)
  {
    var s, a := RunDigests(attempts, n), attempts[n];
    RunKeepsInv(attempts, n);
    RunRecordsQueued(attempts, n);
    hide RunDigests;
    if Last(s, a.user, a.frequency) == Some(KeyOf(a.frequency, a.date)) {
      var i :| 0 <= i < |s.queued| && SamePair(s.queued[i], a.user, a.frequency)
               && Some(s.queued[i].key) == Last(s, a.user, a.frequency);
      assert Traced(attempts, n, s.queued[i]);
      KeyNamesPeriod(a.frequency, attempts[s.queued[i].attempt].date, a.date);
    } else if QueuedFor(attempts, s, a) {
      var i :| 0 <= i < |s.queued| && SamePair(s.queued[i], a.user, a.frequency)
               && PeriodAt(attempts, s.queued[i]) == Period(a.frequency, a.date);
      NewPeriodIsLater(attempts, n, s, s.queued[i]);
    }
  }

  /**
   * In every such run an attempt queues a digest if and only if the user has an email and
   * something unread and none was queued for the user, frequency and period before; it then
   * queues exactly one, to that user, under the period's key, with at most 20 items.
   */
  lemma {:induction false} DueDigestIsQueued(attempts: seq<Attempt>, n: nat)
    requires ValidRun(attempts) && n < |attempts|
    ensures
      var s, a := RunDigests(attempts, n), attempts[n];
      RunDigests(attempts, n + 1).queued ==
      s.queued + if a.hasEmail && a.unread > 0 && !QueuedFor(attempts, s, a)
                 then [Queued(a.user, a.frequency, KeyOf(a.frequency, a.date), if a.unread > 20 then 20 else a.unread, n)]
                 else []
  {
    QueuesIffNoneYet(attempts, n);
    hide KeyOf, QueuedFor, Last;
    assert RunDigests(attempts, n).queued + [] == RunDigests(attempts, n).queued;
  }

  /** A digest whose state write throws is queued again by the next attempt of that period. */
  lemma {:induction false} UnrecordedDigestRepeats(s: State, a: Attempt, b: Attempt)
    requires a.user == b.user && a.frequency == b.frequency
    requires Period(a.frequency, a.date) == Period(b.frequency, b.date)
    requires a.hasEmail && b.hasEmail && a.unread > 0 && b.unread > 0
    requires Last(s, a.user, a.frequency) != Some(KeyOf(a.frequency, a.date))
    ensures |Process(Process(s, a, 0), b, 1).queued| == |s.queued| + if a.saves then 1 else 2
  {
    KeyNamesPeriod(a.frequency, a.date, b.date);
  }
}
