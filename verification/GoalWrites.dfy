/** Goal events whose database writes, or whose notification, may fail half-way. */
module GoalWrites {
  import opened Prelude
  import opened Goals

  /**
   * Which of an event's effects succeed: its own write, the write that marks the goal reached,
   * and the notification. The first failure throws and nothing after it happens.
   */
  datatype Writes = Writes(saved: bool, reachedSaved: bool, notified: bool)

  datatype Event = Event(step: Step, writes: Writes)

  function MarkWith(s: State, id: string, now: int, w: Writes): State
    requires id in s.goals
  {
    if s.goals[id].status == Reached || !w.reachedSaved then s
    else
      State(s.goals[id := s.goals[id].(status := Reached, reachedAt := Some(now))],
            if w.notified then s.notified + [id] else s.notified)
  }

  function NextWith(s: State, e: Event): State {
    if !Accepted(s, e.step) then s
    else
      match e.step
      case GoalContribution(id, amount, now) =>
        if !e.writes.saved then s
        else
          var goal := s.goals[id].(current := s.goals[id].current + amount);
          var s1 := s.(goals := s.goals[id := goal]);
          if goal.current >= goal.target then MarkWith(s1, id, now, e.writes) else s1
      case GoalReached(id, now) => MarkWith(s, id, now, e.writes)
      case _ => if e.writes.saved then Next(s, e.step) else s
  }

  /** When nothing fails this is the projection without failures. */
  lemma {:induction false} NothingFails(s: State, step: Step)
    ensures NextWith(s, Event(step, Writes(true, true, true))) == Next(s, step)
  {
  }

  /** An active goal that has met its positive target. */
  predicate Stuck(s: State, id: string) {
    id in s.goals && s.goals[id].status == Active && 0 < s.goals[id].target <= s.goals[id].current
  }

  /** The event is a stored contribution to the goal. */
  predicate Contributes(s: State, e: Event, id: string) {
    e.step.GoalContribution? && e.step.id == id && id in s.goals && e.writes.saved
  }

  /** The event leaves the goal active at or above its target, because its second write failed. */
  predicate LosesReach(s: State, e: Event, id: string) {
    && Contributes(s, e, id) && s.goals[id].status == Active
    && 0 < s.goals[id].target <= s.goals[id].current + e.step.amount && !e.writes.reachedSaved
  }

  /** The event would take the goal out of that state. */
  predicate Resolves(s: State, e: Event, id: string) {
    || (e.step.GoalReached? && e.step.id == id && e.writes.reachedSaved)
    || (Contributes(s, e, id) && !LosesReach(s, e, id))
  }

  /** After any event a goal is stuck exactly if the event loses its reach write, or it was stuck and the event does not resolve it. */
  lemma {:induction false} StuckIff(s: State, e: Event, id: string)
    ensures Stuck(NextWith(s, e), id) <==> LosesReach(s, e, id) || (Stuck(s, id) && !Resolves(s, e, id))
  {
  }

  // ---- whole runs ----------------------------------------------------------

  function RunWith(s: State, events: seq<Event>): State
    decreases events
  {
    if events == [] then s else RunWith(NextWith(s, events[0]), events[1..])
  }

  /** No event of the run resolves the goal. */
  ghost predicate NeverResolved(s: State, events: seq<Event>, id: string)
    decreases events
  {
    events != [] ==> !Resolves(s, events[0], id) && NeverResolved(NextWith(s, events[0]), events[1..], id)
  }

  /** Some event of the run loses the reach write and none after it resolves it. */
  ghost predicate LaterStuck(s: State, events: seq<Event>, id: string)
    decreases events
  {
    events != [] &&
    (|| (LosesReach(s, events[0], id) && NeverResolved(NextWith(s, events[0]), events[1..], id))
     || LaterStuck(NextWith(s, events[0]), events[1..], id))
  }

  /**
   * In every run, a goal that was not stuck ends active at or above its target if and only if
   * some contribution that met the target lost the write that marks the goal reached, and no
   * later contribution or goal_reached event made up for it.
   */
  lemma {:induction false} RunStuckIff(s: State, events: seq<Event>, id: string)
    ensures Stuck(RunWith(s, events), id) <==>
            LaterStuck(s, events, id) || (Stuck(s, id) && NeverResolved(s, events, id))
    decreases events
  {
    if events != [] {
      StuckIff(s, events[0], id);
      hide NextWith, Stuck, LosesReach, Resolves;
      RunStuckIff(NextWith(s, events[0]), events[1..], id);
    }
  }

  /** Whether the event makes the goal reached without its notification. */
  predicate Unnotified(s: State, e: Event, id: string) {
    id in s.goals && s.goals[id].status != Reached && id in NextWith(s, e).goals
    && NextWith(s, e).goals[id].status == Reached && !e.writes.notified
  }

  function LostNotifications(s: State, events: seq<Event>, id: string): nat
    decreases events
  {
    if events == [] then 0
    else (if Unnotified(s, events[0], id) then 1 else 0) + LostNotifications(NextWith(s, events[0]), events[1..], id)
  }

  predicate Claimed(s: State, e: Event, id: string) {
    e.step == Claim(id) && Accepted(s, e.step) && e.writes.saved
  }

  function ClaimsWith(s: State, events: seq<Event>, id: string): nat
    decreases events
  {
    if events == [] then 0
    else (if Claimed(s, events[0], id) then 1 else 0) + ClaimsWith(NextWith(s, events[0]), events[1..], id)
  }

  lemma {:induction false} EventBalance(s: State, e: Event, id: string)
    ensures
      var t := NextWith(s, e);
      Notifications(t, id) + (if Unnotified(s, e, id) then 1 else 0) + Waiting(s, id) ==
      Notifications(s, id) + Waiting(t, id) + (if Claimed(s, e, id) then 1 else 0)
  {
    var t := NextWith(s, e);
    if t.notified != s.notified {
      assert multiset(s.notified + [e.step.id])[id] == multiset(s.notified)[id] + (if e.step.id == id then 1 else 0);
    }
  }

  /** In every run, notifications sent and notifications lost together are the claims plus the change in waiting to be claimed. */
  lemma {:induction false} RunBalanceWithFailures(s: State, events: seq<Event>, id: string)
    ensures
      var t := RunWith(s, events);
      Notifications(t, id) + LostNotifications(s, events, id) ==
      Notifications(s, id) + ClaimsWith(s, events, id) + Waiting(t, id) - Waiting(s, id)
    decreases events
  {
    if events != [] {
      EventBalance(s, events[0], id);
      hide NextWith, Notifications, Waiting, Unnotified, Claimed;
      RunBalanceWithFailures(NextWith(s, events[0]), events[1..], id);
    }
  }
}
