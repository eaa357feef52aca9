/**
 * Savings goals: the `goals` read-model kept by `GoalsService`, the projection of goal
 * events in `SavingsProjectionService`, and the goal-reached notifications it sends.
 */
module Goals {
  import opened Prelude

  datatype Status = Active | Reached | Claimed

  datatype Goal = Goal(
    owner: string,
    name: string,
    target: int,
    current: int,
    status: Status,
    reachedAt: Option<int>)

  /** `notified` lists the goals whose owner was told, in order. */
  datatype State = State(goals: map<string, Goal>, notified: seq<string>)

  datatype Step =
    | GoalCreated(id: string, owner: string, name: string, target: int)
    | GoalContribution(id: string, amount: int, now: int)
    | GoalReached(id: string, now: int)
    | Claim(id: string)

  // ---- one event -----------------------------------------------------------

  function MarkReachedAndNotify(s: State, id: string, now: int): State
    requires id in s.goals
  {
    if s.goals[id].status == Reached then s
    else State(s.goals[id := s.goals[id].(status := Reached, reachedAt := Some(now))], s.notified + [id])
  }

  function Contribute(s: State, id: string, amount: int, now: int): State
    requires id in s.goals
  {
    var goal := s.goals[id].(current := s.goals[id].current + amount);
    var s1 := s.(goals := s.goals[id := goal]);
    if goal.current >= goal.target then MarkReachedAndNotify(s1, id, now) else s1
  }

  /** An event for a goal that is not there fails and changes nothing. */
  predicate Accepted(s: State, step: Step) {
    match step
    case GoalCreated(_, _, _, _) => true
    case GoalContribution(id, _, _) => id in s.goals
    case GoalReached(id, _) => id in s.goals
    case Claim(id) => id in s.goals && s.goals[id].status == Reached
  }

  function Next(s: State, step: Step): State {
    if !Accepted(s, step) then s
    else
      match step
      case GoalCreated(id, owner, name, target) =>
        if id in s.goals then s else s.(goals := s.goals[id := Goal(owner, name, target, 0, Active, None)])
      case GoalContribution(id, amount, now) => Contribute(s, id, amount, now)
      case GoalReached(id, now) => MarkReachedAndNotify(s, id, now)
      case Claim(id) => s.(goals := s.goals[id := s.goals[id].(status := Status.Claimed)])
  }

  class GoalProjection {
    var goals: map<string, Goal>
    var notified: seq<string>

    constructor ()
      ensures View() == State(map[], [])
    {
      goals, notified := map[], [];
    }

    function View(): State
      reads this
    {
      State(goals, notified)
    }

    method UpsertCreated(id: string, owner: string, name: string, target: int) returns (goal: Goal)
      modifies this`goals
      ensures View() == Next(old(View()), GoalCreated(id, owner, name, target))
      ensures id in goals && goal == goals[id]
    {
      if id in goals {
        return goals[id];
      }
      goal := Goal(owner, name, target, 0, Active, None);
      goals := goals[id := goal];
    }

    method ApplyContribution(id: string, amount: int) returns (goal: Result<Goal>)
      modifies this`goals
      ensures goal.Ok? <==> id in old(goals)
      ensures goal.Ok? ==> goal.value == old(goals)[id].(current := old(goals)[id].current + amount)
                           && goals == old(goals)[id := goal.value]
      ensures goal.Err? ==> goals == old(goals)
    {
      if id !in goals {
        return Err("Goal not found");
      }
      goals := goals[id := goals[id].(current := goals[id].current + amount)];
      goal := Ok(goals[id]);
    }

    method MarkReached(id: string, now: int) returns (changed: Result<bool>)
      modifies this`goals
      ensures changed.Ok? <==> id in old(goals)
      ensures changed.Ok? ==> changed.value == (old(goals)[id].status != Reached)
      ensures changed == Ok(true) ==> goals == old(goals)[id := old(goals)[id].(status := Reached, reachedAt := Some(now))]
      ensures changed != Ok(true) ==> goals == old(goals)
    {
      if id !in goals {
        return Err("Goal not found");
      }
      if goals[id].status == Reached {
        return Ok(false);
      }
      goals := goals[id := goals[id].(status := Reached, reachedAt := Some(now))];
      changed := Ok(true);
    }

    method NotifyReached(id: string, now: int) returns (done: bool)
      modifies this
      ensures done <==> id in old(goals)
      ensures View() == if done then MarkReachedAndNotify(old(View()), id, now) else old(View())
    {
      var changed := MarkReached(id, now);
      if changed == Ok(true) {
        notified := notified + [id];
      }
      done := changed.Ok?;
    }

    /** The three goal topics of `SavingsProjectionService.apply`. */
    method Apply(event: Step) returns (done: bool)
      requires !event.Claim?
      modifies this
      ensures done <==> Accepted(old(View()), event)
      ensures View() == Next(old(View()), event)
    {
      match event
      case GoalCreated(id, owner, name, target) =>
        var _ := UpsertCreated(id, owner, name, target);
        done := true;
      case GoalContribution(id, amount, now) =>
        var goal := ApplyContribution(id, amount);
        if goal.Err? {
          return false;
        }
        done := true;
        if goal.value.current >= goal.value.target {
          done := NotifyReached(id, now);
        }
      case GoalReached(id, now) =>
        done := NotifyReached(id, now);
    }

    method ClaimGoal(id: string) returns (goal: Result<Goal>)
      modifies this`goals
      ensures View() == Next(old(View()), Claim(id))
      ensures goal.Ok? <==> Accepted(old(View()), Claim(id))
      ensures goal.Ok? ==> goal.value == goals[id]
    {
      if id !in goals {
        return Err("Goal not found");
      }
      match goals[id].status
      case Active => return Err("has not reached its target yet");
      case Claimed => return Err("has already been claimed");
      case Reached =>
        goals := goals[id := goals[id].(status := Status.Claimed)];
        goal := Ok(goals[id]);
    }
  }

  // ---- whole runs ----------------------------------------------------------

  function Run(s: State, steps: seq<Step>): State
    decreases steps
  {
    if steps == [] then s else Run(Next(s, steps[0]), steps[1..])
  }

  function Notifications(s: State, id: string): nat {
    multiset(s.notified)[id]
  }

  /** 1 while the goal waits to be claimed. */
  function Waiting(s: State, id: string): int {
    if id in s.goals && s.goals[id].status == Reached then 1 else 0
  }

  /** Successful claims of the goal during a run. */
  function Claims(s: State, steps: seq<Step>, id: string): nat
    decreases steps
  {
    if steps == [] then 0
    else (if steps[0] == Claim(id) && Accepted(s, steps[0]) then 1 else 0) + Claims(Next(s, steps[0]), steps[1..], id)
  }

  function Saved(s: State, id: string): int {
    if id in s.goals then s.goals[id].current else 0
  }

  /** What was contributed to the goal during a run. */
  function Contributed(s: State, steps: seq<Step>, id: string): int
    decreases steps
  {
    if steps == [] then 0
    else
      (if steps[0].GoalContribution? && steps[0].id == id && Accepted(s, steps[0]) then steps[0].amount else 0)
      + Contributed(Next(s, steps[0]), steps[1..], id)
  }

  lemma {:induction false} StepBalance(s: State, step: Step, id: string)
    ensures
      var t := Next(s, step);
      && Notifications(t, id) + Waiting(s, id)
         == Notifications(s, id) + Waiting(t, id) + (if step == Claim(id) && Accepted(s, step) then 1 else 0)
      && Saved(t, id) == Saved(s, id) + (if step.GoalContribution? && step.id == id && Accepted(s, step) then step.amount else 0)
  {
    var t := Next(s, step);
    if t.notified != s.notified {
      assert multiset(s.notified + [step.id])[id] == multiset(s.notified)[id] + (if step.id == id then 1 else 0);
    }
  }

  /**
   * In every run, the notifications sent for a goal are its successful claims plus one
   * if it is waiting to be claimed and was not before; what it holds grows by exactly
   * the accepted contributions.
   */
  lemma {:induction false} RunBalance(s: State, steps: seq<Step>, id: string)
    ensures
      var t := Run(s, steps);
      && Notifications(t, id) == Notifications(s, id) + Claims(s, steps, id) + Waiting(t, id) - Waiting(s, id)
      && Saved(t, id) == Saved(s, id) + Contributed(s, steps, id)
    decreases steps
  {
    if steps != [] {
      StepBalance(s, steps[0], id);
      hide Notifications, Waiting, Saved, Next;
      RunBalance(Next(s, steps[0]), steps[1..], id);
    }
  }

  /** Owner, name and target never change, and a goal once reached is never active again. */
  ghost predicate GoalKept(a: Goal, b: Goal) {
    a.owner == b.owner && a.name == b.name && a.target == b.target && (a.status != Active ==> b.status != Active)
  }

  /** A goal still active has not met its target, unless the target was never positive. */
  ghost predicate ActiveIsShort(s: State) {
    forall id | id in s.goals && s.goals[id].status == Active && s.goals[id].target > 0 ::
      s.goals[id].current < s.goals[id].target
  }

  lemma {:induction false} StepKeepsGoals(s: State, step: Step)
    requires ActiveIsShort(s)
    ensures ActiveIsShort(Next(s, step))
    ensures s.goals.Keys <= Next(s, step).goals.Keys
    ensures forall id | id in s.goals :: GoalKept(s.goals[id], Next(s, step).goals[id])
  {
  }

  lemma {:induction false} RunKeepsGoals(s: State, steps: seq<Step>, id: string)
    requires ActiveIsShort(s)
    ensures ActiveIsShort(Run(s, steps))
    ensures id in s.goals ==> id in Run(s, steps).goals && GoalKept(s.goals[id], Run(s, steps).goals[id])
    decreases steps
  {
    hide Next, ActiveIsShort;
    if steps != [] {
      StepKeepsGoals(s, steps[0]);
      RunKeepsGoals(Next(s, steps[0]), steps[1..], id);
    }
  }

  /** From an empty model: while no claim succeeds a goal is notified at most once, and exactly when it is reached. */
  lemma {:induction false} NotifiedOnceUntilClaimed(steps: seq<Step>, id: string)
    ensures
      var end := Run(State(map[], []), steps);
      && Notifications(end, id) == Claims(State(map[], []), steps, id) + Waiting(end, id)
      && (Claims(State(map[], []), steps, id) == 0 ==> (Notifications(end, id) == 1 <==> Waiting(end, id) == 1))
  {
    RunBalance(State(map[], []), steps, id);
  }

  /**
   * Over every step: a claimed goal leaves that state, becoming reached and notifying its owner
   * again, exactly on a goal_reached event for it, whatever it holds, or on a contribution to
   * it with which it meets its target.
   */
  lemma {:induction false} ClaimedGoalIsReachedAgainIff(s: State, step: Step, id: string)
    requires id in s.goals && s.goals[id].status == Status.Claimed
    ensures
      var t := Next(s, step);
      var again := step.id == id && (step.GoalReached? ||
                     (step.GoalContribution? && s.goals[id].current + step.amount >= s.goals[id].target));
      && id in t.goals
      && (t.goals[id].status != Status.Claimed <==> again)
      && (t.goals[id].status == Reached <==> again)
      && (Notifications(t, id) == Notifications(s, id) + (if again then 1 else 0))
  {
    StepBalance(s, step, id);
    hide Notifications;
  }

  /** A run that notifies one goal twice: reached, claimed, reached again. */
  lemma {:induction false} GoalCanBeNotifiedTwice(id: string)
    ensures
      var steps := [GoalCreated(id, "o", "n", 10), GoalReached(id, 1), Claim(id), GoalReached(id, 2)];
      Notifications(Run(State(map[], []), steps), id) == 2
  {
    var steps := [GoalCreated(id, "o", "n", 10), GoalReached(id, 1), Claim(id), GoalReached(id, 2)];
    var s0 := State(map[], []);
    var s1 := Next(s0, steps[0]);
    var s2 := Next(s1, steps[1]);
    var s3 := Next(s2, steps[2]);
    var s4 := Next(s3, steps[3]);
    assert steps[1..] == [steps[1], steps[2], steps[3]] && steps[1..][1..] == [steps[2], steps[3]];
    assert steps[1..][1..][1..] == [steps[3]] && steps[1..][1..][1..][1..] == [];
    assert Run(s3, [steps[3]]) == s4;
    assert Run(s2, [steps[2], steps[3]]) == s4;
    assert Run(s1, [steps[1], steps[2], steps[3]]) == s4;
    assert s4.notified == [id, id];
  }

  // ---- from the events alone -----------------------------------------------

  /** The first goal_created event for the goal. */
  function FirstCreated(steps: seq<Step>, id: string): (r: Option<Step>)
    ensures r.Some? ==> r.value.GoalCreated? && r.value.id == id
    ensures r.Some? ==> exists i :: 0 <= i < |steps| && steps[i] == r.value
                                    && forall j | 0 <= j < i :: !(steps[j].GoalCreated? && steps[j].id == id)
    ensures r.None? ==> forall i | 0 <= i < |steps| :: !(steps[i].GoalCreated? && steps[i].id == id)
  {
    if steps == [] then None
    else if steps[0].GoalCreated? && steps[0].id == id then Some(steps[0])
    else
      var r := FirstCreated(steps[1..], id);
      assert r.Some? ==> exists i :: 0 <= i < |steps| && steps[i] == r.value
                                     && forall j | 0 <= j < i :: !(steps[j].GoalCreated? && steps[j].id == id) by {
        if r.Some? {
          var i :| 0 <= i < |steps[1..]| && steps[1..][i] == r.value
                   && forall j | 0 <= j < i :: !(steps[1..][j].GoalCreated? && steps[1..][j].id == id);
          assert steps[i + 1] == r.value;
          assert forall j | 0 < j < i + 1 :: steps[j] == steps[1..][j - 1];
        }
      }
      r
  }

  /** What was contributed to the goal after its creation. */
  function Given(steps: seq<Step>, id: string): int {
    if steps == [] then 0
    else
      var n := |steps| - 1;
      Given(steps[..n], id)
      + (if steps[n].GoalContribution? && steps[n].id == id && FirstCreated(steps[..n], id).Some? then steps[n].amount else 0)
  }

  /**
   * The last event gives reason to call the goal reached: it says so, or it is a contribution
   * with which the contributions since the creation come to the target of the first creation.
   */
  predicate GivesReason(steps: seq<Step>, id: string)
    requires steps != []
  {
    var n := |steps| - 1;
    var created := FirstCreated(steps[..n], id);
    && created.Some? && steps[n].id == id
    && (steps[n].GoalReached? || (steps[n].GoalContribution? && Given(steps, id) >= created.value.target))
  }

  ghost predicate EverReason(steps: seq<Step>, id: string) {
    exists m: nat :: 0 < m <= |steps| && GivesReason(steps[..m], id)
  }

  lemma {:induction false} RunAppend(s: State, steps: seq<Step>, step: Step)
    ensures Run(s, steps + [step]) == Next(Run(s, steps), step)
    decreases steps
  {
    hide Next;
    if steps == [] {
      assert (steps + [step])[1..] == [];
    } else {
      RunAppend(Next(s, steps[0]), steps[1..], step);
      assert (steps + [step])[1..] == steps[1..] + [step];
    }
  }

  lemma {:induction false} FirstCreatedAppend(steps: seq<Step>, step: Step, id: string)
    ensures FirstCreated(steps + [step], id) ==
            if FirstCreated(steps, id).Some? then FirstCreated(steps, id)
            else if step.GoalCreated? && step.id == id then Some(step) else None
  {
    if steps == [] {
      assert (steps + [step])[1..] == [];
    } else {
      FirstCreatedAppend(steps[1..], step, id);
      assert (steps + [step])[1..] == steps[1..] + [step];
    }
  }

  lemma {:induction false} ReasonAppend(steps: seq<Step>, step: Step, id: string)
    ensures EverReason(steps + [step], id) <==> EverReason(steps, id) || GivesReason(steps + [step], id)
  {
    hide GivesReason;
    var all := steps + [step];
    assert forall m: nat | m <= |steps| :: all[..m] == steps[..m];
    assert all[..|all|] == all;
    if EverReason(steps, id) {
      var m: nat :| 0 < m <= |steps| && GivesReason(steps[..m], id);
      assert GivesReason(all[..m], id);
    }
    if GivesReason(all, id) {
      assert GivesReason(all[..|all|], id);
    }
    if EverReason(all, id) {
      var m: nat :| 0 < m <= |all| && GivesReason(all[..m], id);
      if m <= |steps| {
        assert GivesReason(steps[..m], id);
      }
    }
  }

  /** The goal as the events make it: its first creation's owner, name and target, and what was given since. */
  ghost predicate AsCreated(s: State, steps: seq<Step>, id: string) {
    var created := FirstCreated(steps, id);
    && (id in s.goals <==> created.Some?)
    && (created.Some? ==>
          && s.goals[id].owner == created.value.owner && s.goals[id].name == created.value.name
          && s.goals[id].target == created.value.target && s.goals[id].current == Given(steps, id))
  }

  /** Nothing notified means that the goal is still active, and the other way round once it was ever reached. */
  ghost predicate NotifiedAsDue(s: State, steps: seq<Step>, id: string) {
    && (Notifications(s, id) > 0 <==> EverReason(steps, id))
    && (id in s.goals ==> (s.goals[id].status == Active <==> Notifications(s, id) == 0))
    && (id !in s.goals ==> Notifications(s, id) == 0)
  }

  /** Contributions to a goal that does not exist yet do not count. */
  lemma {:induction false} NothingGiven(steps: seq<Step>, id: string)
    requires FirstCreated(steps, id).None?
    ensures Given(steps, id) == 0
  {
    if steps != [] {
      var n := |steps| - 1;
      assert steps == steps[..n] + [steps[n]];
      FirstCreatedAppend(steps[..n], steps[n], id);
      hide FirstCreated;
      NothingGiven(steps[..n], id);
    }
  }

  lemma {:induction false} StepAsCreated(s: State, steps: seq<Step>, step: Step, id: string)
    requires AsCreated(s, steps, id)
    ensures AsCreated(Next(s, step), steps + [step], id)
  {
    FirstCreatedAppend(steps, step, id);
    assert (steps + [step])[..|steps|] == steps;
    hide FirstCreated;
    if FirstCreated(steps, id).None? {
      NothingGiven(steps, id);
    }
  }

  lemma {:induction false} StepNotifiedAsDue(s: State, steps: seq<Step>, step: Step, id: string)
    requires AsCreated(s, steps, id) && NotifiedAsDue(s, steps, id)
    ensures NotifiedAsDue(Next(s, step), steps + [step], id)
  {
    ReasonAppend(steps, step, id);
    StepBalance(s, step, id);
    assert (steps + [step])[..|steps|] == steps;
    StepAsCreated(s, steps, step, id);
    hide FirstCreated, Notifications, EverReason;
  }

  lemma {:induction false} RunAsDue(steps: seq<Step>, id: string)
    ensures AsCreated(Run(State(map[], []), steps), steps, id)
    ensures NotifiedAsDue(Run(State(map[], []), steps), steps, id)
  {
    if steps != [] {
      hide AsCreated, NotifiedAsDue, Run;
      var n := |steps| - 1;
      assert steps == steps[..n] + [steps[n]];
      RunAsDue(steps[..n], id);
      var s := Run(State(map[], []), steps[..n]);
      RunAppend(State(map[], []), steps[..n], steps[n]);
      StepAsCreated(s, steps[..n], steps[n], id);
      StepNotifiedAsDue(s, steps[..n], steps[n], id);
    }
  }

  /**
   * From an empty model, over every run: a goal exists exactly after its first goal_created
   * event, carries that event's owner, name and target, and holds what was contributed since.
   */
  lemma {:induction false} GoalIsAsFirstCreated(steps: seq<Step>, id: string)
    ensures
      var end, created := Run(State(map[], []), steps), FirstCreated(steps, id);
      && (id in end.goals <==> created.Some?)
      && (created.Some? ==>
            && end.goals[id].owner == created.value.owner && end.goals[id].name == created.value.name
            && end.goals[id].target == created.value.target && end.goals[id].current == Given(steps, id))
  {
    RunAsDue(steps, id);
  }

  /**
   * Over every run, and so over every prefix of one: the owner has been notified if and only if
   * some goal_reached event came for an existing goal, or some contribution after which the
   * contributions since its creation came to at least the target it was first created with.
   */
  lemma {:induction false} NotifiedIffReason(steps: seq<Step>, id: string)
    ensures Notifications(Run(State(map[], []), steps), id) > 0 <==> EverReason(steps, id)
  {
    RunAsDue(steps, id);
  }
}
