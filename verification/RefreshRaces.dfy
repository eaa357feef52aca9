/** Rotations of refresh tokens split at their awaits and interleaved in any order. */
module RefreshRaces {
  import opened Prelude
  import opened RefreshTokens

  /**
   * Where a rotation stands between two awaits: it has passed its checks on the row it read, it
   * has saved that row as revoked, or it has seen a revoked row and will revoke the family.
   */
  datatype Stage = Checked(k: nat, now: int) | Spent(k: nat) | ReuseSeen(family: nat, now: int)

  /**
   * The token rows, the rotations under way, and for each row how often it passed the checks and
   * how often a new token was issued for it.
   */
  datatype Race = Race(tokens: seq<Token>, pending: map<nat, Stage>, passed: multiset<nat>, issued: multiset<nat>)

  datatype RaceStep =
    | LogIn(token: Token)
    | Present(req: nat, raw: string, now: int, userFound: bool)
    | Continue(req: nat, issue: Token)

  const Nobody := Race([], map[], multiset{}, multiset{})

  /** The row that a presented token passes the checks for. */
  function PassesFor(s: Race, step: RaceStep): Option<nat> {
    if step.Present? && OutcomeOf(State(s.tokens, []), step.raw, step.now, step.userFound, "").Rotated?
    then Find(s.tokens, Sha256(step.raw)) else None
  }

  function NextRace(s: Race, step: RaceStep): Race {
    match step
    case LogIn(t) => s.(tokens := s.tokens + [t])
    case Present(req, raw, now, userFound) =>
      (match OutcomeOf(State(s.tokens, []), raw, now, userFound, "")
       case Rotated(_) =>
         var k := Find(s.tokens, Sha256(raw)).value;
         s.(pending := s.pending[req := Checked(k, now)], passed := s.passed + multiset{k})
       case Reused =>
         s.(pending := s.pending[req := ReuseSeen(s.tokens[Find(s.tokens, Sha256(raw)).value].family, now)])
       case _ => s)
    case Continue(req, issue) =>
      if req !in s.pending then s
      else
        match s.pending[req]
        case Checked(k, now) =>
          s.(tokens := if k < |s.tokens| then s.tokens[k := s.tokens[k].(revokedAt := Some(now))] else s.tokens,
             pending := s.pending[req := Spent(k)])
        case Spent(k) =>
          s.(tokens := s.tokens + [issue], pending := s.pending - {req}, issued := s.issued + multiset{k})
        case ReuseSeen(family, now) =>
          s.(tokens := RevokeFamily(s.tokens, family, now), pending := s.pending - {req})
  }

  /** Rotations have ids of their own. */
  predicate FreshRequest(s: Race, step: RaceStep) {
    step.Present? ==> step.req !in s.pending
  }

  /** The rotations of row `k` that have passed and not yet saved it as revoked, and those that have. */
  function Checking(pending: map<nat, Stage>, k: nat): set<nat> {
    set req | req in pending && pending[req].Checked? && pending[req].k == k
  }

  function Spending(pending: map<nat, Stage>, k: nat): set<nat> {
    set req | req in pending && pending[req].Spent? && pending[req].k == k
  }

  predicate Live(tokens: seq<Token>, k: nat) {
    k < |tokens| && tokens[k].revokedAt.None?
  }

  /** Every pass is still under way or has issued; none has gone further while the row is live. */
  ghost predicate Accounted(s: Race, k: nat) {
    && s.passed[k] == |Checking(s.pending, k)| + |Spending(s.pending, k)| + s.issued[k]
    && (Live(s.tokens, k) ==> |Spending(s.pending, k)| + s.issued[k] == 0)
    && (|s.tokens| <= k ==> s.passed[k] == 0)
  }

  /** The step lets a rotation of row `k` pass while another one has passed and not yet written. */
  predicate Overlaps(s: Race, step: RaceStep, k: nat) {
    PassesFor(s, step) == Some(k) && Checking(s.pending, k) != {}
  }

  lemma {:induction false} OneLess(a: set<nat>, x: nat)
    requires x in a
    ensures |a - {x}| == |a| - 1
  {
  }

  function IsChecked(st: Stage, k: nat): nat {
    if st.Checked? && st.k == k then 1 else 0
  }

  function IsSpent(st: Stage, k: nat): nat {
    if st.Spent? && st.k == k then 1 else 0
  }

  lemma {:induction false} Without(a: set<nat>, x: nat)
    ensures |a - {x}| == |a| - (if x in a then 1 else 0)
  {
    if x in a {
      OneLess(a, x);
    } else {
      assert a - {x} == a;
    }
  }

  lemma {:induction false} DropChecking(pending: map<nat, Stage>, req: nat, k: nat)
    ensures Checking(pending - {req}, k) == Checking(pending, k) - {req}
    ensures req in Checking(pending, k) <==> req in pending && IsChecked(pending[req], k) == 1
  {
  }

  lemma {:induction false} DropSpending(pending: map<nat, Stage>, req: nat, k: nat)
    ensures Spending(pending - {req}, k) == Spending(pending, k) - {req}
    ensures req in Spending(pending, k) <==> req in pending && IsSpent(pending[req], k) == 1
  {
  }

  lemma {:induction false} Drop(pending: map<nat, Stage>, req: nat, k: nat)
    requires req in pending
    ensures |Checking(pending - {req}, k)| == |Checking(pending, k)| - IsChecked(pending[req], k)
    ensures |Spending(pending - {req}, k)| == |Spending(pending, k)| - IsSpent(pending[req], k)
  {
    hide Checking, Spending;
    DropChecking(pending, req, k);
    DropSpending(pending, req, k);
    Without(Checking(pending, k), req);
    Without(Spending(pending, k), req);
  }

  lemma {:induction false} Enter(pending: map<nat, Stage>, req: nat, st: Stage, k: nat)
    requires req !in pending
    ensures |Checking(pending[req := st], k)| == |Checking(pending, k)| + IsChecked(st, k)
    ensures |Spending(pending[req := st], k)| == |Spending(pending, k)| + IsSpent(st, k)
  {
    var more := pending[req := st];
    assert more - {req} == pending;
    Drop(more, req, k);
  }

  lemma {:induction false} Move(pending: map<nat, Stage>, req: nat, st: Stage, k: nat)
    requires req in pending
    ensures |Checking(pending[req := st], k)| == |Checking(pending, k)| - IsChecked(pending[req], k) + IsChecked(st, k)
    ensures |Spending(pending[req := st], k)| == |Spending(pending, k)| - IsSpent(pending[req], k) + IsSpent(st, k)
  {
    Drop(pending, req, k);
    Enter(pending - {req}, req, st, k);
    assert (pending - {req})[req := st] == pending[req := st];
  }

  lemma {:induction false} PresentKeepsAccounts(s: Race, step: RaceStep, k: nat)
    requires Accounted(s, k) && step.Present? && FreshRequest(s, step)
    ensures Accounted(NextRace(s, step), k)
    ensures NextRace(s, step).passed[k] == s.passed[k] + (if PassesFor(s, step) == Some(k) then 1 else 0)
  {
    var s' := NextRace(s, step);
    hide Checking, Spending, Find;
    if step.req in s'.pending {
      Enter(s.pending, step.req, s'.pending[step.req], k);
    }
  }

  lemma {:induction false} ContinueKeepsAccounts(s: Race, step: RaceStep, k: nat)
    requires Accounted(s, k) && step.Continue? && step.req in s.pending
    ensures Accounted(NextRace(s, step), k) && NextRace(s, step).passed == s.passed
  {
    hide Checking, Spending, RevokeFamily;
    match s.pending[step.req]
    case Checked(j, now) => Move(s.pending, step.req, Spent(j), k);
    case Spent(j) =>
      Drop(s.pending, step.req, k);
      SpentRowIsNotLive(s, step.req, k);
    case ReuseSeen(_, _) => Drop(s.pending, step.req, k);
  }

  lemma {:induction false} SpentRowIsNotLive(s: Race, req: nat, k: nat)
    requires Accounted(s, k) && req in s.pending
    ensures IsSpent(s.pending[req], k) == 1 ==> !Live(s.tokens, k)
  {
    Drop(s.pending, req, k);
  }

  lemma {:induction false} StepKeepsAccounts(s: Race, step: RaceStep, k: nat)
    requires Accounted(s, k) && FreshRequest(s, step)
    ensures Accounted(NextRace(s, step), k)
    ensures NextRace(s, step).passed[k] == s.passed[k] + (if PassesFor(s, step) == Some(k) then 1 else 0)
  {
    hide OutcomeOf, Find;
    if step.Present? {
      PresentKeepsAccounts(s, step, k);
    } else if step.Continue? && step.req in s.pending {
      ContinueKeepsAccounts(s, step, k);
    }
  }

  lemma {:induction false} PassingRowIsLive(s: Race, step: RaceStep, k: nat)
    requires PassesFor(s, step) == Some(k)
    ensures Live(s.tokens, k)
  {
  }

  // ---- whole runs ----------------------------------------------------------

  ghost predicate ValidRace(s: Race, steps: seq<RaceStep>)
    decreases steps
  {
    steps == [] || (FreshRequest(s, steps[0]) && ValidRace(NextRace(s, steps[0]), steps[1..]))
  }

  function RunRace(s: Race, steps: seq<RaceStep>): Race
    decreases steps
  {
    if steps == [] then s else RunRace(NextRace(s, steps[0]), steps[1..])
  }

  /** Some step of the run overlaps rotations of row `k`. */
  ghost predicate SomeOverlap(s: Race, steps: seq<RaceStep>, k: nat)
    decreases steps
  {
    steps != [] && (Overlaps(s, steps[0], k) || SomeOverlap(NextRace(s, steps[0]), steps[1..], k))
  }

  lemma {:induction false} PassesNeverShrink(s: Race, steps: seq<RaceStep>, k: nat)
    requires Accounted(s, k) && ValidRace(s, steps)
    ensures Accounted(RunRace(s, steps), k) && RunRace(s, steps).passed[k] >= s.passed[k]
    decreases steps
  {
    if steps != [] {
      StepKeepsAccounts(s, steps[0], k);
      hide NextRace, PassesFor, Accounted;
      PassesNeverShrink(NextRace(s, steps[0]), steps[1..], k);
    }
  }

  /** A second pass is an overlap, and an overlap is a second pass. */
  lemma {:induction false} TwoPassesIffOverlap(s: Race, steps: seq<RaceStep>, k: nat)
    requires Accounted(s, k) && ValidRace(s, steps) && s.passed[k] <= 1
    ensures RunRace(s, steps).passed[k] >= 2 <==> SomeOverlap(s, steps, k)
    decreases steps
  {
    if steps != [] {
      var s' := NextRace(s, steps[0]);
      StepKeepsAccounts(s, steps[0], k);
      if PassesFor(s, steps[0]) == Some(k) {
        PassingRowIsLive(s, steps[0], k);
      }
      NoneChecking(s.pending, k);
      hide NextRace, PassesFor, Checking, Spending;
      if s'.passed[k] >= 2 {
        PassesNeverShrink(s', steps[1..], k);
      } else {
        TwoPassesIffOverlap(s', steps[1..], k);
      }
    }
  }

  lemma {:induction false} NoneChecking(pending: map<nat, Stage>, k: nat)
    ensures Checking(pending, k) == {} <==> |Checking(pending, k)| == 0
  {
  }

  /**
   * In every run of interleaved rotations that are all carried through, a token is exchanged for
   * a new one at most once if and only if no rotation passes its checks on it between another
   * rotation's checks and its write.
   */
  lemma {:induction false} RotatesOnceIffNoOverlap(steps: seq<RaceStep>, k: nat)
    requires ValidRace(Nobody, steps) && RunRace(Nobody, steps).pending == map[]
    ensures RunRace(Nobody, steps).issued[k] <= 1 <==> !SomeOverlap(Nobody, steps, k)
  {
    var end := RunRace(Nobody, steps);
    assert Checking(map[], k) == {} && Spending(map[], k) == {};
    assert Accounted(Nobody, k);
    hide RunRace, NextRace, SomeOverlap, ValidRace;
    TwoPassesIffOverlap(Nobody, steps, k);
    PassesNeverShrink(Nobody, steps, k);
  }

  /** Carried through or not, without an overlap at most one new token is issued for it. */
  lemma {:induction false} NoOverlapRotatesOnce(steps: seq<RaceStep>, k: nat)
    requires ValidRace(Nobody, steps) && !SomeOverlap(Nobody, steps, k)
    ensures RunRace(Nobody, steps).issued[k] <= 1
  {
    assert Checking(map[], k) == {} && Spending(map[], k) == {};
    assert Accounted(Nobody, k);
    hide RunRace, NextRace, SomeOverlap, ValidRace;
    TwoPassesIffOverlap(Nobody, steps, k);
    PassesNeverShrink(Nobody, steps, k);
  }

  /** Two rotations read a live token before either writes: both pass. */
  lemma {:induction false} BothPass(s: Race, raw: string, now: int, a: nat, b: nat)
    requires a != b && a !in s.pending && b !in s.pending
    requires PassesFor(s, Present(a, raw, now, true)).Some?
    ensures
      var k := PassesFor(s, Present(a, raw, now, true)).value;
      var s1 := NextRace(s, Present(a, raw, now, true));
      && PassesFor(s1, Present(b, raw, now, true)) == Some(k)
      && Overlaps(s1, Present(b, raw, now, true), k)
  {
    var s1 := NextRace(s, Present(a, raw, now, true));
    var k := PassesFor(s, Present(a, raw, now, true)).value;
    assert a in Checking(s1.pending, k);
  }
}
