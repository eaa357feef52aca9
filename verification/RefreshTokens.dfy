/**
 * `AuthService.createSession` and `rotateRefreshToken`: refresh-token families with
 * rotation and reuse handling. Calls are atomic; SHA-256 is taken as injective; random
 * values are fresh.
 */
module RefreshTokens {
  import opened Prelude

  /** The digest of a raw token: equal digests come from equal raw tokens. */
  datatype Digest = Sha256(raw: string)

  datatype Token = Token(
    id: nat,
    user: string,
    family: nat,
    hash: Digest,
    previous: Option<nat>,
    revokedAt: Option<int>,
    expiresAt: int)

  datatype AuditEvent = ReuseDetected(user: string, family: nat, tokenId: nat)

  /** The `refresh_tokens` rows in insertion order, and the audit rows. */
  datatype State = State(tokens: seq<Token>, audit: seq<AuditEvent>)

  datatype Outcome = Invalid | Expired | Reused | UserGone | Rotated(raw: string)

  // ---- lookups and updates -------------------------------------------------

  /** `findOneBy({ token_hash })`: index of the row with this digest. */
  function Find(tokens: seq<Token>, hash: Digest): (r: Option<nat>)
    ensures r.Some? ==> r.value < |tokens| && tokens[r.value].hash == hash
    ensures r.None? ==> forall i | 0 <= i < |tokens| :: tokens[i].hash != hash
  {
    if tokens == [] then None
    else if tokens[|tokens| - 1].hash == hash then Some(|tokens| - 1)
    else Find(tokens[..|tokens| - 1], hash)
  }

  /** `update({ family_id, revoked_at: IsNull() }, { revoked_at: now })` */
  function RevokeFamily(tokens: seq<Token>, family: nat, now: int): (r: seq<Token>)
    ensures |r| == |tokens|
    ensures forall i | 0 <= i < |tokens| ::
              r[i] == if tokens[i].family == family && tokens[i].revokedAt.None?
                      then tokens[i].(revokedAt := Some(now)) else tokens[i]
  {
    seq(|tokens|, i requires 0 <= i < |tokens| =>
      if tokens[i].family == family && tokens[i].revokedAt.None? then tokens[i].(revokedAt := Some(now)) else tokens[i])
  }

  // ---- the two operations --------------------------------------------------

  function Login(s: State, user: string, family: nat, id: nat, raw: string, expiresAt: int): State {
    s.(tokens := s.tokens + [Token(id, user, family, Sha256(raw), None, None, expiresAt)])
  }

  /** What presenting `raw` at `now` comes to. */
  function OutcomeOf(s: State, raw: string, now: int, userFound: bool, newRaw: string): Outcome {
    var found := Find(s.tokens, Sha256(raw));
    if found.None? then Invalid
    else
      var existing := s.tokens[found.value];
      if existing.expiresAt < now then Expired
      else if existing.revokedAt.Some? then Reused
      else if !userFound then UserGone
      else Rotated(newRaw)
  }

  function Rotate(s: State, raw: string, now: int, userFound: bool, newId: nat, newRaw: string, expiresAt: int): State {
    match OutcomeOf(s, raw, now, userFound, newRaw)
    case Reused =>
      var e := s.tokens[Find(s.tokens, Sha256(raw)).value];
      State(RevokeFamily(s.tokens, e.family, now), s.audit + [ReuseDetected(e.user, e.family, e.id)])
    case Rotated(_) =>
      var k := Find(s.tokens, Sha256(raw)).value;
      var e := s.tokens[k];
      s.(tokens := s.tokens[k := e.(revokedAt := Some(now))]
                   + [Token(newId, e.user, e.family, Sha256(newRaw), Some(e.id), None, expiresAt)])
    case _ => s
  }

  class AuthService {
    var tokens: seq<Token>
    var audit: seq<AuditEvent>

    constructor ()
      ensures View() == State([], [])
    {
      tokens, audit := [], [];
    }

    function View(): State
      reads this
    {
      State(tokens, audit)
    }

    method IssueRefreshToken(user: string, family: nat, previous: Option<nat>, id: nat, raw: string, expiresAt: int)
      modifies this`tokens
      ensures tokens == old(tokens) + [Token(id, user, family, Sha256(raw), previous, None, expiresAt)]
    {
      tokens := tokens + [Token(id, user, family, Sha256(raw), previous, None, expiresAt)];
    }

    method CreateSession(user: string, family: nat, id: nat, raw: string, expiresAt: int) returns (refreshToken: string)
      modifies this
      ensures View() == Login(old(View()), user, family, id, raw, expiresAt) && refreshToken == raw
    {
      IssueRefreshToken(user, family, None, id, raw, expiresAt);
      refreshToken := raw;
    }

    method RotateRefreshToken(raw: string, now: int, userFound: bool, newId: nat, newRaw: string, expiresAt: int)
      returns (outcome: Outcome)
      modifies this
      ensures outcome == OutcomeOf(old(View()), raw, now, userFound, newRaw)
      ensures View() == Rotate(old(View()), raw, now, userFound, newId, newRaw, expiresAt)
    {
      var found := Find(tokens, Sha256(raw));
      if found.None? {
        return Invalid;
      }
      var existing := tokens[found.value];
      if existing.expiresAt < now {
        return Expired;
      }
      if existing.revokedAt.Some? {
        tokens := RevokeFamily(tokens, existing.family, now);
        audit := audit + [ReuseDetected(existing.user, existing.family, existing.id)];
        return Reused;
      }
      if !userFound {
        return UserGone;
      }
      tokens := tokens[found.value := existing.(revokedAt := Some(now))];
      IssueRefreshToken(existing.user, existing.family, Some(existing.id), newId, newRaw, expiresAt);
      outcome := Rotated(newRaw);
    }
  }

  // ---- families are chains -------------------------------------------------

  /** Index of the newest token of a family among the first `n`. */
  function LastOf(tokens: seq<Token>, family: nat, n: nat): (r: Option<nat>)
    requires n <= |tokens|
    ensures r.Some? ==> r.value < n && tokens[r.value].family == family
    ensures r.Some? ==> forall i | r.value < i < n :: tokens[i].family != family
    ensures r.None? ==> forall i | 0 <= i < n :: tokens[i].family != family
  {
    if n == 0 then None
    else if tokens[n - 1].family == family then Some(n - 1)
    else LastOf(tokens, family, n - 1)
  }

  /** A token points back to the token issued before it in its family; the first to none. */
  predicate Chained(tokens: seq<Token>, i: nat)
    requires i < |tokens|
  {
    var before := LastOf(tokens, tokens[i].family, i);
    tokens[i].previous == if before.Some? then Some(tokens[before.value].id) else None
  }

  ghost predicate Distinct(tokens: seq<Token>) {
    forall i, j | 0 <= i < j < |tokens| :: tokens[i].id != tokens[j].id && tokens[i].hash != tokens[j].hash
  }

  /** Within a family there is one owner, and every token but the newest is revoked. */
  ghost predicate OneOwnerOneLive(tokens: seq<Token>) {
    forall i, j | 0 <= i < j < |tokens| && tokens[i].family == tokens[j].family ::
      tokens[i].user == tokens[j].user && tokens[i].revokedAt.Some?
  }

  ghost predicate AllChained(tokens: seq<Token>) {
    forall i | 0 <= i < |tokens| :: Chained(tokens, i)
  }

  ghost predicate Inv(s: State) {
    Distinct(s.tokens) && OneOwnerOneLive(s.tokens) && AllChained(s.tokens)
  }

  datatype Step =
    | DoLogin(user: string, family: nat, id: nat, raw: string, expiresAt: int)
    | DoRotate(raw: string, now: int, userFound: bool, newId: nat, newRaw: string, expiresAt: int)

  /** `randomUUID`, generated row ids and `randomBytes(48)` never repeat. */
  ghost predicate Fresh(tokens: seq<Token>, id: nat, raw: string) {
    forall i | 0 <= i < |tokens| :: tokens[i].id != id && tokens[i].hash != Sha256(raw)
  }

  ghost predicate ValidStep(s: State, step: Step) {
    match step
    case DoLogin(_, family, id, raw, _) =>
      Fresh(s.tokens, id, raw) && forall i | 0 <= i < |s.tokens| :: s.tokens[i].family != family
    case DoRotate(_, _, _, newId, newRaw, _) => Fresh(s.tokens, newId, newRaw)
  }

  function Next(s: State, step: Step): State {
    match step
    case DoLogin(user, family, id, raw, expiresAt) => Login(s, user, family, id, raw, expiresAt)
    case DoRotate(raw, now, userFound, newId, newRaw, expiresAt) => Rotate(s, raw, now, userFound, newId, newRaw, expiresAt)
  }

  /** `after` has the rows of `before`, some perhaps newly revoked, and possibly more. */
  ghost predicate OnlyRevokes(before: seq<Token>, after: seq<Token>) {
    && |before| <= |after|
    && forall i | 0 <= i < |before| ::
         && after[i].(revokedAt := None) == before[i].(revokedAt := None)
         && (before[i].revokedAt.Some? ==> after[i] == before[i])
  }

  lemma {:induction false} StepOnlyRevokes(s: State, step: Step)
    ensures |s.tokens| <= |Next(s, step).tokens| && OnlyRevokes(s.tokens, Next(s, step).tokens)
  {
    hide Find, LastOf;
  }

  /** Where a token points back to does not depend on revocations or on later rows. */
  lemma {:induction false} LastOfStable(a: seq<Token>, b: seq<Token>, family: nat, n: nat)
    requires n <= |a| && OnlyRevokes(a, b)
    ensures LastOf(a, family, n) == LastOf(b, family, n)
  {
    if n > 0 {
      assert a[n - 1].family == b[n - 1].family by {
        assert b[n - 1].(revokedAt := None) == a[n - 1].(revokedAt := None);
      }
      LastOfStable(a, b, family, n - 1);
    }
  }

  lemma {:induction false} ChainStable(a: seq<Token>, b: seq<Token>, i: nat)
    requires i < |a| && OnlyRevokes(a, b) && Chained(a, i)
    ensures Chained(b, i)
  {
    hide LastOf;
    assert b[i].(revokedAt := None) == a[i].(revokedAt := None);
    LastOfStable(a, b, a[i].family, i);
    var before := LastOf(a, a[i].family, i);
    if before.Some? {
      var k := before.value;
      assert b[k].(revokedAt := None) == a[k].(revokedAt := None);
    }
  }

  /** Revocations keep the invariant. */
  lemma {:induction false} RevocationKeepsInv(a: seq<Token>, b: seq<Token>, audit: seq<AuditEvent>, audit': seq<AuditEvent>)
    requires Inv(State(a, audit)) && OnlyRevokes(a, b) && |a| == |b|
    ensures Inv(State(b, audit'))
  {
    hide LastOf, Chained;
    forall i | 0 <= i < |b| ensures Chained(b, i) {
      ChainStable(a, b, i);
    }
    forall i | 0 <= i < |b|
      ensures a[i].id == b[i].id && a[i].hash == b[i].hash && a[i].family == b[i].family && a[i].user == b[i].user
    {
      assert b[i].(revokedAt := None) == a[i].(revokedAt := None);
    }
  }

  /** Adding a row that continues, or starts, its family's chain keeps the invariant. */
  lemma {:induction false} IssueKeepsInv(tokens: seq<Token>, t: Token, audit: seq<AuditEvent>)
    requires Inv(State(tokens, audit)) && Fresh(tokens, t.id, t.hash.raw)
    requires forall i | 0 <= i < |tokens| && tokens[i].family == t.family ::
               tokens[i].user == t.user && tokens[i].revokedAt.Some?
    requires
      var tail := LastOf(tokens, t.family, |tokens|);
      t.previous == if tail.Some? then Some(tokens[tail.value].id) else None
    ensures Inv(State(tokens + [t], audit))
  {
    hide LastOf;
    var after := tokens + [t];
    assert OnlyRevokes(tokens, after);
    LastOfStable(tokens, after, t.family, |tokens|);
    forall i | 0 <= i < |after| ensures Chained(after, i) {
      if i < |tokens| {
        ChainStable(tokens, after, i);
      }
    }
    assert t.hash == Sha256(t.hash.raw);
  }

  /** A live token is the newest of its family. */
  lemma {:induction false} LiveTokenIsTail(tokens: seq<Token>, k: nat)
    requires OneOwnerOneLive(tokens) && k < |tokens| && tokens[k].revokedAt.None?
    ensures LastOf(tokens, tokens[k].family, |tokens|) == Some(k)
  {
    var tail := LastOf(tokens, tokens[k].family, |tokens|);
    assert tail.Some?;
    assert tail.value >= k;
  }

  lemma {:induction false} RotationKeepsInv(s: State, raw: string, now: int, newId: nat, newRaw: string, expiresAt: int)
    requires Inv(s) && Fresh(s.tokens, newId, newRaw)
    requires OutcomeOf(s, raw, now, true, newRaw).Rotated?
    ensures Inv(Rotate(s, raw, now, true, newId, newRaw, expiresAt))
  {
    hide LastOf, Chained, AllChained, Distinct;
    var k := Find(s.tokens, Sha256(raw)).value;
    var e := s.tokens[k];
    var revoked := s.tokens[k := e.(revokedAt := Some(now))];
    assert OnlyRevokes(s.tokens, revoked);
    RevocationKeepsInv(s.tokens, revoked, s.audit, s.audit);
    LiveTokenIsTail(s.tokens, k);
    LastOfStable(s.tokens, revoked, e.family, |s.tokens|);
    var t := Token(newId, e.user, e.family, Sha256(newRaw), Some(e.id), None, expiresAt);
    assert Fresh(revoked, t.id, t.hash.raw);
    TailFamilyRevoked(s.tokens, k, revoked);
    IssueKeepsInv(revoked, t, s.audit);
  }

  lemma {:induction false} TailFamilyRevoked(tokens: seq<Token>, k: nat, revoked: seq<Token>)
    requires OneOwnerOneLive(tokens) && k < |tokens| && tokens[k].revokedAt.None?
    requires |revoked| == |tokens| && OnlyRevokes(tokens, revoked)
    requires revoked[k].revokedAt.Some?
    ensures forall i | 0 <= i < |revoked| && revoked[i].family == tokens[k].family ::
              revoked[i].user == tokens[k].user && revoked[i].revokedAt.Some?
  {
    hide LastOf;
    forall i | 0 <= i < |revoked| && revoked[i].family == tokens[k].family
      ensures revoked[i].user == tokens[k].user && revoked[i].revokedAt.Some?
    {
      assert revoked[i].(revokedAt := None) == tokens[i].(revokedAt := None);
      if i < k {
        assert tokens[i].revokedAt.Some?;
      }
    }
  }

  /** Every login and every rotation keeps families chained, single-owner and with at most one live token. */
  lemma {:induction false} StepKeepsInv(s: State, step: Step)
    requires Inv(s) && ValidStep(s, step)
    ensures Inv(Next(s, step))
  {
    hide Chained, AllChained, Distinct, OneOwnerOneLive, LastOf, Find;
    match step
    case DoLogin(user, family, id, raw, expiresAt) =>
      FreshFamilyHasNoTail(s.tokens, family);
      IssueKeepsInv(s.tokens, Token(id, user, family, Sha256(raw), None, None, expiresAt), s.audit);
    case DoRotate(raw, now, userFound, newId, newRaw, expiresAt) =>
      var outcome := OutcomeOf(s, raw, now, userFound, newRaw);
      if outcome.Rotated? {
        RotationKeepsInv(s, raw, now, newId, newRaw, expiresAt);
      } else if outcome.Reused? {
        StepOnlyRevokes(s, step);
        RevocationKeepsInv(s.tokens, Next(s, step).tokens, s.audit, Next(s, step).audit);
      }
  }

  lemma {:induction false} FreshFamilyHasNoTail(tokens: seq<Token>, family: nat)
    requires forall i | 0 <= i < |tokens| :: tokens[i].family != family
    ensures LastOf(tokens, family, |tokens|) == None
  {
    var tail := LastOf(tokens, family, |tokens|);
  }

  // ---- whole runs ----------------------------------------------------------

  ghost predicate ValidRun(s: State, steps: seq<Step>)
    decreases steps
  {
    steps == [] || (ValidStep(s, steps[0]) && ValidRun(Next(s, steps[0]), steps[1..]))
  }

  function Run(s: State, steps: seq<Step>): State
    decreases steps
  {
    if steps == [] then s else Run(Next(s, steps[0]), steps[1..])
  }

  lemma {:induction false} RunKeepsInv(s: State, steps: seq<Step>)
    requires Inv(s) && ValidRun(s, steps)
    ensures Inv(Run(s, steps))
    decreases steps
  {
    hide Distinct, OneOwnerOneLive, AllChained;
    if steps != [] {
      StepKeepsInv(s, steps[0]);
      RunKeepsInv(Next(s, steps[0]), steps[1..]);
    }
  }

  predicate Succeeds(s: State, step: Step, raw: string) {
    step.DoRotate? && step.raw == raw && OutcomeOf(s, raw, step.now, step.userFound, step.newRaw).Rotated?
  }

  /** How often `raw` is rotated successfully in a run. */
  function Successes(s: State, steps: seq<Step>, raw: string): nat
    decreases steps
  {
    if steps == [] then 0
    else (if Succeeds(s, steps[0], raw) then 1 else 0) + Successes(Next(s, steps[0]), steps[1..], raw)
  }

  /** The row of `raw` is there and revoked. */
  ghost predicate Spent(s: State, raw: string) {
    exists i :: 0 <= i < |s.tokens| && s.tokens[i].hash == Sha256(raw) && s.tokens[i].revokedAt.Some?
  }

  lemma {:induction false} FindUnique(tokens: seq<Token>, k: nat)
    requires Distinct(tokens) && k < |tokens|
    ensures Find(tokens, tokens[k].hash) == Some(k)
  {
    var found := Find(tokens, tokens[k].hash);
    assert found.Some?;
  }

  lemma {:induction false} SpentStays(s: State, step: Step, raw: string)
    requires Inv(s) && Spent(s, raw)
    ensures Spent(Next(s, step), raw) && !Succeeds(s, step, raw)
  {
    var i :| 0 <= i < |s.tokens| && s.tokens[i].hash == Sha256(raw) && s.tokens[i].revokedAt.Some?;
    FindUnique(s.tokens, i);
    StepOnlyRevokes(s, step);
    assert Next(s, step).tokens[i] == s.tokens[i];
  }

  lemma {:induction false} SuccessSpends(s: State, step: Step, raw: string)
    requires Succeeds(s, step, raw)
    ensures Spent(Next(s, step), raw)
  {
    var k := Find(s.tokens, Sha256(raw)).value;
    assert Next(s, step).tokens[k].revokedAt.Some?;
  }

  lemma {:induction false} SpentNeverSucceeds(s: State, steps: seq<Step>, raw: string)
    requires Inv(s) && ValidRun(s, steps) && Spent(s, raw)
    ensures Successes(s, steps, raw) == 0
    decreases steps
  {
    if steps != [] {
      SpentStays(s, steps[0], raw);
      StepKeepsInv(s, steps[0]);
      SpentNeverSucceeds(Next(s, steps[0]), steps[1..], raw);
    }
  }

  /** In every run a raw token rotates successfully at most once. */
  lemma {:induction false} RotatesAtMostOnce(s: State, steps: seq<Step>, raw: string)
    requires Inv(s) && ValidRun(s, steps)
    ensures Successes(s, steps, raw) <= 1
    decreases steps
  {
    if steps != [] {
      StepKeepsInv(s, steps[0]);
      if Succeeds(s, steps[0], raw) {
        SuccessSpends(s, steps[0], raw);
        SpentNeverSucceeds(Next(s, steps[0]), steps[1..], raw);
      } else {
        RotatesAtMostOnce(Next(s, steps[0]), steps[1..], raw);
      }
    }
  }

  /** A presented token is accepted exactly when it is the unrevoked newest token of its family, unexpired, with its user still there. */
  lemma {:induction false} AcceptedIff(s: State, k: nat, now: int, userFound: bool, newRaw: string)
    requires Inv(s) && k < |s.tokens|
    ensures OutcomeOf(s, s.tokens[k].hash.raw, now, userFound, newRaw).Rotated?
            <==> (&& LastOf(s.tokens, s.tokens[k].family, |s.tokens|) == Some(k)
                  && s.tokens[k].revokedAt.None? && s.tokens[k].expiresAt >= now && userFound)
  {
    assert Sha256(s.tokens[k].hash.raw) == s.tokens[k].hash;
    FindUnique(s.tokens, k);
    if s.tokens[k].revokedAt.None? {
      LiveTokenIsTail(s.tokens, k);
    }
  }

  /** A row just added under a digest of its own decides what its token is good for. */
  lemma {:induction false} NewestDecides(tokens: seq<Token>, audit: seq<AuditEvent>, t: Token, raw: string, later: int,
                                         userFound: bool, next: string)
    requires t.hash == Sha256(raw) && t.revokedAt.None?
    ensures OutcomeOf(State(tokens + [t], audit), raw, later, userFound, next) ==
            if later > t.expiresAt then Expired else if !userFound then UserGone else Rotated(next)
  {
    assert (tokens + [t])[|tokens|] == t;
  }

  /**
   * The token that a login hands out is accepted exactly until its expiry, while the user
   * exists, and belongs to the user who logged in.
   */
  lemma {:induction false} LoginTokenWorks(s: State, user: string, family: nat, id: nat, raw: string, expiresAt: int,
                                           later: int, userFound: bool, next: string)
    ensures
      var s' := Login(s, user, family, id, raw, expiresAt);
      && (OutcomeOf(s', raw, later, userFound, next).Rotated? <==> later <= expiresAt && userFound)
      && s'.tokens[..|s.tokens|] == s.tokens && |s'.tokens| == |s.tokens| + 1
      && s'.tokens[|s.tokens|].user == user && s'.tokens[|s.tokens|].family == family
  {
    NewestDecides(s.tokens, s.audit, Token(id, user, family, Sha256(raw), None, None, expiresAt), raw, later, userFound, next);
  }

  /**
   * The token that a rotation hands out is the one it returns, is accepted exactly until the
   * expiry it was issued with, while the user exists, and belongs to the owner and the family of
   * the token presented; the presented one is not accepted again.
   */
  lemma {:induction false} RotatedTokenWorks(s: State, raw: string, now: int, newId: nat, newRaw: string, expiresAt: int,
                                             later: int, userFound: bool, next: string)
    requires Inv(s) && Fresh(s.tokens, newId, newRaw) && OutcomeOf(s, raw, now, true, newRaw).Rotated?
    ensures OutcomeOf(s, raw, now, true, newRaw) == Rotated(newRaw)
    ensures
      var s' := Rotate(s, raw, now, true, newId, newRaw, expiresAt);
      var k := Find(s.tokens, Sha256(raw)).value;
      && (OutcomeOf(s', newRaw, later, userFound, next).Rotated? <==> later <= expiresAt && userFound)
      && !OutcomeOf(s', raw, later, userFound, next).Rotated?
      && |s'.tokens| == |s.tokens| + 1
      && s'.tokens[|s.tokens|].user == s.tokens[k].user && s'.tokens[|s.tokens|].family == s.tokens[k].family
      && s'.tokens[|s.tokens|].previous == Some(s.tokens[k].id)
      && forall i | 0 <= i < |s.tokens| && i != k :: s'.tokens[i] == s.tokens[i]
  {
    var k := Find(s.tokens, Sha256(raw)).value;
    var e := s.tokens[k];
    var revoked := s.tokens[k := e.(revokedAt := Some(now))];
    var t := Token(newId, e.user, e.family, Sha256(newRaw), Some(e.id), None, expiresAt);
    NewestDecides(revoked, s.audit, t, newRaw, later, userFound, next);
    var s' := Rotate(s, raw, now, true, newId, newRaw, expiresAt);
    assert s'.tokens == revoked + [t];
    RotationKeepsInv(s, raw, now, newId, newRaw, expiresAt);
    assert s'.tokens[k].hash == Sha256(raw);
    FindUnique(s'.tokens, k);
  }

  // ---- a reused family is dead ---------------------------------------------

  /** The family has tokens and all of them are revoked. */
  ghost predicate Dead(tokens: seq<Token>, family: nat) {
    && (exists i :: 0 <= i < |tokens| && tokens[i].family == family)
    && (forall i | 0 <= i < |tokens| && tokens[i].family == family :: tokens[i].revokedAt.Some?)
  }

  /** The rows of one family, in order. */
  function FamilyRows(tokens: seq<Token>, family: nat): seq<Token> {
    if tokens == [] then []
    else
      FamilyRows(tokens[..|tokens| - 1], family) +
      (if tokens[|tokens| - 1].family == family then [tokens[|tokens| - 1]] else [])
  }

  lemma {:induction false} FamilyRowsEqual(a: seq<Token>, b: seq<Token>, family: nat)
    requires |a| == |b|
    requires forall i | 0 <= i < |a| :: a[i].family == b[i].family && (a[i].family == family ==> a[i] == b[i])
    ensures FamilyRows(a, family) == FamilyRows(b, family)
  {
    if a != [] {
      FamilyRowsEqual(a[..|a| - 1], b[..|b| - 1], family);
    }
  }

  /** Presenting an unexpired revoked token kills its family and touches no other. */
  lemma {:induction false} ReuseKillsFamily(s: State, step: Step, k: nat, other: nat)
    requires Inv(s) && step.DoRotate? && k < |s.tokens| && s.tokens[k].hash == Sha256(step.raw)
    requires s.tokens[k].revokedAt.Some? && s.tokens[k].expiresAt >= step.now
    ensures Dead(Next(s, step).tokens, s.tokens[k].family)
    ensures other != s.tokens[k].family ==> FamilyRows(Next(s, step).tokens, other) == FamilyRows(s.tokens, other)
    ensures Next(s, step).audit == s.audit + [ReuseDetected(s.tokens[k].user, s.tokens[k].family, s.tokens[k].id)]
  {
    FindUnique(s.tokens, k);
    var after := Next(s, step).tokens;
    assert after == RevokeFamily(s.tokens, s.tokens[k].family, step.now);
    assert after[k].family == s.tokens[k].family;
    if other != s.tokens[k].family {
      FamilyRowsEqual(s.tokens, after, other);
    }
  }

  /** No step changes a row of a dead family. */
  lemma {:induction false} DeadRowsKept(before: seq<Token>, after: seq<Token>, family: nat)
    requires Dead(before, family) && OnlyRevokes(before, after)
    ensures FamilyRows(after[..|before|], family) == FamilyRows(before, family)
    ensures Dead(after[..|before|], family)
  {
    hide FamilyRows;
    forall i | 0 <= i < |before|
      ensures before[i].family == after[i].family && (before[i].family == family ==> after[i] == before[i])
    {
      assert after[i].(revokedAt := None) == before[i].(revokedAt := None);
    }
    FamilyRowsEqual(before, after[..|before|], family);
    var i :| 0 <= i < |before| && before[i].family == family;
    assert after[..|before|][i].family == family;
  }

  lemma {:induction false} OtherRowIsInvisible(tokens: seq<Token>, t: Token, family: nat)
    requires t.family != family && Dead(tokens, family)
    ensures FamilyRows(tokens + [t], family) == FamilyRows(tokens, family)
    ensures Dead(tokens + [t], family)
  {
    assert (tokens + [t])[..|tokens|] == tokens;
    var i :| 0 <= i < |tokens| && tokens[i].family == family;
    assert (tokens + [t])[i].family == family;
  }

  /** A dead family stays as it is: no row changes, none is added, none of its tokens rotates. */
  lemma {:induction false} DeadStaysDead(s: State, step: Step, family: nat)
    requires Inv(s) && ValidStep(s, step) && Dead(s.tokens, family)
    ensures Dead(Next(s, step).tokens, family)
    ensures FamilyRows(Next(s, step).tokens, family) == FamilyRows(s.tokens, family)
    ensures forall raw | Succeeds(s, step, raw) :: s.tokens[Find(s.tokens, Sha256(raw)).value].family != family
  {
    assert forall raw | Succeeds(s, step, raw) :: s.tokens[Find(s.tokens, Sha256(raw)).value].family != family;
    hide Next, Dead, FamilyRows, Inv, ValidStep, Succeeds, OnlyRevokes;
    var before, after := s.tokens, Next(s, step).tokens;
    StepOnlyRevokes(s, step);
    DeadRowsKept(before, after, family);
    if |after| > |before| {
      NewRowIsElsewhere(s, step, family);
      assert after == after[..|before|] + [after[|before|]];
      OtherRowIsInvisible(after[..|before|], after[|before|], family);
    } else {
      assert after[..|before|] == after;
    }
  }

  lemma {:induction false} NewRowIsElsewhere(s: State, step: Step, family: nat)
    requires ValidStep(s, step) && Dead(s.tokens, family)
    requires |Next(s, step).tokens| > |s.tokens|
    ensures |Next(s, step).tokens| == |s.tokens| + 1
    ensures Next(s, step).tokens[|s.tokens|].family != family
  {
    var i :| 0 <= i < |s.tokens| && s.tokens[i].family == family;
  }

  /**
   * After an unexpired revoked token has been presented, no token of its family is
   * ever accepted or issued again, however the run goes on.
   */
  lemma {:induction false} ReusedFamilyNeverReturns(s: State, steps: seq<Step>, family: nat)
    requires Inv(s) && ValidRun(s, steps) && Dead(s.tokens, family)
    ensures Dead(Run(s, steps).tokens, family)
    ensures FamilyRows(Run(s, steps).tokens, family) == FamilyRows(s.tokens, family)
    decreases steps
  {
    hide Dead, FamilyRows, Distinct, OneOwnerOneLive, AllChained;
    if steps != [] {
      DeadStaysDead(s, steps[0], family);
      StepKeepsInv(s, steps[0]);
      ReusedFamilyNeverReturns(Next(s, steps[0]), steps[1..], family);
    }
  }
}
