/**
 * One-time OAuth state and exchange codes. A call of `consumeState` or `exchangeCode`
 * first reads a transaction row and later runs one conditional update on it; the calls
 * of many requests interleave freely, as do callbacks and the clean-up job.
 */
module OAuthTransactions {
  import opened Prelude

  /** SHA-256 is taken as injective. */
  datatype Digest = Sha256(raw: string)

  /** An `oauth_transactions` row. */
  datatype Row = Row(
    state: Digest,
    provider: string,
    user: Option<nat>,
    verifier: Digest,
    expiresAt: int,
    consumedAt: Option<int>,
    code: Option<Digest>,
    exchangedAt: Option<int>)

  type Rows = map<nat, Row>

  // ---- guards and updates on the table ------------------------------------

  predicate VerifierChar(c: char) {
    'A' <= c <= 'Z' || 'a' <= c <= 'z' || '0' <= c <= '9' || c == '_' || c == '-'
  }

  predicate IsValidClientVerifier(v: string) {
    43 <= |v| <= 128 && forall i | 0 <= i < |v| :: VerifierChar(v[i])
  }

  predicate HasCode(row: Row, code: string) {
    row.code == Some(Sha256(code)) && row.exchangedAt.None?
  }

  predicate HasState(row: Row, provider: string, state: string) {
    row.state == Sha256(state) && row.provider == provider && row.consumedAt.None?
  }

  /** What `findOneBy` may answer: a matching row if there is one. */
  ghost predicate FindsCode(rows: Rows, code: string, answer: Option<nat>) {
    match answer
    case Some(id) => id in rows && HasCode(rows[id], code)
    case None => forall id | id in rows :: !HasCode(rows[id], code)
  }

  ghost predicate FindsState(rows: Rows, provider: string, state: string, answer: Option<nat>) {
    match answer
    case Some(id) => id in rows && HasState(rows[id], provider, state)
    case None => forall id | id in rows :: !HasState(rows[id], provider, state)
  }

  predicate CodeShape(code: string) {
    0 < |code| <= 128
  }

  /** The checks `exchangeCode` makes on the row it has read. */
  predicate MayExchange(row: Row, verifier: string, now: int) {
    row.expiresAt > now && row.user.Some? && IsValidClientVerifier(verifier) && row.verifier == Sha256(verifier)
  }

  /** Does the conditional update of `exchanged_at` affect the row? */
  predicate CanMarkExchanged(rows: Rows, id: nat, now: int) {
    id in rows && rows[id].exchangedAt.None? && rows[id].expiresAt > now
  }

  function MarkExchanged(rows: Rows, id: nat, now: int): Rows {
    if CanMarkExchanged(rows, id, now) then rows[id := rows[id].(exchangedAt := Some(now))] else rows
  }

  predicate CanMarkConsumed(rows: Rows, id: nat, now: int) {
    id in rows && rows[id].consumedAt.None? && rows[id].expiresAt > now
  }

  function MarkConsumed(rows: Rows, id: nat, now: int): Rows {
    if CanMarkConsumed(rows, id, now) then rows[id := rows[id].(consumedAt := Some(now))] else rows
  }

  function Cleanup(rows: Rows, now: int): (r: Rows)
    ensures forall id :: id in r <==> id in rows && rows[id].expiresAt >= now
    ensures forall id | id in r :: r[id] == rows[id]
  {
    map id | id in rows && rows[id].expiresAt >= now :: rows[id]
  }

  /**
   * `save(transaction)` after a login callback. `loaded` is the entity as it was read
   * before its `consumed_at` was set. `wholeRow` says whether the mapper writes every
   * column of that entity back or only the three assigned ones; a row that is gone is
   * inserted again.
   */
  function Save(rows: Rows, id: nat, loaded: Row, user: nat, code: string, expiresAt: int, wholeRow: bool): Rows {
    var base := if id in rows && !wholeRow then rows[id] else loaded;
    rows[id := base.(user := Some(user), code := Some(Sha256(code)), expiresAt := expiresAt)]
  }

  /** The two calls run without interruption. */
  class OAuthService {
    var rows: Rows

    constructor ()
      ensures rows == map[]
    {
      rows := map[];
    }

    /**
     * `answer` is what the lookup found, `now` the read and `later` the update; `userFound` is
     * whether the user row is still there. The code is spent even if it is not.
     */
    method ExchangeCode(code: string, verifier: string, answer: Option<nat>, now: int, later: int, userFound: bool)
      returns (user: Result<nat>)
      requires FindsCode(rows, code, answer)
      modifies this
      ensures
        var spends := CodeShape(code) && answer.Some? && MayExchange(old(rows)[answer.value], verifier, Max(now, later));
        && (user.Ok? <==> spends && userFound)
        && (if spends then rows == MarkExchanged(old(rows), answer.value, later) && !HasCode(rows[answer.value], code)
            else rows == old(rows))
      ensures user.Ok? ==> answer.Some? && old(rows)[answer.value].user == Some(user.value)
    {
      user := Err("OAuth exchange code is invalid or expired");
      if !CodeShape(code) || answer.None? {
        return;
      }
      var id := answer.value;
      var transaction := rows[id];
      if !MayExchange(transaction, verifier, now) {
        return;
      }
      var affected := CanMarkExchanged(rows, id, later);
      rows := MarkExchanged(rows, id, later);
      if affected && userFound {
        user := Ok(transaction.user.value);
      }
    }

    method ConsumeState(provider: string, state: string, answer: Option<nat>, now: int, later: int)
      returns (transaction: Result<Row>)
      requires FindsState(rows, provider, state, answer)
      modifies this
      ensures transaction.Ok? <==> state != "" && answer.Some? && old(rows)[answer.value].expiresAt > Max(now, later)
      ensures transaction.Ok? ==> transaction.value == old(rows)[answer.value]
      ensures transaction.Ok? ==> rows == MarkConsumed(old(rows), answer.value, later)
                                  && !HasState(rows[answer.value], provider, state)
      ensures transaction.Err? ==> rows == old(rows)
    {
      transaction := Err("OAuth state is invalid or expired");
      if state == "" || answer.None? {
        return;
      }
      var id := answer.value;
      var loaded := rows[id];
      if loaded.expiresAt <= now {
        return;
      }
      var affected := CanMarkConsumed(rows, id, later);
      rows := MarkConsumed(rows, id, later);
      if affected {
        transaction := Ok(loaded);
      }
    }

    method CleanupExpiredTransactions(now: int)
      modifies this
      ensures rows == Cleanup(old(rows), now)
    {
      rows := Cleanup(rows, now);
    }
  }

  /** No later conditional update can tell whether the clean-up ran: it removes only rows that no exchange or callback could mark any more. */
  lemma {:induction false} CleanupIsInvisible(rows: Rows, now: int, later: int, id: nat)
    requires later >= now
    ensures CanMarkExchanged(Cleanup(rows, now), id, later) <==> CanMarkExchanged(rows, id, later)
    ensures CanMarkConsumed(Cleanup(rows, now), id, later) <==> CanMarkConsumed(rows, id, later)
    ensures id in rows && id !in Cleanup(rows, now) ==> forall verifier :: !MayExchange(rows[id], verifier, later)
  {
  }

  // ---- interleaved requests ------------------------------------------------

  /** What a request has read and not yet acted on. */
  datatype Request =
    | Exchanging(id: nat, code: string, verifier: string, user: nat)
    | Consuming(id: nat, provider: string, state: string, loaded: Row)
    | Consumed(id: nat, loaded: Row)

  datatype CodeWin = CodeWin(id: nat, code: string, verifier: string, user: nat, at: int)
  datatype StateWin = StateWin(id: nat, state: string, provider: string, at: int)

  /** What was issued for a row: at its creation, and with its exchange code. */
  datatype Begun = Begun(state: string, provider: string, verifier: string, expiresAt: int)
  datatype Issued = Issued(code: string, user: nat, expiresAt: int)

  /** Everything issued and won so far. */
  datatype History = History(
    begun: map<nat, Begun>,
    issued: map<nat, Issued>,
    codeWins: seq<CodeWin>,
    stateWins: seq<StateWin>)

  datatype State = State(rows: Rows, pending: map<nat, Request>, past: History)

  const Start := State(map[], map[], History(map[], map[], [], []))

  datatype Step =
    | Begin(id: nat, state: string, provider: string, owner: Option<nat>, verifier: string, expiresAt: int)
    | ReadState(req: nat, provider: string, state: string, answer: Option<nat>, now: int)
    | CommitState(req: nat, now: int)
    | AttachCode(req: nat, user: nat, code: string, expiresAt: int, wholeRow: bool)
    | ReadExchange(req: nat, code: string, verifier: string, answer: Option<nat>, now: int)
    | CommitExchange(req: nat, now: int)
    | CleanUp(now: int)

  /** Ids, states and codes are fresh, and a lookup answers what the table holds. */
  ghost predicate ValidStep(s: State, step: Step) {
    match step
    case Begin(id, state, _, _, verifier, _) =>
      && id !in s.past.begun && IsValidClientVerifier(verifier)
      && forall k | k in s.past.begun :: s.past.begun[k].state != state
    case ReadState(req, provider, state, answer, _) => req !in s.pending && FindsState(s.rows, provider, state, answer)
    case AttachCode(req, _, code, _, _) =>
      req in s.pending && s.pending[req].Consumed? && forall k | k in s.past.issued :: s.past.issued[k].code != code
    case ReadExchange(req, code, _, answer, _) => req !in s.pending && FindsCode(s.rows, code, answer)
    case CommitState(req, _) => req in s.pending && s.pending[req].Consuming?
    case CommitExchange(req, _) => req in s.pending && s.pending[req].Exchanging?
    case CleanUp(_) => true
  }

  /** A save that leaves the one-time marks of the stored row alone. */
  ghost predicate KeepsMarks(s: State, step: Step) {
    step.AttachCode? && step.req in s.pending ==> !step.wholeRow && s.pending[step.req].id in s.rows
  }

  ghost function Next(s: State, step: Step): State
    requires ValidStep(s, step)
  {
    match step
    case Begin(id, state, provider, user, verifier, expiresAt) =>
      s.(rows := s.rows[id := Row(Sha256(state), provider, user, Sha256(verifier), expiresAt, None, None, None)],
         past := s.past.(begun := s.past.begun[id := Begun(state, provider, verifier, expiresAt)]))
    case ReadState(req, provider, state, answer, now) =>
      if state == "" || answer.None? || s.rows[answer.value].expiresAt <= now then s
      else s.(pending := s.pending[req := Consuming(answer.value, provider, state, s.rows[answer.value])])
    case CommitState(req, now) =>
      var r := s.pending[req];
      if CanMarkConsumed(s.rows, r.id, now) then
        s.(rows := MarkConsumed(s.rows, r.id, now),
           pending := s.pending[req := Consumed(r.id, r.loaded)],
           past := s.past.(stateWins := s.past.stateWins + [StateWin(r.id, r.state, r.provider, now)]))
      else s.(pending := s.pending - {req})
    case AttachCode(req, user, code, expiresAt, wholeRow) =>
      var r := s.pending[req];
      s.(rows := Save(s.rows, r.id, r.loaded, user, code, expiresAt, wholeRow),
         pending := s.pending - {req},
         past := s.past.(issued := s.past.issued[r.id := Issued(code, user, expiresAt)]))
    case ReadExchange(req, code, verifier, answer, now) =>
      if !CodeShape(code) || answer.None? || !MayExchange(s.rows[answer.value], verifier, now) then s
      else s.(pending := s.pending[req := Exchanging(answer.value, code, verifier, s.rows[answer.value].user.value)])
    case CommitExchange(req, now) =>
      var r := s.pending[req];
      if CanMarkExchanged(s.rows, r.id, now) then
        s.(rows := MarkExchanged(s.rows, r.id, now),
           pending := s.pending - {req},
           past := s.past.(codeWins := s.past.codeWins + [CodeWin(r.id, r.code, r.verifier, r.user, now)]))
      else s.(pending := s.pending - {req})
    case CleanUp(now) => s.(rows := Cleanup(s.rows, now))
  }

  // ---- the invariant -------------------------------------------------------

  ghost predicate StateTaken(wins: seq<StateWin>, id: nat) {
    exists i :: 0 <= i < |wins| && wins[i].id == id
  }

  ghost predicate CodeTaken(wins: seq<CodeWin>, id: nat) {
    exists i :: 0 <= i < |wins| && wins[i].id == id
  }

  /** Issued values are unique. */
  ghost predicate Unique(h: History) {
    && h.issued.Keys <= h.begun.Keys
    && (forall a, b | a in h.begun && b in h.begun && a != b :: h.begun[a].state != h.begun[b].state)
    && (forall a, b | a in h.issued && b in h.issued && a != b :: h.issued[a].code != h.issued[b].code)
  }

  /** A stored row says what was issued for it, and whether it has been used. */
  ghost predicate RowFits(row: Row, id: nat, h: History) {
    && id in h.begun
    && row.state == Sha256(h.begun[id].state) && row.provider == h.begun[id].provider
    && row.verifier == Sha256(h.begun[id].verifier)
    && (if id in h.issued
        then row.code == Some(Sha256(h.issued[id].code)) && row.user == Some(h.issued[id].user)
             && row.expiresAt == h.issued[id].expiresAt
        else row.code.None? && row.expiresAt == h.begun[id].expiresAt)
    && (StateTaken(h.stateWins, id) <==> row.consumedAt.Some?)
    && (CodeTaken(h.codeWins, id) <==> row.exchangedAt.Some?)
  }

  /** The entity a callback holds is the row as it was before its state was consumed. */
  ghost predicate LoadedFits(loaded: Row, b: Begun) {
    loaded.consumedAt.None? && loaded.state == Sha256(b.state) && loaded.provider == b.provider
  }

  ghost predicate RequestFits(r: Request, h: History) {
    && r.id in h.begun
    && match r
       case Exchanging(id, code, verifier, user) =>
         && id in h.issued && h.issued[id].code == code && h.issued[id].user == user
         && h.begun[id].verifier == verifier
       case Consuming(id, provider, state, loaded) =>
         h.begun[id].state == state && h.begun[id].provider == provider && LoadedFits(loaded, h.begun[id])
       case Consumed(id, loaded) =>
         StateTaken(h.stateWins, id) && id !in h.issued && LoadedFits(loaded, h.begun[id])
  }

  /** A code is issued only by the request that took the row's state, and one request did. */
  ghost predicate OneCallback(pending: map<nat, Request>) {
    forall a, b | a in pending && b in pending && a != b && pending[a].Consumed? && pending[b].Consumed? ::
      pending[a].id != pending[b].id
  }

  ghost predicate StateWinFits(w: StateWin, h: History) {
    && w.id in h.begun && h.begun[w.id].state == w.state && h.begun[w.id].provider == w.provider
  }

  ghost predicate CodeWinFits(w: CodeWin, h: History) {
    && w.id in h.issued && h.issued[w.id].code == w.code && h.issued[w.id].user == w.user
    && w.at < h.issued[w.id].expiresAt
    && w.id in h.begun && h.begun[w.id].verifier == w.verifier
  }

  ghost predicate DistinctIds(h: History) {
    && (forall i, j | 0 <= i < j < |h.stateWins| :: h.stateWins[i].id != h.stateWins[j].id)
    && (forall i, j | 0 <= i < j < |h.codeWins| :: h.codeWins[i].id != h.codeWins[j].id)
  }

  ghost predicate WinsFit(h: History) {
    && (forall i | 0 <= i < |h.stateWins| :: StateWinFits(h.stateWins[i], h))
    && (forall i | 0 <= i < |h.codeWins| :: CodeWinFits(h.codeWins[i], h))
  }

  /** An issued code means that the state had been taken. */
  ghost predicate IssuedAfterTaken(h: History) {
    forall id | id in h.issued :: StateTaken(h.stateWins, id)
  }

  ghost predicate PastFits(h: History) {
    Unique(h) && DistinctIds(h) && WinsFit(h) && IssuedAfterTaken(h)
  }

  ghost predicate RowsFit(rows: Rows, h: History) {
    forall id | id in rows :: RowFits(rows[id], id, h)
  }

  ghost predicate RequestsFit(pending: map<nat, Request>, h: History) {
    forall q | q in pending :: RequestFits(pending[q], h)
  }

  ghost predicate Inv(s: State) {
    PastFits(s.past) && RowsFit(s.rows, s.past) && RequestsFit(s.pending, s.past) && OneCallback(s.pending)
  }

  // ---- each step keeps it --------------------------------------------------

  lemma {:induction false} TakenGrowsState(wins: seq<StateWin>, w: StateWin, id: nat)
    ensures StateTaken(wins + [w], id) <==> StateTaken(wins, id) || w.id == id
  {
    if StateTaken(wins, id) {
      var i :| 0 <= i < |wins| && wins[i].id == id;
      assert (wins + [w])[i].id == id;
    }
    if w.id == id {
      assert (wins + [w])[|wins|].id == id;
    }
  }

  lemma {:induction false} TakenGrowsCode(wins: seq<CodeWin>, w: CodeWin, id: nat)
    ensures CodeTaken(wins + [w], id) <==> CodeTaken(wins, id) || w.id == id
  {
    if CodeTaken(wins, id) {
      var i :| 0 <= i < |wins| && wins[i].id == id;
      assert (wins + [w])[i].id == id;
    }
    if w.id == id {
      assert (wins + [w])[|wins|].id == id;
    }
  }

  lemma {:induction false} BeginKeepsPast(h: History, id: nat, b: Begun)
    requires PastFits(h) && id !in h.begun && forall k | k in h.begun :: h.begun[k].state != b.state
    ensures PastFits(h.(begun := h.begun[id := b]))
  {
    hide StateTaken, CodeTaken;
    var h' := h.(begun := h.begun[id := b]);
    forall i | 0 <= i < |h.stateWins| ensures StateWinFits(h.stateWins[i], h') {
      assert StateWinFits(h.stateWins[i], h);
    }
    forall i | 0 <= i < |h.codeWins| ensures CodeWinFits(h.codeWins[i], h') {
      assert CodeWinFits(h.codeWins[i], h);
    }
  }

  lemma {:induction false} FreshIdIsUntaken(h: History, id: nat)
    requires PastFits(h) && id !in h.begun
    ensures !StateTaken(h.stateWins, id) && !CodeTaken(h.codeWins, id) && id !in h.issued
  {
  }

  lemma {:induction false} BeginKeepsInv(s: State, step: Step)
    requires Inv(s) && ValidStep(s, step) && step.Begin?
    ensures Inv(Next(s, step))
  {
    hide StateTaken, CodeTaken, PastFits;
    var h := s.past;
    var h' := Next(s, step).past;
    FreshIdIsUntaken(h, step.id);
    BeginKeepsPast(h, step.id, Begun(step.state, step.provider, step.verifier, step.expiresAt));
    forall id | id in s.rows ensures RowFits(s.rows[id], id, h') {
      assert RowFits(s.rows[id], id, h);
    }
    forall q | q in s.pending ensures RequestFits(s.pending[q], h') {
      assert RequestFits(s.pending[q], h);
    }
  }

  lemma {:induction false} ReadStateKeepsInv(s: State, step: Step)
    requires Inv(s) && ValidStep(s, step) && step.ReadState?
    ensures Inv(Next(s, step))
  {
    hide StateTaken, CodeTaken, PastFits;
    if step.answer.Some? {
      assert RowFits(s.rows[step.answer.value], step.answer.value, s.past);
    }
  }

  lemma {:induction false} ReadExchangeKeepsInv(s: State, step: Step)
    requires Inv(s) && ValidStep(s, step) && step.ReadExchange?
    ensures Inv(Next(s, step))
  {
    hide StateTaken, CodeTaken, PastFits;
    if step.answer.Some? {
      assert RowFits(s.rows[step.answer.value], step.answer.value, s.past);
    }
  }

  /** A state win for a row not taken before keeps the history consistent. */
  lemma {:induction false} StateWinKeepsPast(h: History, w: StateWin)
    requires PastFits(h) && StateWinFits(w, h) && !StateTaken(h.stateWins, w.id)
    ensures
      var h' := h.(stateWins := h.stateWins + [w]);
      PastFits(h') && forall id :: StateTaken(h'.stateWins, id) <==> StateTaken(h.stateWins, id) || id == w.id
  {
    hide CodeTaken;
    var h' := h.(stateWins := h.stateWins + [w]);
    forall id ensures StateTaken(h'.stateWins, id) <==> StateTaken(h.stateWins, id) || id == w.id {
      TakenGrowsState(h.stateWins, w, id);
    }
    assert forall i | 0 <= i < |h.stateWins| :: h.stateWins[i].id != w.id;
    hide StateTaken;
    forall i | 0 <= i < |h'.stateWins| ensures StateWinFits(h'.stateWins[i], h') {
      if i < |h.stateWins| {
        assert StateWinFits(h.stateWins[i], h);
      }
    }
    forall i | 0 <= i < |h.codeWins| ensures CodeWinFits(h.codeWins[i], h') {
      assert CodeWinFits(h.codeWins[i], h);
    }
  }

  lemma {:induction false} CodeWinKeepsPast(h: History, w: CodeWin)
    requires PastFits(h) && CodeWinFits(w, h) && !CodeTaken(h.codeWins, w.id)
    ensures
      var h' := h.(codeWins := h.codeWins + [w]);
      PastFits(h') && forall id :: CodeTaken(h'.codeWins, id) <==> CodeTaken(h.codeWins, id) || id == w.id
  {
    hide StateTaken;
    var h' := h.(codeWins := h.codeWins + [w]);
    forall id ensures CodeTaken(h'.codeWins, id) <==> CodeTaken(h.codeWins, id) || id == w.id {
      TakenGrowsCode(h.codeWins, w, id);
    }
    assert forall i | 0 <= i < |h.codeWins| :: h.codeWins[i].id != w.id;
    hide CodeTaken;
    forall i | 0 <= i < |h'.codeWins| ensures CodeWinFits(h'.codeWins[i], h') {
      if i < |h.codeWins| {
        assert CodeWinFits(h.codeWins[i], h);
      }
    }
    forall i | 0 <= i < |h.stateWins| ensures StateWinFits(h.stateWins[i], h') {
      assert StateWinFits(h.stateWins[i], h);
    }
  }

  lemma {:induction false} ConsumptionFitsRows(s: State, w: StateWin, now: int)
    requires RowsFit(s.rows, s.past) && CanMarkConsumed(s.rows, w.id, now)
    ensures RowsFit(MarkConsumed(s.rows, w.id, now), s.past.(stateWins := s.past.stateWins + [w]))
  {
    hide StateTaken, CodeTaken;
    var rows := MarkConsumed(s.rows, w.id, now);
    forall id | id in rows ensures RowFits(rows[id], id, s.past.(stateWins := s.past.stateWins + [w])) {
      assert RowFits(s.rows[id], id, s.past);
      TakenGrowsState(s.past.stateWins, w, id);
    }
  }

  lemma {:induction false} ConsumptionFitsRequests(s: State, req: nat, w: StateWin)
    requires RequestsFit(s.pending, s.past) && OneCallback(s.pending) && req in s.pending
    requires s.pending[req].Consuming? && s.pending[req].id == w.id
    requires !StateTaken(s.past.stateWins, w.id) && w.id !in s.past.issued
    ensures
      var pending := s.pending[req := Consumed(w.id, s.pending[req].loaded)];
      RequestsFit(pending, s.past.(stateWins := s.past.stateWins + [w])) && OneCallback(pending)
  {
    hide StateTaken, CodeTaken;
    var pending := s.pending[req := Consumed(w.id, s.pending[req].loaded)];
    var past := s.past.(stateWins := s.past.stateWins + [w]);
    forall q | q in pending
      ensures RequestFits(pending[q], past) && (q != req && pending[q].Consumed? ==> pending[q].id != w.id)
    {
      assert RequestFits(s.pending[q], s.past);
      TakenGrowsState(s.past.stateWins, w, pending[q].id);
    }
  }

  lemma {:induction false} CommitStateKeepsInv(s: State, step: Step)
    requires Inv(s) && ValidStep(s, step) && step.CommitState?
    ensures Inv(Next(s, step))
  {
    hide StateTaken, CodeTaken;
    var r := s.pending[step.req];
    assert RequestFits(r, s.past);
    if CanMarkConsumed(s.rows, r.id, step.now) {
      assert RowFits(s.rows[r.id], r.id, s.past);
      assert r.id !in s.past.issued;
      var w := StateWin(r.id, r.state, r.provider, step.now);
      StateWinKeepsPast(s.past, w);
      ConsumptionFitsRows(s, w, step.now);
      ConsumptionFitsRequests(s, step.req, w);
      hide PastFits, RowsFit, RequestsFit, OneCallback;
    }
  }

  lemma {:induction false} CommitExchangeKeepsInv(s: State, step: Step)
    requires Inv(s) && ValidStep(s, step) && step.CommitExchange?
    ensures Inv(Next(s, step))
  {
    hide StateTaken, CodeTaken, PastFits;
    var r := s.pending[step.req];
    assert RequestFits(r, s.past);
    if CanMarkExchanged(s.rows, r.id, step.now) {
      assert RowFits(s.rows[r.id], r.id, s.past);
      CodeWinKeepsPast(s.past, CodeWin(r.id, r.code, r.verifier, r.user, step.now));
    }
  }

  lemma {:induction false} IssueKeepsPast(h: History, id: nat, n: Issued)
    requires PastFits(h) && id in h.begun && id !in h.issued && StateTaken(h.stateWins, id)
    requires forall k | k in h.issued :: h.issued[k].code != n.code
    ensures PastFits(h.(issued := h.issued[id := n]))
  {
    hide StateTaken, CodeTaken;
    var h' := h.(issued := h.issued[id := n]);
    forall i | 0 <= i < |h.stateWins| ensures StateWinFits(h.stateWins[i], h') {
      assert StateWinFits(h.stateWins[i], h);
    }
    forall i | 0 <= i < |h.codeWins| ensures CodeWinFits(h.codeWins[i], h') {
      assert CodeWinFits(h.codeWins[i], h);
    }
  }

  lemma {:induction false} AttachKeepsInv(s: State, step: Step)
    requires Inv(s) && ValidStep(s, step) && step.AttachCode? && KeepsMarks(s, step)
    ensures Inv(Next(s, step))
  {
    hide StateTaken, CodeTaken, PastFits;
    var r := s.pending[step.req];
    var t := Next(s, step);
    assert RequestFits(r, s.past);
    assert RowFits(s.rows[r.id], r.id, s.past);
    IssueKeepsPast(s.past, r.id, Issued(step.code, step.user, step.expiresAt));
    forall id | id in t.rows ensures RowFits(t.rows[id], id, t.past) {
      assert RowFits(s.rows[id], id, s.past);
    }
    forall q | q in t.pending ensures RequestFits(t.pending[q], t.past) {
      assert RequestFits(s.pending[q], s.past);
    }
  }

  lemma {:induction false} StepKeepsInv(s: State, step: Step)
    requires Inv(s) && ValidStep(s, step) && KeepsMarks(s, step)
    ensures Inv(Next(s, step))
  {
    hide PastFits, RowsFit, RequestsFit, OneCallback;
    match step
    case Begin(_, _, _, _, _, _) => BeginKeepsInv(s, step);
    case ReadState(_, _, _, _, _) => ReadStateKeepsInv(s, step);
    case CommitState(_, _) => CommitStateKeepsInv(s, step);
    case AttachCode(_, _, _, _, _) => AttachKeepsInv(s, step);
    case ReadExchange(_, _, _, _, _) => ReadExchangeKeepsInv(s, step);
    case CommitExchange(_, _) => CommitExchangeKeepsInv(s, step);
    case CleanUp(_) => CleanUpKeepsInv(s, step);
  }

  lemma {:induction false} CleanUpKeepsInv(s: State, step: Step)
    requires Inv(s) && ValidStep(s, step) && step.CleanUp?
    ensures Inv(Next(s, step))
  {
    hide StateTaken, CodeTaken, PastFits, OneCallback;
  }

  // ---- whole runs ----------------------------------------------------------

  ghost predicate ValidRun(s: State, steps: seq<Step>)
    decreases steps
  {
    steps == [] ||
    (ValidStep(s, steps[0]) && KeepsMarks(s, steps[0]) && ValidRun(Next(s, steps[0]), steps[1..]))
  }

  ghost function Run(s: State, steps: seq<Step>): State
    requires ValidRun(s, steps)
    decreases steps
  {
    if steps == [] then s else Run(Next(s, steps[0]), steps[1..])
  }

  lemma {:induction false} RunKeepsInv(s: State, steps: seq<Step>)
    requires Inv(s) && ValidRun(s, steps)
    ensures Inv(Run(s, steps))
    decreases steps
  {
    hide Inv, Next, ValidStep, KeepsMarks;
    if steps != [] {
      StepKeepsInv(s, steps[0]);
      RunKeepsInv(Next(s, steps[0]), steps[1..]);
    }
  }

  /**
   * However requests interleave, at most one of them gets a given exchange code
   * accepted; it presented the verifier the login began with, before the code expired,
   * and is signed in as the user the code was issued for.
   */
  lemma {:induction false} CodeHasOneWinner(steps: seq<Step>, i: nat, j: nat)
    requires ValidRun(Start, steps)
    requires i < j < |Run(Start, steps).past.codeWins|
    ensures Run(Start, steps).past.codeWins[i].code != Run(Start, steps).past.codeWins[j].code
  {
    RunKeepsInv(Start, steps);
    var s := Run(Start, steps);
    hide Run, ValidRun, RowsFit, RequestsFit, OneCallback;
    assert CodeWinFits(s.past.codeWins[i], s.past) && CodeWinFits(s.past.codeWins[j], s.past);
  }

  lemma {:induction false} CodeWinnerIsEntitled(steps: seq<Step>, i: nat)
    requires ValidRun(Start, steps)
    requires i < |Run(Start, steps).past.codeWins|
    ensures CodeWinFits(Run(Start, steps).past.codeWins[i], Run(Start, steps).past)
  {
    RunKeepsInv(Start, steps);
    hide Run, ValidRun, RowsFit, RequestsFit, OneCallback, CodeWinFits;
  }

  /** At most one request consumes a given state, and it named the right provider. */
  lemma {:induction false} StateHasOneWinner(steps: seq<Step>, i: nat, j: nat)
    requires ValidRun(Start, steps)
    requires i < j < |Run(Start, steps).past.stateWins|
    ensures Run(Start, steps).past.stateWins[i].state != Run(Start, steps).past.stateWins[j].state
    ensures StateWinFits(Run(Start, steps).past.stateWins[i], Run(Start, steps).past)
  {
    RunKeepsInv(Start, steps);
    var s := Run(Start, steps);
    hide Run, ValidRun, RowsFit, RequestsFit, OneCallback;
    assert StateWinFits(s.past.stateWins[i], s.past) && StateWinFits(s.past.stateWins[j], s.past);
  }

  /** After a save, the row of a consumed state can be consumed again exactly when the save did not keep its marks. */
  lemma {:induction false} SaveReopensIff(s: State, step: Step)
    requires Inv(s) && ValidStep(s, step) && step.AttachCode?
    ensures
      var id := s.pending[step.req].id;
      Next(s, step).rows[id].consumedAt.None? <==> !KeepsMarks(s, step)
  {
    hide StateTaken, CodeTaken, PastFits, OneCallback;
    var r := s.pending[step.req];
    assert RequestFits(r, s.past);
    if r.id in s.rows {
      assert RowFits(s.rows[r.id], r.id, s.past);
    }
  }

  /**
   * After a save that does not keep the marks, because the mapper wrote the whole row or the
   * clean-up had removed it, another request consumes the same state again.
   */
  lemma {:induction false} ReopenedStateIsWonAgain(s: State, attach: Step, again: nat, now: int)
    requires Inv(s) && ValidStep(s, attach) && attach.AttachCode? && !KeepsMarks(s, attach)
    requires again !in s.pending && attach.expiresAt > now
    requires s.past.begun[s.pending[attach.req].id].state != ""
    ensures
      var id := s.pending[attach.req].id;
      var b := s.past.begun[id];
      var s1 := Next(s, attach);
      var read := ReadState(again, b.provider, b.state, Some(id), now);
      && ValidStep(s1, read) && ValidStep(Next(s1, read), CommitState(again, now))
      && var wins := Next(Next(s1, read), CommitState(again, now)).past.stateWins;
         wins == s.past.stateWins + [StateWin(id, b.state, b.provider, now)] && StateTaken(s.past.stateWins, id)
  {
    hide CodeTaken, StateTaken, PastFits, OneCallback, RowFits;
    var r := s.pending[attach.req];
    assert RequestFits(r, s.past);
    var b := s.past.begun[r.id];
    var s1 := Next(s, attach);
    assert HasState(s1.rows[r.id], b.provider, b.state);
    assert again !in s1.pending;
  }

  // ---- the rightful request wins -------------------------------------------

  /**
   * In any state of a run: a code that was issued, has not been exchanged and has not expired,
   * and whose row is there, is won by the next exchange that presents it with the verifier the
   * login began with, and signs in the user it was issued for.
   */
  lemma {:induction false} RightfulExchangeWins(s: State, id: nat, req: nat, now: int, later: int)
    requires Inv(s) && req !in s.pending && id in s.rows && id in s.past.issued
    requires !CodeTaken(s.past.codeWins, id) && s.past.issued[id].expiresAt > Max(now, later)
    requires CodeShape(s.past.issued[id].code) && IsValidClientVerifier(s.past.begun[id].verifier)
    ensures
      var code, verifier := s.past.issued[id].code, s.past.begun[id].verifier;
      var read := ReadExchange(req, code, verifier, Some(id), now);
      && ValidStep(s, read) && ValidStep(Next(s, read), CommitExchange(req, later))
      && Next(Next(s, read), CommitExchange(req, later)).past.codeWins ==
         s.past.codeWins + [CodeWin(id, code, verifier, s.past.issued[id].user, later)]
  {
    assert RowFits(s.rows[id], id, s.past);
    hide CodeTaken, StateTaken, PastFits, OneCallback, IsValidClientVerifier;
    var code, verifier := s.past.issued[id].code, s.past.begun[id].verifier;
    assert HasCode(s.rows[id], code);
    assert MayExchange(s.rows[id], verifier, now);
  }

  /** Likewise an unconsumed state, presented in time by its provider, is consumed. */
  lemma {:induction false} RightfulCallbackWins(s: State, id: nat, req: nat, now: int, later: int)
    requires Inv(s) && req !in s.pending && id in s.rows && id !in s.past.issued
    requires !StateTaken(s.past.stateWins, id) && s.rows[id].expiresAt > Max(now, later)
    requires s.past.begun[id].state != ""
    ensures
      var b := s.past.begun[id];
      var read := ReadState(req, b.provider, b.state, Some(id), now);
      && ValidStep(s, read) && ValidStep(Next(s, read), CommitState(req, later))
      && Next(Next(s, read), CommitState(req, later)).past.stateWins ==
         s.past.stateWins + [StateWin(id, b.state, b.provider, later)]
  {
    assert RowFits(s.rows[id], id, s.past);
    hide CodeTaken, StateTaken, PastFits, OneCallback;
    assert HasState(s.rows[id], s.past.begun[id].provider, s.past.begun[id].state);
  }

  /** A callback that consumed a state and attaches a new code has the right user signed in by that code. */
  lemma {:induction false} AttachedCodeSignsIn(s: State, attach: Step, req: nat, now: int, later: int)
    requires Inv(s) && ValidStep(s, attach) && attach.AttachCode? && KeepsMarks(s, attach)
    requires req !in s.pending && CodeShape(attach.code) && attach.expiresAt > Max(now, later)
    requires IsValidClientVerifier(s.past.begun[s.pending[attach.req].id].verifier)
    ensures
      var id := s.pending[attach.req].id;
      var verifier := s.past.begun[id].verifier;
      var read := ReadExchange(req, attach.code, verifier, Some(id), now);
      var s' := Next(s, attach);
      && ValidStep(s', read) && ValidStep(Next(s', read), CommitExchange(req, later))
      && Next(Next(s', read), CommitExchange(req, later)).past.codeWins ==
         s.past.codeWins + [CodeWin(id, attach.code, verifier, attach.user, later)]
  {
    var id := s.pending[attach.req].id;
    assert RequestFits(s.pending[attach.req], s.past);
    UnissuedIsUntaken(s.past, id);
    AttachKeepsInv(s, attach);
    RightfulExchangeWins(Next(s, attach), id, req, now, later);
  }

  lemma {:induction false} UnissuedIsUntaken(h: History, id: nat)
    requires PastFits(h) && id !in h.issued
    ensures !CodeTaken(h.codeWins, id)
  {
    hide StateTaken;
    forall i | 0 <= i < |h.codeWins| ensures h.codeWins[i].id != id {
      assert CodeWinFits(h.codeWins[i], h);
    }
  }

  /** The state after a login has begun and its callback has consumed the state. */
  ghost function AfterCallback(s: State, begin: Step, callback: nat, read: int, commit: int): State
    requires begin.Begin? && ValidStep(s, begin) && Inv(s) && callback !in s.pending
    requires begin.state != "" && begin.expiresAt > Max(read, commit)
  {
    var s1 := Next(s, begin);
    BeginKeepsInv(s, begin);
    FreshIdIsUntaken(s.past, begin.id);
    RightfulCallbackWins(s1, begin.id, callback, read, commit);
    Next(Next(s1, ReadState(callback, begin.provider, begin.state, Some(begin.id), read)), CommitState(callback, commit))
  }

  lemma {:induction false} CallbackHoldsState(s: State, begin: Step, callback: nat, read: int, commit: int)
    requires begin.Begin? && ValidStep(s, begin) && Inv(s) && callback !in s.pending
    requires begin.state != "" && begin.expiresAt > Max(read, commit)
    ensures
      var s3 := AfterCallback(s, begin, callback, read, commit);
      && callback in s3.pending && s3.pending[callback].Consumed? && s3.pending[callback].id == begin.id
      && s3.pending.Keys == s.pending.Keys + {callback} && begin.id in s3.rows
      && begin.id in s3.past.begun && s3.past.begun[begin.id].verifier == begin.verifier
      && s3.past.issued == s.past.issued && s3.past.codeWins == s.past.codeWins
  {
    var s1 := Next(s, begin);
    BeginKeepsInv(s, begin);
    FreshIdIsUntaken(s.past, begin.id);
    RightfulCallbackWins(s1, begin.id, callback, read, commit);
    var step := ReadState(callback, begin.provider, begin.state, Some(begin.id), read);
    hide Inv, StateTaken, CodeTaken, IsValidClientVerifier, FindsState;
    assert Next(s1, step).rows == s1.rows && s1.rows[begin.id].consumedAt.None?;
  }

  lemma {:induction false} CallbackKeepsInv(s: State, begin: Step, callback: nat, read: int, commit: int)
    requires begin.Begin? && ValidStep(s, begin) && Inv(s) && callback !in s.pending
    requires begin.state != "" && begin.expiresAt > Max(read, commit)
    ensures Inv(AfterCallback(s, begin, callback, read, commit))
  {
    var s1 := Next(s, begin);
    BeginKeepsInv(s, begin);
    FreshIdIsUntaken(s.past, begin.id);
    hide StateTaken, CodeTaken, IsValidClientVerifier, PastFits, RowsFit, RequestsFit, OneCallback;
    RightfulCallbackWins(s1, begin.id, callback, read, commit);
    var step := ReadState(callback, begin.provider, begin.state, Some(begin.id), read);
    ReadStateKeepsInv(s1, step);
    CommitStateKeepsInv(Next(s1, step), CommitState(callback, commit));
  }

  /**
   * From any state of a run: a login that begins, whose callback presents its state in time and
   * attaches a new code, and whose client presents that code in time with the verifier it began
   * with, ends with that exchange won for the user the callback found.
   */
  lemma {:induction false} FreshLoginSignsIn(s: State, begin: Step, callback: nat, req: nat, user: nat, code: string,
                                             expiresAt: int, t: (int, int, int, int))
    requires Inv(s) && begin.Begin? && ValidStep(s, begin) && callback !in s.pending && req !in s.pending && req != callback
    requires begin.state != "" && begin.expiresAt > Max(t.0, t.1)
    requires CodeShape(code) && expiresAt > Max(t.2, t.3) && forall k | k in s.past.issued :: s.past.issued[k].code != code
    ensures
      var s3 := AfterCallback(s, begin, callback, t.0, t.1);
      var attach := AttachCode(callback, user, code, expiresAt, false);
      && ValidStep(s3, attach)
      && var s4, read := Next(s3, attach), ReadExchange(req, code, begin.verifier, Some(begin.id), t.2);
         && ValidStep(s4, read) && ValidStep(Next(s4, read), CommitExchange(req, t.3))
         && Next(Next(s4, read), CommitExchange(req, t.3)).past.codeWins ==
            s.past.codeWins + [CodeWin(begin.id, code, begin.verifier, user, t.3)]
  {
    CallbackHoldsState(s, begin, callback, t.0, t.1);
    CallbackKeepsInv(s, begin, callback, t.0, t.1);
    var s3 := AfterCallback(s, begin, callback, t.0, t.1);
    hide AfterCallback, Inv, IsValidClientVerifier, CodeShape;
    AttachedCodeSignsIn(s3, AttachCode(callback, user, code, expiresAt, false), req, t.2, t.3);
  }
}
