/**
 * `BalanceService`: balance rows behind a read-through cache with a 10 s lifetime that
 * every write invalidates. First call by call, then with the calls split at their
 * awaits and interleaved in any order.
 */
module BalanceCache {
  import opened Prelude
  import opened Balances

  const BALANCE_CACHE_TTL_MS: int := 10_000

  // ---- calls that do not overlap -------------------------------------------

  datatype Cached = Cached(amount: int, expiresAt: int)

  class BalanceService {
    var repo: Repo
    var cache: map<string, Cached>

    /** Whatever is cached, live or lapsed, is what is stored. */
    ghost predicate Valid()
      reads this
    {
      forall account | account in cache :: cache[account].amount == Stored(repo, account)
    }

    constructor ()
      ensures Valid() && repo == map[] && cache == map[]
    {
      repo, cache := map[], map[];
    }

    method Credit(account: string, amount: int) returns (saved: int)
      requires Valid()
      modifies this
      ensures Valid()
      ensures repo == Apply(old(repo), Deposit(account, amount)) && saved == Stored(repo, account)
      ensures cache == old(cache) - {account}
    {
      var balance := if account in repo then repo[account] else 0;
      saved := balance + amount;
      repo := repo[account := saved];
      cache := cache - {account};
    }

    method SetBalance(account: string, amount: int) returns (saved: int)
      requires Valid()
      modifies this
      ensures Valid()
      ensures repo == old(repo)[account := amount] && saved == amount
      ensures cache == old(cache) - {account}
    {
      saved := amount;
      repo := repo[account := amount];
      cache := cache - {account};
    }

    /** Hit or miss, the answer is the stored balance. */
    method Get(account: string, now: int) returns (amount: int)
      requires Valid()
      modifies this`cache
      ensures Valid()
      ensures amount == Stored(repo, account)
      ensures cache == if account in old(cache) && now < old(cache)[account].expiresAt then old(cache)
                       else old(cache)[account := Cached(amount, now + BALANCE_CACHE_TTL_MS)]
    {
      if account in cache && now < cache[account].expiresAt {
        return cache[account].amount;
      }
      amount := if account in repo then repo[account] else 0;
      cache := cache[account := Cached(amount, now + BALANCE_CACHE_TTL_MS)];
    }
  }

  // ---- calls interleaved at their awaits -----------------------------------

  /** A cached view, with the step at which its balance was read and the time it was set. */
  datatype Entry = Entry(amount: int, readAt: nat, setAt: int)

  /** What an in-flight call does next; the save of a credit remembers the balance it read. */
  datatype Call =
    | ReadForGet(account: string)
    | Fill(account: string, amount: int, readAt: nat)
    | ReadForCredit(account: string, amount: int)
    | ReadForSet(account: string, amount: int)
    | Save(account: string, amount: int, read: Option<int>)
    | Invalidate(account: string)

  /** An amount returned by `get` at time `at` and step `step`, from an entry set at `setAt`. */
  datatype Served = Served(account: string, amount: int, readAt: nat, setAt: int, at: int, step: nat)

  /** `history[i]` is the balance table as it stood at step i; the last one is current. */
  datatype State = State(
    history: seq<Repo>,
    cache: map<string, Entry>,
    now: int,
    calls: map<nat, Call>,
    served: seq<Served>)

  datatype Step =
    | Wait(ms: nat)
    | StartGet(id: nat, account: string)
    | StartCredit(id: nat, account: string, amount: int)
    | StartSet(id: nat, account: string, amount: int)
    | Resume(id: nat)

  function Current(s: State): Repo
    requires s.history != []
  {
    s.history[|s.history| - 1]
  }

  predicate Live(e: Entry, now: int) {
    now < e.setAt + BALANCE_CACHE_TTL_MS
  }

  /** One step of the call `id`, up to its next await. */
  function ResumeCall(s: State, id: nat): State
    requires s.history != [] && id in s.calls
  {
    var repo, readAt := Current(s), |s.history| - 1;
    var same := s.history + [repo];
    match s.calls[id]
    case ReadForGet(a) => s.(history := same, calls := s.calls[id := Fill(a, Stored(repo, a), readAt)])
    case Fill(a, amount, r) =>
      s.(history := same,
         cache := s.cache[a := Entry(amount, r, s.now)],
         calls := s.calls - {id},
         served := s.served + [Served(a, amount, r, s.now, s.now, |s.history|)])
    case ReadForCredit(a, amount) => s.(history := same, calls := s.calls[id := Save(a, Stored(repo, a) + amount, Some(Stored(repo, a)))])
    case ReadForSet(a, amount) => s.(history := same, calls := s.calls[id := Save(a, amount, None)])
    case Save(a, amount, _) => s.(history := s.history + [repo[a := amount]], calls := s.calls[id := Invalidate(a)])
    case Invalidate(a) => s.(history := same, cache := s.cache - {a}, calls := s.calls - {id})
  }

  function Next(s: State, step: Step): State
    requires s.history != []
  {
    var same := s.history + [Current(s)];
    match step
    case Wait(ms) => s.(history := same, now := s.now + ms)
    case StartGet(id, a) =>
      if a in s.cache && Live(s.cache[a], s.now) then
        var e := s.cache[a];
        s.(history := same, served := s.served + [Served(a, e.amount, e.readAt, e.setAt, s.now, |s.history|)])
      else s.(history := same, calls := s.calls[id := ReadForGet(a)])
    case StartCredit(id, a, amount) => s.(history := same, calls := s.calls[id := ReadForCredit(a, amount)])
    case StartSet(id, a, amount) => s.(history := same, calls := s.calls[id := ReadForSet(a, amount)])
    case Resume(id) => if id in s.calls then ResumeCall(s, id) else s.(history := same)
  }

  /** `amount` is what was stored for the account at step `readAt`. */
  predicate ReadThen(history: seq<Repo>, account: string, amount: int, readAt: nat) {
    readAt < |history| && amount == Stored(history[readAt], account)
  }

  ghost predicate CacheSound(s: State) {
    forall a | a in s.cache :: ReadThen(s.history, a, s.cache[a].amount, s.cache[a].readAt) && s.cache[a].setAt <= s.now
  }

  ghost predicate CallsSound(s: State) {
    forall id | id in s.calls ::
      s.calls[id].Fill? ==> ReadThen(s.history, s.calls[id].account, s.calls[id].amount, s.calls[id].readAt)
  }

  /** A served amount was stored when it was read, and was served within the lifetime of its entry. */
  predicate ServedSoundly(history: seq<Repo>, v: Served) {
    ReadThen(history, v.account, v.amount, v.readAt) && 0 <= v.at - v.setAt < BALANCE_CACHE_TTL_MS
  }

  ghost predicate Inv(s: State) {
    && s.history != []
    && CacheSound(s) && CallsSound(s)
    && (forall i | 0 <= i < |s.served| :: ServedSoundly(s.history, s.served[i]))
  }

  function Initial(repo: Repo, now: int): State {
    State([repo], map[], now, map[], [])
  }

  lemma {:induction false} ReadThenGrows(history: seq<Repo>, more: Repo, account: string, amount: int, readAt: nat)
    requires ReadThen(history, account, amount, readAt)
    ensures ReadThen(history + [more], account, amount, readAt)
  {
    assert (history + [more])[readAt] == history[readAt];
  }

  /** Lengthening the history by one step breaks nothing. */
  lemma {:induction false} InvGrows(s: State, more: Repo)
    requires Inv(s)
    ensures Inv(s.(history := s.history + [more]))
  {
    var h := s.history;
    forall a | a in s.cache ensures ReadThen(h + [more], a, s.cache[a].amount, s.cache[a].readAt) {
      ReadThenGrows(h, more, a, s.cache[a].amount, s.cache[a].readAt);
    }
    forall id | id in s.calls && s.calls[id].Fill?
      ensures ReadThen(h + [more], s.calls[id].account, s.calls[id].amount, s.calls[id].readAt)
    {
      ReadThenGrows(h, more, s.calls[id].account, s.calls[id].amount, s.calls[id].readAt);
    }
    forall i | 0 <= i < |s.served| ensures ServedSoundly(h + [more], s.served[i]) {
      assert ServedSoundly(h, s.served[i]);
      ReadThenGrows(h, more, s.served[i].account, s.served[i].amount, s.served[i].readAt);
    }
  }

  lemma {:induction false} ResumeKeepsInv(s: State, id: nat)
    requires Inv(s) && id in s.calls
    ensures Inv(ResumeCall(s, id))
  {
    var repo := Current(s);
    if s.calls[id].Save? {
      InvGrows(s, repo[s.calls[id].account := s.calls[id].amount]);
    } else {
      InvGrows(s, repo);
      assert (s.history + [repo])[|s.history| - 1] == repo;
    }
  }

  lemma {:induction false} NextKeepsInv(s: State, step: Step)
    requires Inv(s)
    ensures Inv(Next(s, step))
  {
    if step.Resume? && step.id in s.calls {
      ResumeKeepsInv(s, step.id);
    } else {
      InvGrows(s, Current(s));
    }
  }

  function RunSteps(s: State, steps: seq<Step>): (end: State)
    requires s.history != []
    ensures end.history != []
    decreases steps
  {
    if steps == [] then s
    else
      assert Next(s, steps[0]).history != [];
      RunSteps(Next(s, steps[0]), steps[1..])
  }

  /**
   * Over every interleaving: each amount `get` returned was the stored balance at the
   * step of the read that filled its entry, and was served less than the lifetime
   * after the entry was set.
   */
  lemma {:induction false} EveryServedAmountWasStored(s: State, steps: seq<Step>)
    requires Inv(s)
    ensures Inv(RunSteps(s, steps))
    ensures forall i | 0 <= i < |RunSteps(s, steps).served| ::
              ServedSoundly(RunSteps(s, steps).history, RunSteps(s, steps).served[i])
    decreases steps
  {
    if steps != [] {
      NextKeepsInv(s, steps[0]);
      EveryServedAmountWasStored(Next(s, steps[0]), steps[1..]);
    }
  }

  /** A `setBalance` call run from start to end with nothing in between. */
  function WholeSet(s: State, id: nat, a: string, amount: int): State
    requires s.history != []
  {
    Next(Next(Next(Next(s, StartSet(id, a, amount)), Resume(id)), Resume(id)), Resume(id))
  }

  lemma {:induction false} WholeSetOutcome(s: State, id: nat, a: string, amount: int)
    requires s.history != [] && id !in s.calls
    ensures
      var end := WholeSet(s, id, a, amount);
      && end.history != [] && Current(end) == Current(s)[a := amount]
      && end.cache == s.cache - {a} && end.calls == s.calls
      && end.now == s.now && end.served == s.served
  {
    var s1 := Next(s, StartSet(id, a, amount));
    assert Current(s1) == Current(s) && s1.calls[id] == ReadForSet(a, amount);
    var s2 := Next(s1, Resume(id));
    assert Current(s2) == Current(s) && s2.calls[id] == Save(a, amount, None);
    var s3 := Next(s2, Resume(id));
    assert Current(s3) == Current(s)[a := amount] && s3.calls[id] == Invalidate(a);
    var s4 := Next(s3, Resume(id));
    assert Current(s4) == Current(s3);
    assert s4.calls == s.calls;
  }

  /**
   * Invalidation does not make `get` current when calls overlap: a read taken before a
   * write and cached after its invalidation is served although the balance has moved on.
   */
  lemma {:induction false} OverlapCanServeStale(a: string, repo: Repo, amount: int)
    requires Stored(repo, a) != amount
    ensures
      var reading := Next(Next(Initial(repo, 0), StartGet(0, a)), Resume(0));
      var written := WholeSet(reading, 1, a, amount);
      var end := Next(Next(written, Resume(0)), StartGet(2, a));
      && |end.served| == 2
      && end.served[1].amount == Stored(repo, a) != Stored(Current(end), a)
  {
    var started := Next(Initial(repo, 0), StartGet(0, a));
    assert Current(started) == repo && started.calls[0] == ReadForGet(a);
    var reading := Next(started, Resume(0));
    assert Current(reading) == repo && reading.calls == map[0 := Fill(a, Stored(repo, a), 1)];
    WholeSetOutcome(reading, 1, a, amount);
    var written := WholeSet(reading, 1, a, amount);
    var filled := Next(written, Resume(0));
    assert Current(filled) == Current(written);
    assert filled.cache[a] == Entry(Stored(repo, a), 1, 0);
    var end := Next(filled, StartGet(2, a));
    assert Current(end) == Current(filled);
  }

  /** The other overlap: a write has been saved and not yet invalidated, and the cached balance is served. */
  lemma {:induction false} GetBeforeInvalidationServesStale(s: State, a: string, id: nat, amount: int)
    requires s.history != [] && id in s.calls && s.calls[id] == Save(a, amount, None)
    requires a in s.cache && Live(s.cache[a], s.now) && s.cache[a].amount != amount
    ensures
      var saved := Next(s, Resume(id));
      var end := Next(saved, StartGet(id + 1, a));
      && |end.served| == |s.served| + 1
      && end.served[|s.served|].amount == s.cache[a].amount != Stored(Current(end), a)
  {
    var saved := Next(s, Resume(id));
    assert Current(saved) == Current(s)[a := amount];
    var end := Next(saved, StartGet(id + 1, a));
    assert Current(end) == Current(saved);
  }

  // ---- when `get` is current -----------------------------------------------

  /** The call that a step resumes saves to the account. */
  predicate Saves(s: State, step: Step, a: string) {
    step.Resume? && step.id in s.calls && s.calls[step.id].Save? && s.calls[step.id].account == a
  }

  /** Calls have ids of their own. */
  predicate FreshId(s: State, step: Step) {
    (step.StartGet? || step.StartCredit? || step.StartSet?) ==> step.id !in s.calls
  }

  /**
   * The step does not overlap calls in the two harmful ways: no save to an account between a
   * get's read and its fill, and no get between a save and its invalidation.
   */
  ghost predicate Separate(s: State, step: Step) {
    && FreshId(s, step)
    && (forall a, id | id in s.calls && Saves(s, step, a) && s.calls[id].Fill? :: s.calls[id].account != a)
    && (step.StartGet? ==> forall id | id in s.calls && s.calls[id].Invalidate? :: s.calls[id].account != step.account)
  }

  ghost predicate PendingInvalidation(s: State, a: string) {
    exists id :: id in s.calls && s.calls[id] == Invalidate(a)
  }

  /** What is cached is current, or is about to be dropped; what is to be filled in is current. */
  ghost predicate UpToDate(s: State) {
    && s.history != []
    && (forall a | a in s.cache :: s.cache[a].amount == Stored(Current(s), a) || PendingInvalidation(s, a))
    && (forall id | id in s.calls && s.calls[id].Fill? :: s.calls[id].amount == Stored(Current(s), s.calls[id].account))
  }

  /** Each amount was the stored balance at the very step it was served. */
  ghost predicate ServedCurrent(s: State) {
    forall i | 0 <= i < |s.served| ::
      s.served[i].step < |s.history| && s.served[i].amount == Stored(s.history[s.served[i].step], s.served[i].account)
  }

  lemma {:induction false} StillPending(s: State, t: State, step: Step, a: string)
    requires s.history != [] && t == Next(s, step) && FreshId(s, step) && PendingInvalidation(s, a)
    requires step.Resume? && step.id in s.calls ==> s.calls[step.id] != Invalidate(a)
    ensures PendingInvalidation(t, a)
  {
    var id :| id in s.calls && s.calls[id] == Invalidate(a);
    assert id in t.calls && t.calls[id] == Invalidate(a);
  }

  lemma {:induction false} SeparateKeepsUpToDate(s: State, step: Step)
    requires UpToDate(s) && Separate(s, step)
    ensures UpToDate(Next(s, step))
  {
    var t := Next(s, step);
    forall a | a in t.cache ensures t.cache[a].amount == Stored(Current(t), a) || PendingInvalidation(t, a) {
      CacheStays(s, step, a);
    }
    hide PendingInvalidation;
    forall id | id in t.calls && t.calls[id].Fill? ensures t.calls[id].amount == Stored(Current(t), t.calls[id].account) {
      if step.Resume? && step.id in s.calls && s.calls[step.id].Save? {
        assert Saves(s, step, s.calls[step.id].account);
      }
    }
  }

  lemma {:induction false} CacheStays(s: State, step: Step, a: string)
    requires UpToDate(s) && Separate(s, step) && a in Next(s, step).cache
    ensures Next(s, step).cache[a].amount == Stored(Current(Next(s, step)), a) || PendingInvalidation(Next(s, step), a)
  {
    var t := Next(s, step);
    if Saves(s, step, a) {
      assert t.calls[step.id] == Invalidate(a);
    } else if a in s.cache && t.cache[a] == s.cache[a] && PendingInvalidation(s, a) {
      StillPending(s, t, step, a);
    }
  }

  lemma {:induction false} SeparateServesCurrent(s: State, step: Step)
    requires UpToDate(s) && Separate(s, step) && ServedCurrent(s)
    ensures ServedCurrent(Next(s, step))
  {
    var t := Next(s, step);
    forall i | 0 <= i < |t.served|
      ensures t.served[i].step < |t.history| && t.served[i].amount == Stored(t.history[t.served[i].step], t.served[i].account)
    {
      if i < |s.served| {
        assert t.history[s.served[i].step] == s.history[s.served[i].step];
      } else {
        assert t.history[|s.history|] == Current(s);
      }
    }
  }

  ghost predicate SeparateRun(s: State, steps: seq<Step>)
    requires s.history != []
    decreases steps
  {
    steps == [] ||
    (assert Next(s, steps[0]).history != []; Separate(s, steps[0]) && SeparateRun(Next(s, steps[0]), steps[1..]))
  }

  /**
   * In every run in which no save to an account falls between a get's read and its fill, nor a
   * get between a save and its invalidation, every amount served is the balance stored at that
   * moment.
   */
  lemma {:induction false} SeparateRunsServeCurrent(s: State, steps: seq<Step>)
    requires UpToDate(s) && ServedCurrent(s) && SeparateRun(s, steps)
    ensures ServedCurrent(RunSteps(s, steps))
    decreases steps
  {
    hide Next, Separate, ServedCurrent;
    if steps != [] {
      SeparateKeepsUpToDate(s, steps[0]);
      SeparateServesCurrent(s, steps[0]);
      SeparateRunsServeCurrent(Next(s, steps[0]), steps[1..]);
    }
  }

  // ---- credits that overlap ------------------------------------------------

  /** The save of a credit adds the credited amount exactly when the balance is still the one it read. */
  lemma {:induction false} CreditAddsIff(s: State, id: nat)
    requires s.history != [] && id in s.calls && s.calls[id].Save? && s.calls[id].read.Some?
    ensures
      var call := s.calls[id];
      var credited := call.amount - call.read.value;
      Stored(Current(Next(s, Resume(id))), call.account) == Stored(Current(s), call.account) + credited
      <==> Stored(Current(s), call.account) == call.read.value
  {
    assert Current(Next(s, Resume(id))) == Current(s)[s.calls[id].account := s.calls[id].amount];
  }

  /** No save to an account between a credit's read and its save. */
  ghost predicate CreditsApart(s: State, step: Step) {
    && FreshId(s, step)
    && (forall a, id | id in s.calls && Saves(s, step, a) && id != step.id && s.calls[id].Save? && s.calls[id].read.Some? ::
          s.calls[id].account != a)
  }

  ghost predicate ReadsHold(s: State) {
    && s.history != []
    && forall id | id in s.calls && s.calls[id].Save? && s.calls[id].read.Some? ::
         s.calls[id].read.value == Stored(Current(s), s.calls[id].account)
  }

  /** What a step credits to the account. */
  function Credited(s: State, step: Step, a: string): int {
    if Saves(s, step, a) && s.calls[step.id].read.Some? then s.calls[step.id].amount - s.calls[step.id].read.value else 0
  }

  function TotalCredited(s: State, steps: seq<Step>, a: string): int
    requires s.history != []
    decreases steps
  {
    if steps == [] then 0
    else
      assert Next(s, steps[0]).history != [];
      Credited(s, steps[0], a) + TotalCredited(Next(s, steps[0]), steps[1..], a)
  }

  ghost predicate ApartRun(s: State, steps: seq<Step>, a: string)
    requires s.history != []
    decreases steps
  {
    steps == [] ||
    (assert Next(s, steps[0]).history != [];
     && CreditsApart(s, steps[0]) && (Saves(s, steps[0], a) ==> s.calls[steps[0].id].read.Some?)
     && ApartRun(Next(s, steps[0]), steps[1..], a))
  }

  lemma {:induction false} ApartKeepsReads(s: State, step: Step)
    requires ReadsHold(s) && CreditsApart(s, step)
    ensures ReadsHold(Next(s, step))
  {
    var t := Next(s, step);
    forall id | id in t.calls && t.calls[id].Save? && t.calls[id].read.Some?
      ensures t.calls[id].read.value == Stored(Current(t), t.calls[id].account)
    {
      if step.Resume? && step.id in s.calls && s.calls[step.id].Save? {
        assert Saves(s, step, s.calls[step.id].account);
      }
    }
  }

  /**
   * In every run whose credits do not overlap in that way, and which sets the account's balance
   * in no other way, the balance grows by exactly what was credited.
   */
  lemma {:induction false} ApartCreditsAddUp(s: State, steps: seq<Step>, a: string)
    requires ReadsHold(s) && ApartRun(s, steps, a)
    ensures Stored(Current(RunSteps(s, steps)), a) == Stored(Current(s), a) + TotalCredited(s, steps, a)
    decreases steps
  {
    if steps != [] {
      ApartKeepsReads(s, steps[0]);
      OneStepCredits(s, steps[0], a);
      hide Next, CreditsApart, Credited, ReadsHold, Saves;
      ApartCreditsAddUp(Next(s, steps[0]), steps[1..], a);
    }
  }

  lemma {:induction false} OneStepCredits(s: State, step: Step, a: string)
    requires ReadsHold(s) && (Saves(s, step, a) ==> s.calls[step.id].read.Some?)
    ensures Stored(Current(Next(s, step)), a) == Stored(Current(s), a) + Credited(s, step, a)
  {
  }

  /** What other saves had made of the balance since the credit read it: its own save wipes that out. */
  function Overwritten(s: State, step: Step, a: string): int
    requires s.history != []
  {
    if Saves(s, step, a) && s.calls[step.id].read.Some? then Stored(Current(s), a) - s.calls[step.id].read.value else 0
  }

  function TotalOverwritten(s: State, steps: seq<Step>, a: string): int
    requires s.history != []
    decreases steps
  {
    if steps == [] then 0
    else
      assert Next(s, steps[0]).history != [];
      Overwritten(s, steps[0], a) + TotalOverwritten(Next(s, steps[0]), steps[1..], a)
  }

  /** The account's balance is saved by credits only. */
  ghost predicate CreditsOnly(s: State, steps: seq<Step>, a: string)
    requires s.history != []
    decreases steps
  {
    steps == [] ||
    (assert Next(s, steps[0]).history != [];
     && (Saves(s, steps[0], a) ==> s.calls[steps[0].id].read.Some?)
     && CreditsOnly(Next(s, steps[0]), steps[1..], a))
  }

  /**
   * However credits overlap, the balance grows by what was credited less what each save
   * overwrote: exactly the credits are kept if and only if that comes to nothing.
   */
  lemma {:induction false} CreditsLessOverwritten(s: State, steps: seq<Step>, a: string)
    requires s.history != [] && CreditsOnly(s, steps, a)
    ensures Stored(Current(RunSteps(s, steps)), a) ==
            Stored(Current(s), a) + TotalCredited(s, steps, a) - TotalOverwritten(s, steps, a)
    decreases steps
  {
    if steps != [] {
      var s' := Next(s, steps[0]);
      assert Stored(Current(s'), a) == Stored(Current(s), a) + Credited(s, steps[0], a) - Overwritten(s, steps[0], a);
      hide Next, Credited, Overwritten, Saves;
      CreditsLessOverwritten(s', steps[1..], a);
    }
  }

  /** Two credits that both read before either saves: one of them is lost. */
  lemma {:induction false} OverlappingCreditsLoseOne(s: State, a: string, i: nat, j: nat, x: int, y: int)
    requires s.history != [] && i != j && i in s.calls && j in s.calls
    requires s.calls[i] == ReadForCredit(a, x) && s.calls[j] == ReadForCredit(a, y)
    ensures
      var end := Next(Next(Next(Next(s, Resume(i)), Resume(j)), Resume(i)), Resume(j));
      Stored(Current(end), a) == Stored(Current(s), a) + y
  {
    var s1 := Next(s, Resume(i));
    assert Current(s1) == Current(s);
    var s2 := Next(s1, Resume(j));
    assert Current(s2) == Current(s);
    var s3 := Next(s2, Resume(i));
    assert s3.calls[j] == Save(a, Stored(Current(s), a) + y, Some(Stored(Current(s), a)));
  }
}
