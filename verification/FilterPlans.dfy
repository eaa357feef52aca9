/** `buildFilterPlan`, `buildStatusClause` and `applyFilters`, and what a plan selects. */
module FilterPlans {
  import opened Prelude
  import opened Filtering

  // ---- building the plan ---------------------------------------------------

  /** Clauses pushed so far and the next free parameter number. */
  datatype Built = Built(clauses: seq<FilterClause>, index: nat)

  /** `b` extended by the clauses of `rs`, numbered on from where `b` stopped. */
  function Extend(b: Built, rs: seq<Requirement>): Built {
    Built(b.clauses + CompileAll(rs, b.index), b.index + TotalWidth(rs))
  }

  lemma {:induction false} ExtendTwice(b: Built, r: seq<Requirement>, r': seq<Requirement>)
    ensures Extend(Extend(b, r), r') == Extend(b, r + r')
  {
    hide CompileAll, TotalWidth;
    CompileAppend(r, r', b.index);
    WidthAppend(r, r');
  }

  lemma {:induction false} ExtendOne(b: Built, r: Requirement)
    ensures Extend(b, [r]) == Built(b.clauses + [Compile(r, b.index)], b.index + Width(r))
  {
    assert [r][1..] == [];
    assert CompileAll([r], b.index) == [Compile(r, b.index)] + CompileAll([], b.index + Width(r));
    assert TotalWidth([r]) == Width(r) + TotalWidth([]);
  }

  /** `if (bound) clauses.push({ sql: column op :filter_n, parameters })` */
  method PushOne(b: Built, r: Requirement) returns (b': Built)
    requires !r.SomeStatus?
    ensures b' == Extend(b, [r])
  {
    b' := Built(b.clauses + [Compile(r, b.index)], b.index + 1);
    ExtendOne(b, r);
  }

  /** The date loop and the numeric loop: up to two clauses per entry. */
  method AddRangeClauses(config: Config, es: seq<RangeEntry>, expected: FieldType, start: Built)
    returns (r: Result<Built>)
    ensures r.Ok? <==> forall e | e in es :: RangeValid(config, e, expected)
    ensures r.Ok? ==> r.value == Extend(start, RangesRequirements(config, es, expected))
  {
    var b := start;
    for i := 0 to |es|
      invariant forall e | e in es[..i] :: RangeValid(config, e, expected)
      invariant b == Extend(start, RangesRequirements(config, es[..i], expected))
    {
      var e := es[i];
      if !RangeValid(config, e, expected) {
        return Err("Unsupported or malformed range");
      }
      b := AddRange(config, e, expected, b);
      assert es[..i + 1] == es[..i] + [e];
      ExtendTwice(start, RangesRequirements(config, es[..i], expected), RangeRequirements(config, e, expected));
    }
    assert es[..|es|] == es;
    r := Ok(b);
  }

  method AddRange(config: Config, e: RangeEntry, expected: FieldType, start: Built) returns (b: Built)
    requires RangeValid(config, e, expected)
    ensures b == Extend(start, RangeRequirements(config, e, expected))
  {
    var column := config.fields[e.field].column;
    b := start;
    ghost var low := if e.lo.Some? then [LowerBound(column, e.lo.value.v)] else [];
    assert Extend(start, []) == start;
    if e.lo.Some? {
      b := PushOne(b, LowerBound(column, e.lo.value.v));
    }
    if e.hi.Some? {
      ExtendTwice(start, low, [UpperBound(column, e.hi.value.v)]);
      b := PushOne(b, UpperBound(column, e.hi.value.v));
    } else {
      assert low + [] == low;
    }
  }

  method AddAddressClauses(config: Config, es: seq<AddressEntry>, start: Built) returns (r: Result<Built>)
    ensures r.Ok? <==> forall e | e in es :: AddressValid(config, e)
    ensures r.Ok? ==> r.value == Extend(start, AddressRequirements(config, es))
  {
    var b := start;
    for i := 0 to |es|
      invariant forall e | e in es[..i] :: AddressValid(config, e)
      invariant b == Extend(start, AddressRequirements(config, es[..i]))
    {
      var e := es[i];
      if !AddressValid(config, e) {
        return Err("must include a valid address");
      }
      assert es[..i + 1] == es[..i] + [e];
      var req := OneOf(config.fields[e.field].column, Addresses(e));
      ExtendTwice(start, AddressRequirements(config, es[..i]), [req]);
      b := PushOne(b, req);
    }
    assert es[..|es|] == es;
    r := Ok(b);
  }

  method AddFlagClauses(config: Config, es: seq<FlagEntry>, start: Built) returns (r: Result<Built>)
    ensures r.Ok? <==> forall e | e in es :: FlagValid(config, e)
    ensures r.Ok? ==> r.value == Extend(start, FlagRequirements(config, es))
  {
    var b := start;
    for i := 0 to |es|
      invariant forall e | e in es[..i] :: FlagValid(config, e)
      invariant b == Extend(start, FlagRequirements(config, es[..i]))
    {
      var e := es[i];
      if !FlagValid(config, e) {
        return Err("must be true or false");
      }
      assert es[..i + 1] == es[..i] + [e];
      var req := Equals(config.fields[e.field].column, Bool(ParseFlag(e.value).value));
      ExtendTwice(start, FlagRequirements(config, es[..i]), [req]);
      b := PushOne(b, req);
    }
    assert es[..|es|] == es;
    r := Ok(b);
  }

  function StatusGroups(config: Config, statuses: seq<string>): seq<seq<StatusCondition>>
    requires forall s | s in statuses :: s in config.statuses
  {
    seq(|statuses|, i requires 0 <= i < |statuses| => config.statuses[statuses[i]])
  }

  lemma {:induction false} GroupParamsAppend(a: seq<StatusCondition>, c: StatusCondition, k: nat)
    ensures GroupParams(a + [c], k) == GroupParams(a, k)[Name(k + |a|) := Scalar(c.value)]
    decreases a
  {
    hide Name;
    if a == [] {
      assert a + [c] == [c] && [c][1..] == [];
      assert GroupParams([], k + 1) == map[];
    } else {
      GroupParamsAppend(a[1..], c, k + 1);
      assert (a + [c])[1..] == a[1..] + [c];
    }
  }

  lemma {:induction false} GroupsAppend(a: seq<seq<StatusCondition>>, g: seq<StatusCondition>, k: nat)
    ensures GroupsWidth(a + [g]) == GroupsWidth(a) + |g|
    ensures GroupsAtoms(a + [g], k) == GroupsAtoms(a, k) + [GroupAtoms(g, k + GroupsWidth(a))]
    decreases a
  {
    if a == [] {
      assert a + [g] == [g] && [g][1..] == [];
      assert GroupsWidth([]) == 0;
    } else {
      GroupsAppend(a[1..], g, k + |a[0]|);
      assert (a + [g])[1..] == a[1..] + [g];
    }
  }

  lemma {:induction false} MapJoin(x: Params, y: Params, z: Params)
    ensures x + (y + z) == (x + y) + z
  {
  }

  lemma {:induction false} MapUpdate(x: Params, y: Params, n: string, v: Param)
    ensures (x + y)[n := v] == x + y[n := v]
  {
  }

  lemma {:induction false} GroupsParamsAppend(a: seq<seq<StatusCondition>>, g: seq<StatusCondition>, k: nat)
    ensures GroupsParams(a + [g], k) == GroupsParams(a, k) + GroupParams(g, k + GroupsWidth(a))
    decreases a
  {
    hide GroupParams;
    if a == [] {
      assert a + [g] == [g] && [g][1..] == [];
      assert GroupsParams([], k + |g|) == map[];
    } else {
      GroupsParamsAppend(a[1..], g, k + |a[0]|);
      assert (a + [g])[1..] == a[1..] + [g];
      MapJoin(GroupParams(a[0], k), GroupsParams(a[1..], k + |a[0]|), GroupParams(g, k + GroupsWidth(a)));
    }
  }

  /** `conditions.map(..)` for one status: one numbered atom per condition. */
  method BuildGroup(conditions: seq<StatusCondition>, start: nat, bound: Params)
    returns (atoms: seq<Atom>, parameters: Params, index: nat)
    ensures atoms == GroupAtoms(conditions, start)
    ensures parameters == bound + GroupParams(conditions, start)
    ensures index == start + |conditions|
  {
    atoms, parameters, index := [], bound, start;
    for j := 0 to |conditions|
      invariant index == start + j
      invariant atoms == GroupAtoms(conditions[..j], start)
      invariant parameters == bound + GroupParams(conditions[..j], start)
    {
      var c := conditions[j];
      GroupParamsAppend(conditions[..j], c, start);
      MapUpdate(bound, GroupParams(conditions[..j], start), Name(index), Scalar(c.value));
      assert conditions[..j + 1] == conditions[..j] + [c];
      parameters := parameters[Name(index) := Scalar(c.value)];
      atoms := atoms + [Atom(c.field, OpOf(c), Name(index))];
      index := index + 1;
    }
    assert conditions[..|conditions|] == conditions;
  }

  lemma {:induction false} StatusGroupsStep(config: Config, statuses: seq<string>, i: nat, k: nat)
    requires i < |statuses| && forall s | s in statuses[..i + 1] :: s in config.statuses
    ensures forall s | s in statuses[..i] :: s in config.statuses
    ensures statuses[i] in config.statuses
    ensures
      var done, next := StatusGroups(config, statuses[..i]), config.statuses[statuses[i]];
      var after := StatusGroups(config, statuses[..i + 1]);
      && GroupsWidth(after) == GroupsWidth(done) + |next|
      && GroupsAtoms(after, k) == GroupsAtoms(done, k) + [GroupAtoms(next, k + GroupsWidth(done))]
      && GroupsParams(after, k) == GroupsParams(done, k) + GroupParams(next, k + GroupsWidth(done))
  {
    assert statuses[..i + 1] == statuses[..i] + [statuses[i]];
    assert statuses[i] in statuses[..i + 1];
    var done, next := StatusGroups(config, statuses[..i]), config.statuses[statuses[i]];
    assert StatusGroups(config, statuses[..i + 1]) == done + [next];
    GroupsAppend(done, next, k);
    GroupsParamsAppend(done, next, k);
  }

  lemma {:induction false} NoGroups(config: Config, statuses: seq<string>, k: nat)
    ensures
      var none := StatusGroups(config, statuses[..0]);
      GroupsWidth(none) == 0 && GroupsAtoms(none, k) == [] && GroupsParams(none, k) == map[]
  {
  }

  method BuildStatusClause(config: Config, statuses: seq<string>, start: nat) returns (r: Result<FilterClause>)
    ensures r.Ok? <==> forall s | s in statuses :: s in config.statuses
    ensures r.Ok? ==> r.value == Compile(SomeStatus(StatusGroups(config, statuses)), start)
  {
    NoGroups(config, statuses, start);
    hide GroupsAtoms, GroupsParams, GroupsWidth, GroupAtoms, GroupParams, StatusGroups;
    var groups: seq<seq<Atom>>, parameters: Params, index := [], map[], start;
    for i := 0 to |statuses|
      invariant forall s | s in statuses[..i] :: s in config.statuses
      invariant index == start + GroupsWidth(StatusGroups(config, statuses[..i]))
      invariant groups == GroupsAtoms(StatusGroups(config, statuses[..i]), start)
      invariant parameters == GroupsParams(StatusGroups(config, statuses[..i]), start)
    {
      if statuses[i] !in config.statuses {
        return Err("Unsupported status filter");
      }
      var conditions := config.statuses[statuses[i]];
      assert statuses[..i + 1] == statuses[..i] + [statuses[i]];
      StatusGroupsStep(config, statuses, i, start);
      var atoms;
      atoms, parameters, index := BuildGroup(conditions, index, parameters);
      groups := groups + [atoms];
    }
    assert statuses[..|statuses|] == statuses;
    r := Ok(FilterClause(AnyGroup(groups), parameters));
  }

  /** `statuses.reduce((count, s) => count + config.statuses[s].length, 0)` */
  method CountConditions(config: Config, statuses: seq<string>) returns (count: nat)
    requires forall s | s in statuses :: s in config.statuses
    ensures count == GroupsWidth(StatusGroups(config, statuses))
  {
    count := 0;
    for i := 0 to |statuses|
      invariant count == GroupsWidth(StatusGroups(config, statuses[..i]))
    {
      var conditions := config.statuses[statuses[i]];
      assert StatusGroups(config, statuses[..i + 1]) == StatusGroups(config, statuses[..i]) + [conditions];
      GroupsAppend(StatusGroups(config, statuses[..i]), conditions, 0);
      count := count + |conditions|;
    }
    assert statuses[..|statuses|] == statuses;
  }

  method AddStatusClause(config: Config, statuses: seq<string>, start: Built) returns (r: Result<Built>)
    ensures r.Ok? <==> forall s | s in statuses :: s in config.statuses
    ensures r.Ok? ==> r.value == Extend(start, StatusRequirements(config, statuses))
  {
    if statuses == [] {
      return Ok(start);
    }
    var clause := BuildStatusClause(config, statuses, start.index);
    if clause.Err? {
      return Err(clause.error);
    }
    var count := CountConditions(config, statuses);
    ExtendOne(start, SomeStatus(StatusGroups(config, statuses)));
    r := Ok(Built(start.clauses + [clause.value], start.index + count));
  }

  /** The plan a valid request compiles to. */
  function PlanOf(config: Config, request: Request): FilterPlan
    requires Valid(config, request)
  {
    FilterPlan(CompileAll(Requirements(config, request), 0), CombinationOf(request), SortOf(config, request.sort))
  }

  lemma {:induction false} SectionsJoin(a: seq<Requirement>, b: seq<Requirement>, c: seq<Requirement>,
                     d: seq<Requirement>, e: seq<Requirement>)
    ensures Extend(Extend(Extend(Extend(Extend(Built([], 0), a), b), c), d), e).clauses
         == CompileAll(a + b + c + d + e, 0)
  {
    var b0 := Built([], 0);
    ExtendTwice(b0, a, b);
    ExtendTwice(b0, a + b, c);
    ExtendTwice(b0, a + b + c, d);
    ExtendTwice(b0, a + b + c + d, e);
  }

  /** Compiles exactly the valid requests, and to the plan above; rejects every other one. */
  method BuildFilterPlan(config: Config, request: Request) returns (r: Result<FilterPlan>)
    ensures r.Ok? <==> Valid(config, request)
    ensures r.Ok? ==> r.value == PlanOf(config, request)
  {
    var combination := CombinationOf(request);
    if combination.UnsupportedCombination? {
      return Err("Unsupported filter combination");
    }
    var dates := AddRangeClauses(config, request.dateRanges, Date, Built([], 0));
    if dates.Err? {
      return Err(dates.error);
    }
    var statuses := AddStatusClause(config, NormalizeArray(request.statuses), dates.value);
    if statuses.Err? {
      return Err(statuses.error);
    }
    var numbers := AddRangeClauses(config, request.numericRanges, Number, statuses.value);
    if numbers.Err? {
      return Err(numbers.error);
    }
    var addresses := AddAddressClauses(config, request.addresses, numbers.value);
    if addresses.Err? {
      return Err(addresses.error);
    }
    var flags := AddFlagClauses(config, request.booleans, addresses.value);
    if flags.Err? {
      return Err(flags.error);
    }
    if !SortValid(config, request.sort) {
      return Err("Unsupported sort");
    }
    SectionsJoin(RangesRequirements(config, request.dateRanges, Date),
                 StatusRequirements(config, NormalizeArray(request.statuses)),
                 RangesRequirements(config, request.numericRanges, Number),
                 AddressRequirements(config, request.addresses),
                 FlagRequirements(config, request.booleans));
    r := Ok(FilterPlan(flags.value.clauses, combination, SortOf(config, request.sort)));
  }

  // ---- the request's own meaning -------------------------------------------

  function ColumnOf(config: Config, field: string, row: Row): Value
    requires field in config.fields
  {
    Column(row, config.fields[field].column)
  }

  predicate LowMet(config: Config, e: RangeEntry, expected: FieldType, row: Row)
    requires RangeValid(config, e, expected) && e.lo.Some?
  {
    AtLeast(ColumnOf(config, e.field, row), e.lo.value.v)
  }

  predicate HighMet(config: Config, e: RangeEntry, expected: FieldType, row: Row)
    requires RangeValid(config, e, expected) && e.hi.Some?
  {
    AtLeast(e.hi.value.v, ColumnOf(config, e.field, row))
  }

  predicate InRange(config: Config, e: RangeEntry, expected: FieldType, row: Row)
    requires RangeValid(config, e, expected)
  {
    (e.lo.Some? ==> LowMet(config, e, expected, row)) && (e.hi.Some? ==> HighMet(config, e, expected, row))
  }

  /** An entry without bounds asks nothing. */
  predicate Bounded(e: RangeEntry) {
    e.lo.Some? || e.hi.Some?
  }

  predicate TwoSided(e: RangeEntry) {
    e.lo.Some? && e.hi.Some?
  }

  /** Both bounds are given and the row's column holds a value that can be compared with them. */
  predicate Widened(config: Config, e: RangeEntry, expected: FieldType, row: Row)
    requires RangeValid(config, e, expected)
  {
    TwoSided(e) && KindFits(ColumnOf(config, e.field, row), expected)
  }

  /** The column holds one of the listed addresses, letter case aside. */
  predicate AddressMet(config: Config, e: AddressEntry, row: Row)
    requires AddressValid(config, e)
  {
    var v := ColumnOf(config, e.field, row);
    v.Text? && exists a | a in NormalizeArray(e.values) :: SameLetters(a, v.s)
  }

  /** A flag asks for true as a boolean or as the text "true", and for false likewise. */
  predicate Asks(v: FlagInput, b: bool) {
    v == Flag(b) || v == FlagText(if b then "true" else "false")
  }

  predicate FlagMet(config: Config, e: FlagEntry, row: Row)
    requires FlagValid(config, e)
  {
    var v := ColumnOf(config, e.field, row);
    v.Bool? && Asks(e.value, v.b)
  }

  predicate StatusMet(config: Config, request: Request, row: Row)
    requires StatusesValid(config, request)
  {
    exists s | s in NormalizeArray(request.statuses) :: GroupHolds(config.statuses[s], row)
  }

  predicate MatchesAll(config: Config, request: Request, row: Row)
    requires Valid(config, request)
  {
    && (forall e | e in request.dateRanges :: InRange(config, e, Date, row))
    && (NormalizeArray(request.statuses) != [] ==> StatusMet(config, request, row))
    && (forall e | e in request.numericRanges :: InRange(config, e, Number, row))
    && (forall e | e in request.addresses :: AddressMet(config, e, row))
    && (forall e | e in request.booleans :: FlagMet(config, e, row))
  }

  predicate MatchesAny(config: Config, request: Request, row: Row)
    requires Valid(config, request)
  {
    || (exists e | e in request.dateRanges :: Bounded(e) && InRange(config, e, Date, row))
    || StatusMet(config, request, row)
    || (exists e | e in request.numericRanges :: Bounded(e) && InRange(config, e, Number, row))
    || (exists e | e in request.addresses :: AddressMet(config, e, row))
    || (exists e | e in request.booleans :: FlagMet(config, e, row))
  }

  /** A request that asks nothing of a row (entries without bounds ask nothing). */
  predicate AsksNothing(request: Request) {
    && (forall e | e in request.dateRanges :: !Bounded(e))
    && NormalizeArray(request.statuses) == []
    && (forall e | e in request.numericRanges :: !Bounded(e))
    && request.addresses == []
    && request.booleans == []
  }

  predicate Matches(config: Config, request: Request, row: Row)
    requires Valid(config, request)
  {
    AsksNothing(request) ||
    match request.combination
    case Some(AnyOf) => MatchesAny(config, request, row)
    case _ => MatchesAll(config, request, row)
  }

  /** Some range of the request carries both bounds, and the row's column is comparable with them. */
  predicate SomeRangeWidened(config: Config, request: Request, row: Row)
    requires Valid(config, request)
  {
    || (exists e | e in request.dateRanges :: Widened(config, e, Date, row))
    || (exists e | e in request.numericRanges :: Widened(config, e, Number, row))
  }

  /** What the compiled plan selects: under OR, the two bounds of a range are alternatives. */
  predicate Admits(config: Config, request: Request, row: Row)
    requires Valid(config, request)
  {
    Matches(config, request, row) || (request.combination == Some(AnyOf) && SomeRangeWidened(config, request, row))
  }

  // ---- requirements say the same thing -------------------------------------

  predicate AllHold(rs: seq<Requirement>, row: Row) {
    forall r | r in rs :: Holds(r, row)
  }

  predicate SomeHolds(rs: seq<Requirement>, row: Row) {
    exists r | r in rs :: Holds(r, row)
  }

  lemma {:induction false} HoldAppend(a: seq<Requirement>, b: seq<Requirement>, row: Row)
    ensures AllHold(a + b, row) <==> AllHold(a, row) && AllHold(b, row)
    ensures SomeHolds(a + b, row) <==> SomeHolds(a, row) || SomeHolds(b, row)
  {
    assert forall r :: r in a + b <==> r in a || r in b;
  }

  lemma {:induction false} RangeMeaning(config: Config, e: RangeEntry, expected: FieldType, row: Row)
    requires RangeValid(config, e, expected)
    ensures AllHold(RangeRequirements(config, e, expected), row) <==> InRange(config, e, expected, row)
    ensures SomeHolds(RangeRequirements(config, e, expected), row) <==>
            (Bounded(e) && InRange(config, e, expected, row)) || Widened(config, e, expected, row)
    ensures RangeRequirements(config, e, expected) == [] <==> !Bounded(e)
  {
    var column := config.fields[e.field].column;
    var low := if e.lo.Some? then [LowerBound(column, e.lo.value.v)] else [];
    var high := if e.hi.Some? then [UpperBound(column, e.hi.value.v)] else [];
    HoldAppend(low, high, row);
    if e.lo.Some? {
      HoldOne(low[0], row);
    }
    if e.hi.Some? {
      HoldOne(high[0], row);
    }
  }

  lemma {:induction false} HoldOne(r: Requirement, row: Row)
    ensures AllHold([r], row) <==> Holds(r, row)
    ensures SomeHolds([r], row) <==> Holds(r, row)
  {
    assert r in [r];
  }

  lemma {:induction false} RangesMeaning(config: Config, es: seq<RangeEntry>, expected: FieldType, row: Row)
    requires forall e | e in es :: RangeValid(config, e, expected)
    ensures AllHold(RangesRequirements(config, es, expected), row) <==>
            forall e | e in es :: InRange(config, e, expected, row)
    ensures SomeHolds(RangesRequirements(config, es, expected), row) <==>
            || (exists e | e in es :: Bounded(e) && InRange(config, e, expected, row))
            || (exists e | e in es :: Widened(config, e, expected, row))
    ensures RangesRequirements(config, es, expected) == [] <==> forall e | e in es :: !Bounded(e)
  {
    if es != [] {
      var init, last := es[..|es| - 1], es[|es| - 1];
      assert es == init + [last];
      RangesMeaning(config, init, expected, row);
      RangeMeaning(config, last, expected, row);
      HoldAppend(RangesRequirements(config, init, expected), RangeRequirements(config, last, expected), row);
      assert forall e :: e in es <==> e in init || e == last;
    }
  }

  lemma {:induction false} StatusMeaning(config: Config, request: Request, row: Row)
    requires StatusesValid(config, request)
    ensures
      var rs := StatusRequirements(config, NormalizeArray(request.statuses));
      && (AllHold(rs, row) <==> NormalizeArray(request.statuses) == [] || StatusMet(config, request, row))
      && (SomeHolds(rs, row) <==> StatusMet(config, request, row))
      && (rs == [] <==> NormalizeArray(request.statuses) == [])
  {
    var statuses := NormalizeArray(request.statuses);
    var rs := StatusRequirements(config, statuses);
    if statuses != [] {
      var groups := StatusGroups(config, statuses);
      assert rs == [SomeStatus(groups)];
      if StatusMet(config, request, row) {
        var s :| s in statuses && GroupHolds(config.statuses[s], row);
        var i :| 0 <= i < |statuses| && statuses[i] == s;
        assert groups[i] in groups;
      }
      if Holds(rs[0], row) {
        var g :| g in groups && GroupHolds(g, row);
        var i :| 0 <= i < |groups| && groups[i] == g;
        assert statuses[i] in statuses;
      }
    }
  }

  lemma {:induction false} AddressMeaning(config: Config, e: AddressEntry, row: Row)
    requires AddressValid(config, e)
    ensures Holds(OneOf(config.fields[e.field].column, Addresses(e)), row) <==> AddressMet(config, e, row)
  {
    var listed, v := NormalizeArray(e.values), ColumnOf(config, e.field, row);
    forall i | 0 <= i < |listed| ensures Addresses(e)[i] == Lower(listed[i]) {
      NormalizedAreListed(e.values, listed[i]);
    }
    if v.Text? && Lower(v.s) in Addresses(e) {
      var i :| 0 <= i < |listed| && Addresses(e)[i] == Lower(v.s);
      LowerForgetsCase(listed[i], v.s);
      assert listed[i] in listed;
    }
    if AddressMet(config, e, row) {
      var a :| a in listed && SameLetters(a, v.s);
      LowerForgetsCase(a, v.s);
      var i :| 0 <= i < |listed| && listed[i] == a;
      assert Addresses(e)[i] == Lower(v.s);
    }
  }

  lemma {:induction false} AddressesMeaning(config: Config, es: seq<AddressEntry>, row: Row)
    requires forall e | e in es :: AddressValid(config, e)
    ensures AllHold(AddressRequirements(config, es), row) <==> forall e | e in es :: AddressMet(config, e, row)
    ensures SomeHolds(AddressRequirements(config, es), row) <==> exists e | e in es :: AddressMet(config, e, row)
    ensures |AddressRequirements(config, es)| == |es|
  {
    if es != [] {
      var init, last := es[..|es| - 1], es[|es| - 1];
      assert es == init + [last];
      AddressesMeaning(config, init, row);
      AddressMeaning(config, last, row);
      var r := OneOf(config.fields[last.field].column, Addresses(last));
      HoldOne(r, row);
      HoldAppend(AddressRequirements(config, init), [r], row);
      assert forall e :: e in es <==> e in init || e == last;
    }
  }

  lemma {:induction false} FlagsMeaning(config: Config, es: seq<FlagEntry>, row: Row)
    requires forall e | e in es :: FlagValid(config, e)
    ensures AllHold(FlagRequirements(config, es), row) <==> forall e | e in es :: FlagMet(config, e, row)
    ensures SomeHolds(FlagRequirements(config, es), row) <==> exists e | e in es :: FlagMet(config, e, row)
    ensures |FlagRequirements(config, es)| == |es|
  {
    if es != [] {
      var init, last := es[..|es| - 1], es[|es| - 1];
      assert es == init + [last];
      FlagsMeaning(config, init, row);
      assert last in es && FlagValid(config, last);
      var r := Equals(config.fields[last.field].column, Bool(ParseFlag(last.value).value));
      HoldOne(r, row);
      HoldAppend(FlagRequirements(config, init), [r], row);
      assert forall e :: e in es <==> e in init || e == last;
    }
  }

  lemma {:induction false} RequirementsMeaning(config: Config, request: Request, row: Row)
    requires Valid(config, request)
    ensures AllHold(Requirements(config, request), row) <==> MatchesAll(config, request, row)
    ensures SomeHolds(Requirements(config, request), row) <==>
            MatchesAny(config, request, row) || SomeRangeWidened(config, request, row)
    ensures Requirements(config, request) == [] <==> AsksNothing(request)
  {
    hide AllHold, SomeHolds, RangesRequirements, StatusRequirements, AddressRequirements, FlagRequirements, NormalizeArray;
    var a := RangesRequirements(config, request.dateRanges, Date);
    var b := StatusRequirements(config, NormalizeArray(request.statuses));
    var c := RangesRequirements(config, request.numericRanges, Number);
    var d := AddressRequirements(config, request.addresses);
    var e := FlagRequirements(config, request.booleans);
    RangesMeaning(config, request.dateRanges, Date, row);
    StatusMeaning(config, request, row);
    RangesMeaning(config, request.numericRanges, Number, row);
    AddressesMeaning(config, request.addresses, row);
    FlagsMeaning(config, request.booleans, row);
    HoldSections(a, b, c, d, e, row);
  }

  lemma {:induction false} HoldSections(a: seq<Requirement>, b: seq<Requirement>, c: seq<Requirement>,
                     d: seq<Requirement>, e: seq<Requirement>, row: Row)
    ensures AllHold(a + b + c + d + e, row) <==>
            AllHold(a, row) && AllHold(b, row) && AllHold(c, row) && AllHold(d, row) && AllHold(e, row)
    ensures SomeHolds(a + b + c + d + e, row) <==>
            SomeHolds(a, row) || SomeHolds(b, row) || SomeHolds(c, row) || SomeHolds(d, row) || SomeHolds(e, row)
    ensures a + b + c + d + e == [] <==> a == [] && b == [] && c == [] && d == [] && e == []
  {
    HoldAppend(a, b, row);
    HoldAppend(a + b, c, row);
    HoldAppend(a + b + c, d, row);
    HoldAppend(a + b + c + d, e, row);
  }

  /**
   * A row is selected by the compiled plan exactly when it matches the request or, under
   * OR, some range with both bounds has a comparable value in the row.
   */
  lemma {:induction false} CompilationMeaning(config: Config, request: Request, row: Row)
    requires Valid(config, request)
    ensures Selected(PlanOf(config, request), row) <==> Admits(config, request, row)
  {
    hide MatchesAny, MatchesAll, SomeRangeWidened, AsksNothing, Valid;
    var rs := Requirements(config, request);
    RequirementsMeaning(config, request, row);
    if rs == [] {
      NothingIsWidened(config, request, row);
    } else {
      JoinedMeaning(rs, 0, CombinationOf(request), Merge(CompileAll(rs, 0)), row);
    }
  }

  lemma {:induction false} NothingIsWidened(config: Config, request: Request, row: Row)
    requires Valid(config, request)
    ensures AsksNothing(request) ==> !SomeRangeWidened(config, request, row)
  {
  }

  /** Neither list of ranges has an entry with both bounds. */
  predicate NoTwoSided(request: Request) {
    (forall e | e in request.dateRanges :: !TwoSided(e)) && (forall e | e in request.numericRanges :: !TwoSided(e))
  }

  /** Under AND, or when no range carries both bounds, the plan selects exactly the matching rows. */
  lemma {:induction false} CompilationPreservesMeaning(config: Config, request: Request, row: Row)
    requires Valid(config, request)
    requires request.combination == Some(AnyOf) ==> NoTwoSided(request)
    ensures Selected(PlanOf(config, request), row) <==> Matches(config, request, row)
  {
    CompilationMeaning(config, request, row);
    if request.combination == Some(AnyOf) {
      assert !SomeRangeWidened(config, request, row);
    }
  }

  /** A request that names no combination selects exactly the rows that meet all its parts. */
  lemma {:induction false} NoCombinationMeansAll(config: Config, request: Request, row: Row)
    requires Valid(config, request) && request.combination == None
    ensures Selected(PlanOf(config, request), row) <==> MatchesAll(config, request, row)
  {
    CompilationPreservesMeaning(config, request, row);
    hide Selected, PlanOf, Valid;
    if AsksNothing(request) {
      assert MatchesAll(config, request, row);
    }
  }

  lemma {:induction false} LoneRangeIsValid(config: Config, e: RangeEntry)
    requires RangeValid(config, e, Number)
    ensures Valid(config, Request([], [], [e], [], [], Some(AnyOf), None))
  {
  }

  /**
   * One two-sided range under OR: every row whose column can be compared is selected, so
   * the plan differs from the request on exactly the rows outside the range.
   */
  lemma {:induction false} LoneRangeUnderOr(config: Config, e: RangeEntry, row: Row)
    requires RangeValid(config, e, Number) && TwoSided(e)
    ensures
      var request := Request([], [], [e], [], [], Some(AnyOf), None);
      && Valid(config, request)
      && (Selected(PlanOf(config, request), row) <==> KindFits(ColumnOf(config, e.field, row), Number))
      && (Matches(config, request, row) <==> InRange(config, e, Number, row))
  {
    var request := Request([], [], [e], [], [], Some(AnyOf), None);
    LoneRangeIsValid(config, e);
    hide Selected, PlanOf, Valid, RangeValid, LowMet, HighMet, ColumnOf, KindFits, GroupHolds;
    CompilationMeaning(config, request, row);
    assert e in request.numericRanges && Bounded(e);
    assert Widened(config, e, Number, row) <==> KindFits(ColumnOf(config, e.field, row), Number);
  }

  /** The range 1 to 2 under OR selects a row that holds 3. */
  lemma {:induction false} RangeUnderOrSelectsOutside() returns (config: Config, request: Request, row: Row)
    ensures Valid(config, request) && Selected(PlanOf(config, request), row) && !Matches(config, request, row)
  {
    config := Config(map["fee" := FieldConfig("e.fee", Number, None)], map[]);
    var e := RangeEntry("fee", Some(Parsed(Num(1.0))), Some(Parsed(Num(2.0))));
    request := Request([], [], [e], [], [], Some(AnyOf), None);
    row := map["e.fee" := Num(3.0)];
    LoneRangeUnderOr(config, e, row);
    hide Selected, PlanOf, Matches, Valid;
  }
}
