/** `applyFilters`: a compiled plan added to a query that may already have conditions. */
module FilterQueries {
  import opened Prelude
  import opened Filtering
  import opened FilterPlans

  /** One `andWhere(new Brackets(..))`: parts joined by AND or by OR. */
  datatype Bracket = Bracket(parts: seq<Sql>, joiner: Combination)

  datatype Query = Query(brackets: seq<Bracket>, parameters: Params, order: Option<Sort>)

  function JoinParts(parts: seq<Sql>, joiner: Combination, params: Params, row: Row): Truth
    requires parts != []
  {
    var first := Eval(parts[0], params, row);
    if |parts| == 1 then first
    else
      var rest := JoinParts(parts[1..], joiner, params, row);
      if joiner.AnyOf? then Or(first, rest) else And(first, rest)
  }

  predicate BracketPasses(b: Bracket, params: Params, row: Row) {
    b.parts != [] && JoinParts(b.parts, b.joiner, params, row).True?
  }

  /** A row passes a query when every bracket is TRUE under the query's parameters. */
  predicate Passes(q: Query, row: Row) {
    forall b | b in q.brackets :: BracketPasses(b, q.parameters, row)
  }

  function Sqls(clauses: seq<FilterClause>): seq<Sql> {
    seq(|clauses|, i requires 0 <= i < |clauses| => clauses[i].sql)
  }

  function Filtered(q: Query, plan: FilterPlan): Query {
    Query(
      if plan.clauses == [] then q.brackets else q.brackets + [Bracket(Sqls(plan.clauses), plan.combination)],
      q.parameters + Merge(plan.clauses),
      if plan.sort.Some? then plan.sort else q.order)
  }

  class QueryBuilder {
    var query: Query

    constructor ()
      ensures query == Query([], map[], None)
    {
      query := Query([], map[], None);
    }

    /** A rejected request leaves the builder untouched; a valid one adds its plan. */
    method ApplyFilters(config: Config, request: Request) returns (r: Result<FilterPlan>)
      modifies this
      ensures r.Ok? <==> Valid(config, request)
      ensures r.Ok? ==> query == Filtered(old(query), PlanOf(config, request))
      ensures r.Err? ==> query == old(query)
    {
      r := BuildFilterPlan(config, request);
      if r.Err? {
        return;
      }
      var plan := r.value;
      if plan.clauses != [] {
        var parts := [];
        for index := 0 to |plan.clauses|
          invariant parts == Sqls(plan.clauses[..index])
          invariant query == old(query).(parameters := old(query).parameters + Merge(plan.clauses[..index]))
        {
          var clause := plan.clauses[index];
          parts := parts + [clause.sql];
          MergeAppend(plan.clauses[..index], clause);
          assert plan.clauses[..index + 1] == plan.clauses[..index] + [clause];
          MapJoin(old(query).parameters, Merge(plan.clauses[..index]), clause.parameters);
          query := query.(parameters := query.parameters + clause.parameters);
        }
        assert plan.clauses[..|plan.clauses|] == plan.clauses;
        query := query.(brackets := query.brackets + [Bracket(parts, plan.combination)]);
      } else {
        assert old(query).parameters + map[] == old(query).parameters;
      }
      if plan.sort.Some? {
        query := query.(order := plan.sort);
      }
    }
  }

  lemma {:induction false} MergeAppend(clauses: seq<FilterClause>, c: FilterClause)
    ensures Merge(clauses + [c]) == Merge(clauses) + c.parameters
  {
    if clauses == [] {
      assert clauses + [c] == [c] && [c][1..] == [];
      assert Merge([]) == map[];
    } else {
      MergeAppend(clauses[1..], c);
      assert (clauses + [c])[1..] == clauses[1..] + [c];
      MapJoin(clauses[0].parameters, Merge(clauses[1..]), c.parameters);
    }
  }

  // ---- existing conditions keep their meaning ------------------------------

  /** The parameter names a condition mentions. */
  function Used(sql: Sql): set<string> {
    match sql
    case Compare(a) => {a.param}
    case LowerIn(_, param) => {param}
    case AnyGroup(groups) => set g, a | g in groups && a in g :: a.param
  }

  /** Every parameter a query's conditions mention is bound. */
  ghost predicate Closed(q: Query) {
    forall b, s | b in q.brackets && s in b.parts :: Used(s) <= q.parameters.Keys
  }

  ghost predicate Agree(names: set<string>, p: Params, p': Params) {
    forall n | n in names :: n in p && n in p' && p[n] == p'[n]
  }

  lemma {:induction false} GroupFrame(atoms: seq<Atom>, p: Params, p': Params, row: Row)
    requires forall a | a in atoms :: a.param in p && a.param in p' && p[a.param] == p'[a.param]
    ensures EvalGroup(atoms, p, row) == EvalGroup(atoms, p', row)
  {
    if atoms != [] {
      assert atoms[0] in atoms;
      GroupFrame(atoms[1..], p, p', row);
    }
  }

  lemma {:induction false} GroupsFrame(groups: seq<seq<Atom>>, p: Params, p': Params, row: Row)
    requires forall g, a | g in groups && a in g :: a.param in p && a.param in p' && p[a.param] == p'[a.param]
    ensures EvalGroups(groups, p, row) == EvalGroups(groups, p', row)
  {
    if groups != [] {
      assert groups[0] in groups;
      GroupFrame(groups[0], p, p', row);
      GroupsFrame(groups[1..], p, p', row);
    }
  }

  lemma {:induction false} EvalFrame(sql: Sql, p: Params, p': Params, row: Row)
    requires Agree(Used(sql), p, p')
    ensures Eval(sql, p, row) == Eval(sql, p', row)
  {
    match sql
    case Compare(a) => assert a.param in Used(sql);
    case LowerIn(_, param) => assert param in Used(sql);
    case AnyGroup(groups) =>
      forall g, a | g in groups && a in g
        ensures a.param in p && a.param in p' && p[a.param] == p'[a.param]
      {
        assert a.param in Used(sql);
      }
      GroupsFrame(groups, p, p', row);
  }

  lemma {:induction false} JoinFrame(parts: seq<Sql>, joiner: Combination, p: Params, p': Params, row: Row)
    requires parts != [] && forall s | s in parts :: Agree(Used(s), p, p')
    ensures JoinParts(parts, joiner, p, row) == JoinParts(parts, joiner, p', row)
  {
    assert parts[0] in parts;
    EvalFrame(parts[0], p, p', row);
    if |parts| > 1 {
      JoinFrame(parts[1..], joiner, p, p', row);
    }
  }

  lemma {:induction false} JoinedIsJoinParts(clauses: seq<FilterClause>, joiner: Combination, params: Params, row: Row)
    requires clauses != []
    ensures JoinParts(Sqls(clauses), joiner, params, row) == Joined(clauses, joiner, params, row)
  {
    if |clauses| > 1 {
      JoinedIsJoinParts(clauses[1..], joiner, params, row);
      assert Sqls(clauses)[1..] == Sqls(clauses[1..]);
    }
  }

  lemma {:induction false} OldBracketKept(b: Bracket, p: Params, extra: Params, row: Row)
    requires forall s | s in b.parts :: Used(s) <= p.Keys
    requires p.Keys !! extra.Keys
    ensures BracketPasses(b, p + extra, row) <==> BracketPasses(b, p, row)
  {
    if b.parts != [] {
      forall s | s in b.parts ensures Agree(Used(s), p + extra, p) {
        forall n | n in Used(s) ensures n in p && n in p + extra && (p + extra)[n] == p[n] {
          assert n in p.Keys && n !in extra.Keys;
        }
      }
      JoinFrame(b.parts, b.joiner, p + extra, p, row);
    }
  }

  lemma {:induction false} NewBracketMeans(q: Query, config: Config, request: Request, row: Row)
    requires Valid(config, request) && PlanOf(config, request).clauses != []
    ensures
      var plan := PlanOf(config, request);
      BracketPasses(Bracket(Sqls(plan.clauses), plan.combination), q.parameters + Merge(plan.clauses), row) <==>
      Admits(config, request, row)
  {
    var plan, rs := PlanOf(config, request), Requirements(config, request);
    var params := q.parameters + Merge(plan.clauses);
    hide MatchesAny, MatchesAll, SomeRangeWidened, AsksNothing, Valid;
    RequirementsMeaning(config, request, row);
    JoinedMeaning(rs, 0, plan.combination, params, row);
    JoinedIsJoinParts(plan.clauses, plan.combination, params, row);
  }

  /**
   * After `applyFilters` a row passes exactly when it passed before and the plan of the
   * request admits it, provided the query did not already bind any of the plan's names.
   */
  lemma {:induction false} FilteredQueryMeaning(q: Query, config: Config, request: Request, row: Row)
    requires Valid(config, request) && Closed(q)
    requires q.parameters.Keys !! Merge(PlanOf(config, request).clauses).Keys
    ensures Passes(Filtered(q, PlanOf(config, request)), row) <==> Passes(q, row) && Admits(config, request, row)
    ensures request.combination != Some(AnyOf) || NoTwoSided(request) ==>
              (Passes(Filtered(q, PlanOf(config, request)), row) <==> Passes(q, row) && Matches(config, request, row))
  {
    var plan := PlanOf(config, request);
    var q' := Filtered(q, plan);
    var extra := Merge(plan.clauses);
    forall b | b in q.brackets ensures BracketPasses(b, q'.parameters, row) <==> BracketPasses(b, q.parameters, row) {
      OldBracketKept(b, q.parameters, extra, row);
    }
    if plan.clauses == [] {
      CompilationMeaning(config, request, row);
    } else {
      NewBracketMeans(q, config, request, row);
      var added := Bracket(Sqls(plan.clauses), plan.combination);
      assert forall b :: b in q'.brackets <==> b in q.brackets || b == added;
    }
  }

  lemma {:induction false} NamesMeetIff(k: nat, m: nat, n: nat)
    ensures Names(k, k + m) !! Names(k, k + n) <==> m == 0 || n == 0
  {
    if m == 0 {
      assert Names(k, k + m) == {};
    } else if n == 0 {
      assert Names(k, k + n) == {};
    } else {
      var first := Name(k);
      assert first in Names(k, k + m);
      assert first in Names(k, k + n);
    }
  }

  /**
   * Plans numbered from the same start (0, in every call) bind disjoint names only if
   * one of them binds nothing: filtering one query twice would clash.
   */
  lemma {:induction false} PlansClashIff(a: seq<Requirement>, b: seq<Requirement>, k: nat)
    ensures Merge(CompileAll(a, k)).Keys !! Merge(CompileAll(b, k)).Keys <==> TotalWidth(a) == 0 || TotalWidth(b) == 0
  {
    MergeKeys(a, k);
    MergeKeys(b, k);
    NamesMeetIff(k, TotalWidth(a), TotalWidth(b));
  }

  // ---- the printed SQL is well formed --------------------------------------

  /** An empty group is printed as `()`, which is not SQL. */
  predicate WellFormed(sql: Sql) {
    sql.AnyGroup? ==> sql.groups != [] && forall i | 0 <= i < |sql.groups| :: sql.groups[i] != []
  }

  predicate NoEmptyGroup(r: Requirement) {
    r.SomeStatus? ==> r.groups != [] && forall i | 0 <= i < |r.groups| :: r.groups[i] != []
  }

  lemma {:induction false} GroupsAtomsShape(groups: seq<seq<StatusCondition>>, k: nat)
    ensures |GroupsAtoms(groups, k)| == |groups|
    ensures forall i | 0 <= i < |groups| :: GroupsAtoms(groups, k)[i] == [] <==> groups[i] == []
    decreases groups
  {
    if groups != [] {
      GroupsAtomsShape(groups[1..], k + |groups[0]|);
    }
  }

  lemma {:induction false} CompiledWellFormedIff(rs: seq<Requirement>, k: nat)
    ensures (forall c | c in CompileAll(rs, k) :: WellFormed(c.sql)) <==> forall r | r in rs :: NoEmptyGroup(r)
    decreases rs
  {
    if rs != [] {
      var first, rest := Compile(rs[0], k), CompileAll(rs[1..], k + Width(rs[0]));
      CompiledWellFormedIff(rs[1..], k + Width(rs[0]));
      if rs[0].SomeStatus? {
        GroupsAtomsShape(rs[0].groups, k);
      }
      assert WellFormed(first.sql) <==> NoEmptyGroup(rs[0]);
      assert CompileAll(rs, k) == [first] + rest && rs == [rs[0]] + rs[1..];
    }
  }

  lemma {:induction false} RangesHaveNoStatus(config: Config, es: seq<RangeEntry>, expected: FieldType, r: Requirement)
    requires forall e | e in es :: RangeValid(config, e, expected)
    requires r in RangesRequirements(config, es, expected)
    ensures !r.SomeStatus?
  {
    var init := es[..|es| - 1];
    if r in RangesRequirements(config, init, expected) {
      RangesHaveNoStatus(config, init, expected, r);
    }
  }

  lemma {:induction false} AddressesHaveNoStatus(config: Config, es: seq<AddressEntry>, r: Requirement)
    requires forall e | e in es :: AddressValid(config, e)
    requires r in AddressRequirements(config, es)
    ensures !r.SomeStatus?
  {
    var init := es[..|es| - 1];
    if r in AddressRequirements(config, init) {
      AddressesHaveNoStatus(config, init, r);
    }
  }

  lemma {:induction false} FlagsHaveNoStatus(config: Config, es: seq<FlagEntry>, r: Requirement)
    requires forall e | e in es :: FlagValid(config, e)
    requires r in FlagRequirements(config, es)
    ensures !r.SomeStatus?
  {
    var init := es[..|es| - 1];
    if r in FlagRequirements(config, init) {
      FlagsHaveNoStatus(config, init, r);
    }
  }

  lemma {:induction false} StatusRequirementIsTheOnlyGroup(config: Config, request: Request, r: Requirement)
    requires Valid(config, request) && r in Requirements(config, request)
    ensures r.SomeStatus? ==> r in StatusRequirements(config, NormalizeArray(request.statuses))
  {
    if r in RangesRequirements(config, request.dateRanges, Date) {
      RangesHaveNoStatus(config, request.dateRanges, Date, r);
    } else if r in RangesRequirements(config, request.numericRanges, Number) {
      RangesHaveNoStatus(config, request.numericRanges, Number, r);
    } else if r in AddressRequirements(config, request.addresses) {
      AddressesHaveNoStatus(config, request.addresses, r);
    } else if r in FlagRequirements(config, request.booleans) {
      FlagsHaveNoStatus(config, request.booleans, r);
    }
  }

  /** A plan prints as SQL exactly when every requested status is configured with a condition. */
  lemma {:induction false} PlanWellFormedIff(config: Config, request: Request)
    requires Valid(config, request)
    ensures (forall c | c in PlanOf(config, request).clauses :: WellFormed(c.sql)) <==>
            forall s | s in NormalizeArray(request.statuses) :: config.statuses[s] != []
  {
    var rs, statuses := Requirements(config, request), NormalizeArray(request.statuses);
    var srs := StatusRequirements(config, statuses);
    CompiledWellFormedIff(rs, 0);
    forall r | r in rs && r.SomeStatus? ensures r in srs {
      StatusRequirementIsTheOnlyGroup(config, request, r);
    }
    if statuses != [] {
      var groups := StatusGroups(config, statuses);
      assert srs == [SomeStatus(groups)] && srs[0] in rs;
      assert forall i | 0 <= i < |statuses| :: groups[i] == config.statuses[statuses[i]];
      if NoEmptyGroup(srs[0]) {
        forall s | s in statuses ensures config.statuses[s] != [] {
          var i :| 0 <= i < |statuses| && statuses[i] == s;
          assert groups[i] != [];
        }
      }
    }
  }
}
