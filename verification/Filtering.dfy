/**
 * `FilteringService`: a filter request compiled into SQL clauses whose numbered
 * parameters share one namespace. SQL text is kept as a syntax tree; a row passes
 * when the three-valued condition is TRUE, as in a WHERE clause.
 */
module Filtering {
  import opened Prelude
  import Decimal

  // ---- SQL: values, conditions, evaluation ---------------------------------

  datatype Value = Null | Bool(b: bool) | Num(x: real) | Instant(ms: int) | Text(s: string)

  type Row = map<string, Value>

  function Column(row: Row, column: string): Value {
    if column in row then row[column] else Null
  }

  datatype Op = Ge | Le | Eq | Ne | Is | IsNot

  /** `column op :param` */
  datatype Atom = Atom(column: string, op: Op, param: string)

  datatype Sql =
    | Compare(atom: Atom)
    | LowerIn(column: string, param: string)
    | AnyGroup(groups: seq<seq<Atom>>)

  datatype Param = Scalar(v: Value) | Items(items: seq<string>)

  type Params = map<string, Param>

  datatype Truth = True | False | Unknown

  function Of(b: bool): Truth {
    if b then True else False
  }

  function And(a: Truth, b: Truth): Truth {
    if a.False? || b.False? then False else if a.True? && b.True? then True else Unknown
  }

  function Or(a: Truth, b: Truth): Truth {
    if a.True? || b.True? then True else if a.False? && b.False? then False else Unknown
  }

  predicate AtLeast(v: Value, bound: Value) {
    (v.Num? && bound.Num? && v.x >= bound.x) || (v.Instant? && bound.Instant? && v.ms >= bound.ms)
  }

  /** SQL comparison: NULL on either side gives UNKNOWN, except under IS and IS NOT. */
  function Comparison(op: Op, v: Value, p: Value): Truth {
    match op
    case Is => Of(v == p)
    case IsNot => Of(v != p)
    case _ =>
      if v.Null? || p.Null? then Unknown
      else
        match op
        case Ge => Of(AtLeast(v, p))
        case Le => Of(AtLeast(p, v))
        case Eq => Of(v == p)
        case _ => Of(v != p)
  }

  function EvalAtom(a: Atom, params: Params, row: Row): Truth {
    if a.param in params && params[a.param].Scalar? then Comparison(a.op, Column(row, a.column), params[a.param].v)
    else Unknown
  }

  function EvalGroup(atoms: seq<Atom>, params: Params, row: Row): Truth {
    if atoms == [] then True else And(EvalAtom(atoms[0], params, row), EvalGroup(atoms[1..], params, row))
  }

  function EvalGroups(groups: seq<seq<Atom>>, params: Params, row: Row): Truth {
    if groups == [] then False else Or(EvalGroup(groups[0], params, row), EvalGroups(groups[1..], params, row))
  }

  function Eval(sql: Sql, params: Params, row: Row): Truth {
    match sql
    case Compare(a) => EvalAtom(a, params, row)
    case LowerIn(column, param) =>
      if param in params && params[param].Items? then
        match Column(row, column)
        case Text(s) => Of(Lower(s) in params[param].items)
        case Null => Unknown
        case _ => False
      else Unknown
    case AnyGroup(groups) => EvalGroups(groups, params, row)
  }

  // ---- text helpers --------------------------------------------------------

  function LowerChar(c: char): char {
    if 'A' <= c <= 'Z' then (c as int + 32) as char else c
  }

  function Lower(s: string): string {
    seq(|s|, i requires 0 <= i < |s| => LowerChar(s[i]))
  }

  predicate IsSpace(c: char) {
    c in {' ', '\t', '\n', '\r'} || c as int in {0x0B, 0x0C, 0xA0, 0xFEFF}
  }

  function TrimLeft(s: string): (r: string)
    ensures |r| <= |s| && (r != "" ==> !IsSpace(r[0]))
    ensures forall c | c in r :: c in s
  {
    if s != "" && IsSpace(s[0]) then TrimLeft(s[1..]) else s
  }

  function TrimRight(s: string): (r: string)
    ensures r <= s && (r != "" ==> !IsSpace(r[|r| - 1]))
  {
    if s != "" && IsSpace(s[|s| - 1]) then TrimRight(s[..|s| - 1]) else s
  }

  function Trim(s: string): string {
    TrimRight(TrimLeft(s))
  }

  /** `s.split(',')` */
  function Split(s: string): (parts: seq<string>)
    ensures parts != []
  {
    if s == "" then [""]
    else if s[0] == ',' then [""] + Split(s[1..])
    else
      var rest := Split(s[1..]);
      [[s[0]] + rest[0]] + rest[1..]
  }

  function Kept(parts: seq<string>): seq<string> {
    if parts == [] then []
    else (if Trim(parts[0]) != "" then [Trim(parts[0])] else []) + Kept(parts[1..])
  }

  /** `values.flatMap(item => item.split(',').map(trim).filter(Boolean))` */
  function NormalizeArray(values: seq<string>): seq<string> {
    if values == [] then [] else Kept(Split(values[0])) + NormalizeArray(values[1..])
  }

  /** A listed value: no commas, no surrounding blanks, not empty. */
  predicate IsListed(p: string) {
    p != "" && ',' !in p && Trim(p) == p
  }

  lemma {:induction false} SplitHasNoCommas(s: string, i: nat)
    requires i < |Split(s)|
    ensures ',' !in Split(s)[i]
  {
    if s != "" {
      if s[0] == ',' {
        if i > 0 {
          SplitHasNoCommas(s[1..], i - 1);
        }
      } else {
        SplitHasNoCommas(s[1..], i);
      }
    }
  }

  lemma {:induction false} TrimIsStable(s: string)
    ensures Trim(Trim(s)) == Trim(s)
    ensures forall c | c in Trim(s) :: c in s
  {
    var left := TrimLeft(s);
    var r := TrimRight(left);
    if r != "" {
      assert r[0] == left[0];
    }
  }

  lemma {:induction false} KeptAreListed(parts: seq<string>, p: string)
    requires forall q | q in parts :: ',' !in q
    requires p in Kept(parts)
    ensures IsListed(p)
  {
    TrimIsStable(parts[0]);
    assert parts[0] in parts;
    if p in Kept(parts[1..]) {
      KeptAreListed(parts[1..], p);
    }
  }

  lemma {:induction false} NormalizedAreListed(values: seq<string>, p: string)
    requires p in NormalizeArray(values)
    ensures IsListed(p)
  {
    var parts := Split(values[0]);
    if p in Kept(parts) {
      forall q | q in parts ensures ',' !in q {
        var i :| 0 <= i < |parts| && parts[i] == q;
        SplitHasNoCommas(values[0], i);
      }
      KeptAreListed(parts, p);
    } else {
      NormalizedAreListed(values[1..], p);
    }
  }

  // ---- what the text helpers keep --------------------------------------------

  function JoinCommas(parts: seq<string>): string {
    if parts == [] then "" else if |parts| == 1 then parts[0] else parts[0] + "," + JoinCommas(parts[1..])
  }

  /** Splitting loses nothing: the parts, none of which holds a comma, join to the text again. */
  lemma {:induction false} SplitJoins(s: string)
    ensures JoinCommas(Split(s)) == s
    ensures forall i | 0 <= i < |Split(s)| :: ',' !in Split(s)[i]
  {
    forall i | 0 <= i < |Split(s)| ensures ',' !in Split(s)[i] {
      SplitHasNoCommas(s, i);
    }
    if s != "" {
      SplitJoins(s[1..]);
      var rest := Split(s[1..]);
      if s[0] == ',' {
        assert ([""] + rest)[1..] == rest;
      } else {
        assert ([[s[0]] + rest[0]] + rest[1..])[1..] == rest[1..];
      }
      assert s == [s[0]] + s[1..];
    }
  }

  predicate AllSpaces(s: string) {
    forall i | 0 <= i < |s| :: IsSpace(s[i])
  }

  lemma {:induction false} TrimLeftCuts(s: string) returns (a: string)
    ensures AllSpaces(a) && s == a + TrimLeft(s)
  {
    if s != "" && IsSpace(s[0]) {
      var b := TrimLeftCuts(s[1..]);
      a := [s[0]] + b;
      assert s == [s[0]] + s[1..];
    } else {
      a := "";
    }
  }

  lemma {:induction false} TrimRightCuts(s: string) returns (b: string)
    ensures AllSpaces(b) && s == TrimRight(s) + b
  {
    if s != "" && IsSpace(s[|s| - 1]) {
      var c := TrimRightCuts(s[..|s| - 1]);
      b := c + [s[|s| - 1]];
      assert s == s[..|s| - 1] + [s[|s| - 1]];
    } else {
      b := "";
    }
  }

  /** Trimming cuts off blanks, all of those at both ends, and nothing else. */
  lemma {:induction false} TrimCutsBlanks(s: string) returns (a: string, b: string)
    ensures s == a + Trim(s) + b && AllSpaces(a) && AllSpaces(b)
    ensures Trim(s) != "" ==> !IsSpace(Trim(s)[0]) && !IsSpace(Trim(s)[|Trim(s)| - 1])
    ensures Trim(s) == "" <==> AllSpaces(s)
  {
    a := TrimLeftCuts(s);
    b := TrimRightCuts(TrimLeft(s));
    var t := Trim(s);
    assert s == a + (t + b) == a + t + b;
    if t != "" {
      assert t[0] == TrimLeft(s)[0];
      assert s[|a|] == t[0];
    }
  }

  /** All comma-separated parts of all values, in order. */
  function AllParts(values: seq<string>): seq<string> {
    if values == [] then [] else Split(values[0]) + AllParts(values[1..])
  }

  lemma {:induction false} KeptAppend(a: seq<string>, b: seq<string>)
    ensures Kept(a + b) == Kept(a) + Kept(b)
  {
    hide Trim;
    if a == [] {
      assert a + b == b;
    } else {
      KeptAppend(a[1..], b);
      assert (a + b)[1..] == a[1..] + b && (a + b)[0] == a[0];
      Associate(if Trim(a[0]) != "" then [Trim(a[0])] else [], Kept(a[1..]), Kept(b));
    }
  }

  lemma {:induction false} NormalizeKeepsParts(values: seq<string>)
    ensures NormalizeArray(values) == Kept(AllParts(values))
  {
    hide Kept, Split;
    if values == [] {
      NoParts();
    } else {
      NormalizeKeepsParts(values[1..]);
      KeptAppend(Split(values[0]), AllParts(values[1..]));
    }
  }

  lemma {:induction false} NoParts()
    ensures Kept([]) == []
  {
  }

  /**
   * Every part of every value that is not blank is kept, trimmed and in its place: behind as
   * many kept values as there are parts before it that are not blank. Nothing else is kept.
   */
  lemma {:induction false} NormalizeKeepsInOrder(values: seq<string>, j: nat)
    requires j < |AllParts(values)|
    ensures
      var parts := AllParts(values);
      var k := |Kept(parts[..j])|;
      && (Trim(parts[j]) != "" ==> k < |NormalizeArray(values)| && NormalizeArray(values)[k] == Trim(parts[j]))
      && |Kept(parts[..j + 1])| == k + (if Trim(parts[j]) != "" then 1 else 0)
      && |NormalizeArray(values)| == |Kept(parts[..|parts|])|
  {
    var parts := AllParts(values);
    NormalizeKeepsParts(values);
    assert parts[..|parts|] == parts;
    assert parts == parts[..j] + parts[j..] && parts[..j + 1] == parts[..j] + [parts[j]];
    KeptAppend(parts[..j], parts[j..]);
    KeptAppend(parts[..j], [parts[j]]);
    hide Trim, AllParts, NormalizeArray;
    KeptHead(parts[j..]);
    KeptHead([parts[j]]);
    NoParts();
    assert [parts[j]][1..] == [];
  }

  lemma {:induction false} KeptHead(parts: seq<string>)
    requires parts != []
    ensures Kept(parts) == (if Trim(parts[0]) != "" then [Trim(parts[0])] else []) + Kept(parts[1..])
  {
  }

  /** The two letters are the same but for their case. */
  predicate SameLetter(x: char, y: char) {
    || x == y
    || ('A' <= x <= 'Z' && y as int == x as int + 32)
    || ('A' <= y <= 'Z' && x as int == y as int + 32)
  }

  predicate SameLetters(a: string, b: string) {
    |a| == |b| && forall i | 0 <= i < |a| :: SameLetter(a[i], b[i])
  }

  /** Lower-casing forgets case and nothing else. */
  lemma {:induction false} LowerForgetsCase(a: string, b: string)
    ensures Lower(a) == Lower(b) <==> SameLetters(a, b)
  {
    if Lower(a) == Lower(b) {
      forall i | 0 <= i < |a| ensures |a| == |b| && SameLetter(a[i], b[i]) {
        assert Lower(a)[i] == Lower(b)[i];
      }
      assert |Lower(a)| == |Lower(b)|;
    }
  }

  // ---- configuration and request -------------------------------------------

  datatype FieldType = Address | Boolean | Date | Number

  datatype FieldConfig = FieldConfig(column: string, fieldType: FieldType, sortable: Option<bool>)

  datatype StatusCondition = StatusCondition(field: string, value: Value, op: Option<Op>)

  datatype Config = Config(fields: map<string, FieldConfig>, statuses: map<string, seq<StatusCondition>>)

  /** A supplied bound after `new Date(..)` or `Number(..)`. */
  datatype Bound = Parsed(v: Value) | Unparsable

  datatype RangeEntry = RangeEntry(field: string, lo: Option<Bound>, hi: Option<Bound>)

  datatype AddressEntry = AddressEntry(field: string, values: seq<string>)

  datatype FlagInput = Flag(b: bool) | FlagText(s: string)

  datatype FlagEntry = FlagEntry(field: string, value: FlagInput)

  datatype Combination = AllOf | AnyOf | UnsupportedCombination(text: string)

  datatype SortRequest = SortRequest(field: string, direction: Option<string>)

  datatype Request = Request(
    dateRanges: seq<RangeEntry>,
    statuses: seq<string>,
    numericRanges: seq<RangeEntry>,
    addresses: seq<AddressEntry>,
    booleans: seq<FlagEntry>,
    combination: Option<Combination>,
    sort: Option<SortRequest>)

  datatype FilterClause = FilterClause(sql: Sql, parameters: Params)

  datatype Sort = Sort(column: string, direction: string)

  datatype FilterPlan = FilterPlan(clauses: seq<FilterClause>, combination: Combination, sort: Option<Sort>)

  function CombinationOf(request: Request): Combination {
    if request.combination.Some? then request.combination.value else AllOf
  }

  predicate HasField(config: Config, field: string, expected: FieldType) {
    field in config.fields && config.fields[field].fieldType == expected
  }

  /** The date loop parses to instants, the number loop to numbers. */
  predicate KindFits(v: Value, expected: FieldType) {
    if expected.Date? then v.Instant? else v.Num?
  }

  predicate BoundValid(b: Option<Bound>, expected: FieldType) {
    b.Some? ==> b.value.Parsed? && KindFits(b.value.v, expected)
  }

  /** `from > to` */
  predicate Crossed(lo: Option<Bound>, hi: Option<Bound>) {
    lo.Some? && hi.Some? && lo.value.Parsed? && hi.value.Parsed? &&
    AtLeast(lo.value.v, hi.value.v) && lo.value.v != hi.value.v
  }

  predicate RangeValid(config: Config, e: RangeEntry, expected: FieldType) {
    HasField(config, e.field, expected) && BoundValid(e.lo, expected) && BoundValid(e.hi, expected) && !Crossed(e.lo, e.hi)
  }

  function Addresses(e: AddressEntry): seq<string> {
    var listed := NormalizeArray(e.values);
    seq(|listed|, i requires 0 <= i < |listed| => Lower(Trim(listed[i])))
  }

  predicate AddressValid(config: Config, e: AddressEntry) {
    HasField(config, e.field, Address) && Addresses(e) != [] && "" !in Addresses(e)
  }

  function ParseFlag(v: FlagInput): Option<bool> {
    match v
    case Flag(b) => Some(b)
    case FlagText(s) => if s == "true" then Some(true) else if s == "false" then Some(false) else None
  }

  predicate FlagValid(config: Config, e: FlagEntry) {
    HasField(config, e.field, Boolean) && ParseFlag(e.value).Some?
  }

  predicate StatusesValid(config: Config, request: Request) {
    forall s | s in NormalizeArray(request.statuses) :: s in config.statuses
  }

  function UpperChar(c: char): char {
    if 'a' <= c <= 'z' then (c as int - 32) as char else c
  }

  function Upper(s: string): string {
    seq(|s|, i requires 0 <= i < |s| => UpperChar(s[i]))
  }

  function DirectionOf(sort: SortRequest): string {
    Upper(if sort.direction.Some? then sort.direction.value else "DESC")
  }

  predicate SortValid(config: Config, sort: Option<SortRequest>) {
    sort.Some? ==>
      && sort.value.field in config.fields
      && config.fields[sort.value.field].sortable != Some(false)
      && DirectionOf(sort.value) in {"ASC", "DESC"}
  }

  function SortOf(config: Config, sort: Option<SortRequest>): Option<Sort>
    requires SortValid(config, sort)
  {
    if sort.None? then None
    else Some(Sort(config.fields[sort.value.field].column, DirectionOf(sort.value)))
  }

  lemma {:induction false} UpperIsWord(s: string, word: string, lower: string)
    requires |word| == |lower| && forall i | 0 <= i < |word| :: 'A' <= word[i] <= 'Z' && lower[i] as int == word[i] as int + 32
    ensures Upper(s) == word <==> SameLetters(s, lower)
  {
    assert |Upper(s)| == |s|;
    if Upper(s) == word {
      forall i | 0 <= i < |s| ensures SameLetter(s[i], lower[i]) {
        assert Upper(s)[i] == word[i];
      }
    }
    if SameLetters(s, lower) {
      forall i | 0 <= i < |s| ensures Upper(s)[i] == word[i] {
        assert SameLetter(s[i], lower[i]);
      }
    }
  }

  /** A valid sort names the column of the field asked for, ascending only if "asc" was asked for in any case. */
  lemma {:induction false} SortMeaning(config: Config, sort: SortRequest)
    requires SortValid(config, Some(sort))
    ensures
      var r := SortOf(config, Some(sort)).value;
      && r.column == config.fields[sort.field].column
      && (r.direction == "ASC" <==> sort.direction.Some? && SameLetters(sort.direction.value, "asc"))
      && (r.direction == "DESC" <==> sort.direction.None? || SameLetters(sort.direction.value, "desc"))
      && r.direction in {"ASC", "DESC"}
  {
    UpperIsWord("DESC", "ASC", "asc");
    UpperIsWord("DESC", "DESC", "desc");
    assert "DESC"[0] == 'D' && "DESC"[1] == 'E' && "DESC"[2] == 'S' && "DESC"[3] == 'C';
    assert "desc"[0] == 'd' && "desc"[1] == 'e' && "desc"[2] == 's' && "desc"[3] == 'c';
    if sort.direction.Some? {
      UpperIsWord(sort.direction.value, "ASC", "asc");
      UpperIsWord(sort.direction.value, "DESC", "desc");
    }
  }

  /** A two-sided range of the right kind is rejected exactly when its lower bound is above its upper bound. */
  lemma {:induction false} RangeRejectedIff(config: Config, field: string, a: real, b: real, m: int, n: int)
    requires field in config.fields
    ensures config.fields[field].fieldType == Number ==>
              (RangeValid(config, RangeEntry(field, Some(Parsed(Num(a))), Some(Parsed(Num(b)))), Number) <==> a <= b)
    ensures config.fields[field].fieldType == Date ==>
              (RangeValid(config, RangeEntry(field, Some(Parsed(Instant(m))), Some(Parsed(Instant(n)))), Date) <==> m <= n)
  {
  }

  /** The requests that are compiled rather than rejected. */
  predicate Valid(config: Config, request: Request) {
    && (request.combination.Some? ==> !request.combination.value.UnsupportedCombination?)
    && (forall e | e in request.dateRanges :: RangeValid(config, e, Date))
    && StatusesValid(config, request)
    && (forall e | e in request.numericRanges :: RangeValid(config, e, Number))
    && (forall e | e in request.addresses :: AddressValid(config, e))
    && (forall e | e in request.booleans :: FlagValid(config, e))
    && SortValid(config, request.sort)
  }

  // ---- what a request asks of a row ----------------------------------------

  /** One thing a request asks of a row. */
  datatype Requirement =
    | LowerBound(column: string, bound: Value)
    | UpperBound(column: string, bound: Value)
    | OneOf(column: string, items: seq<string>)
    | Equals(column: string, value: Value)
    | SomeStatus(groups: seq<seq<StatusCondition>>)

  function OpOf(c: StatusCondition): Op {
    if c.op.Some? then c.op.value else Eq
  }

  /** Whether a row meets one status condition; a NULL meets only IS and IS NOT. */
  predicate ConditionHolds(c: StatusCondition, row: Row) {
    var v := Column(row, c.field);
    match OpOf(c)
    case Is => v == c.value
    case IsNot => v != c.value
    case Eq => !v.Null? && !c.value.Null? && v == c.value
    case Ne => !v.Null? && !c.value.Null? && v != c.value
    case Ge => AtLeast(v, c.value)
    case Le => AtLeast(c.value, v)
  }

  predicate GroupHolds(conditions: seq<StatusCondition>, row: Row) {
    forall c | c in conditions :: ConditionHolds(c, row)
  }

  predicate Holds(r: Requirement, row: Row) {
    match r
    case LowerBound(column, bound) => AtLeast(Column(row, column), bound)
    case UpperBound(column, bound) => AtLeast(bound, Column(row, column))
    case OneOf(column, items) => Column(row, column).Text? && Lower(Column(row, column).s) in items
    case Equals(column, value) => !value.Null? && Column(row, column) == value
    case SomeStatus(groups) => exists g | g in groups :: GroupHolds(g, row)
  }

  function RangeRequirements(config: Config, e: RangeEntry, expected: FieldType): seq<Requirement>
    requires RangeValid(config, e, expected)
  {
    var column := config.fields[e.field].column;
    (if e.lo.Some? then [LowerBound(column, e.lo.value.v)] else []) +
    (if e.hi.Some? then [UpperBound(column, e.hi.value.v)] else [])
  }

  function RangesRequirements(config: Config, es: seq<RangeEntry>, expected: FieldType): seq<Requirement>
    requires forall e | e in es :: RangeValid(config, e, expected)
  {
    if es == [] then []
    else RangesRequirements(config, es[..|es| - 1], expected) + RangeRequirements(config, es[|es| - 1], expected)
  }

  function StatusRequirements(config: Config, statuses: seq<string>): seq<Requirement>
    requires forall s | s in statuses :: s in config.statuses
  {
    if statuses == [] then []
    else [SomeStatus(seq(|statuses|, i requires 0 <= i < |statuses| => config.statuses[statuses[i]]))]
  }

  function AddressRequirements(config: Config, es: seq<AddressEntry>): seq<Requirement>
    requires forall e | e in es :: AddressValid(config, e)
  {
    if es == [] then []
    else
      var last := es[|es| - 1];
      assert last in es && AddressValid(config, last);
      AddressRequirements(config, es[..|es| - 1]) + [OneOf(config.fields[last.field].column, Addresses(last))]
  }

  function FlagRequirements(config: Config, es: seq<FlagEntry>): seq<Requirement>
    requires forall e | e in es :: FlagValid(config, e)
  {
    if es == [] then []
    else
      var last := es[|es| - 1];
      assert last in es && FlagValid(config, last);
      FlagRequirements(config, es[..|es| - 1]) +
      [Equals(config.fields[last.field].column, Bool(ParseFlag(last.value).value))]
  }

  function Requirements(config: Config, request: Request): seq<Requirement>
    requires Valid(config, request)
  {
    RangesRequirements(config, request.dateRanges, Date) +
    StatusRequirements(config, NormalizeArray(request.statuses)) +
    RangesRequirements(config, request.numericRanges, Number) +
    AddressRequirements(config, request.addresses) +
    FlagRequirements(config, request.booleans)
  }

  // ---- compiled clauses ----------------------------------------------------

  /** `${PARAM_PREFIX}_${k}` */
  function Name(k: nat): string {
    "filter_" + Decimal.Render(k)
  }

  lemma {:induction false} NameInjective(a: nat, b: nat)
    ensures Name(a) == Name(b) <==> a == b
  {
    assert Name(a)[7..] == Decimal.Render(a) && Name(b)[7..] == Decimal.Render(b);
    Decimal.RenderInjective(a, b);
  }

  /** The names with numbers in [lo, hi). */
  function Names(lo: nat, hi: nat): set<string> {
    set k | lo <= k < hi :: Name(k)
  }

  lemma {:induction false} NamesSplit(a: nat, b: nat, c: nat)
    requires a <= b <= c
    ensures Names(a, b) !! Names(b, c) && Names(a, b) + Names(b, c) == Names(a, c)
  {
    forall n | n in Names(a, b) && n in Names(b, c) ensures false {
      var i :| a <= i < b && n == Name(i);
      var j :| b <= j < c && n == Name(j);
      NameInjective(i, j);
    }
    forall n | n in Names(a, c) ensures n in Names(a, b) + Names(b, c) {
      var k :| a <= k < c && n == Name(k);
      if k < b {
        assert n in Names(a, b);
      } else {
        assert n in Names(b, c);
      }
    }
  }

  /** Number of parameters the clause of a requirement binds. */
  function Width(r: Requirement): nat {
    match r
    case SomeStatus(groups) => GroupsWidth(groups)
    case _ => 1
  }

  function GroupsWidth(groups: seq<seq<StatusCondition>>): nat {
    if groups == [] then 0 else |groups[0]| + GroupsWidth(groups[1..])
  }

  function TotalWidth(rs: seq<Requirement>): nat {
    if rs == [] then 0 else Width(rs[0]) + TotalWidth(rs[1..])
  }

  function GroupAtoms(conditions: seq<StatusCondition>, k: nat): seq<Atom> {
    seq(|conditions|, i requires 0 <= i < |conditions| =>
      Atom(conditions[i].field, OpOf(conditions[i]), Name(k + i)))
  }

  function GroupParams(conditions: seq<StatusCondition>, k: nat): Params {
    if conditions == [] then map[]
    else map[Name(k) := Scalar(conditions[0].value)] + GroupParams(conditions[1..], k + 1)
  }

  function GroupsAtoms(groups: seq<seq<StatusCondition>>, k: nat): seq<seq<Atom>> {
    if groups == [] then [] else [GroupAtoms(groups[0], k)] + GroupsAtoms(groups[1..], k + |groups[0]|)
  }

  function GroupsParams(groups: seq<seq<StatusCondition>>, k: nat): Params {
    if groups == [] then map[] else GroupParams(groups[0], k) + GroupsParams(groups[1..], k + |groups[0]|)
  }

  /** The clause for one requirement, its parameters numbered from `k`. */
  function Compile(r: Requirement, k: nat): FilterClause {
    match r
    case LowerBound(column, bound) => FilterClause(Compare(Atom(column, Ge, Name(k))), map[Name(k) := Scalar(bound)])
    case UpperBound(column, bound) => FilterClause(Compare(Atom(column, Le, Name(k))), map[Name(k) := Scalar(bound)])
    case OneOf(column, items) => FilterClause(LowerIn(column, Name(k)), map[Name(k) := Items(items)])
    case Equals(column, value) => FilterClause(Compare(Atom(column, Eq, Name(k))), map[Name(k) := Scalar(value)])
    case SomeStatus(groups) => FilterClause(AnyGroup(GroupsAtoms(groups, k)), GroupsParams(groups, k))
  }

  function CompileAll(rs: seq<Requirement>, k: nat): seq<FilterClause> {
    if rs == [] then [] else [Compile(rs[0], k)] + CompileAll(rs[1..], k + Width(rs[0]))
  }

  lemma {:induction false} WidthAppend(a: seq<Requirement>, b: seq<Requirement>)
    ensures TotalWidth(a + b) == TotalWidth(a) + TotalWidth(b)
  {
    if a == [] {
      assert a + b == b;
    } else {
      WidthAppend(a[1..], b);
      assert (a + b)[1..] == a[1..] + b;
    }
  }

  lemma {:induction false} CompileUnfold(rs: seq<Requirement>, k: nat)
    requires rs != []
    ensures CompileAll(rs, k) == [Compile(rs[0], k)] + CompileAll(rs[1..], k + Width(rs[0]))
    ensures TotalWidth(rs) == Width(rs[0]) + TotalWidth(rs[1..])
  {
  }

  lemma {:induction false} CompileNone(k: nat)
    ensures CompileAll([], k) == [] && TotalWidth([]) == 0
  {
  }

  lemma {:induction false} CompileAppend(a: seq<Requirement>, b: seq<Requirement>, k: nat)
    ensures CompileAll(a + b, k) == CompileAll(a, k) + CompileAll(b, k + TotalWidth(a))
    decreases a
  {
    hide Compile, Width, CompileAll, TotalWidth;
    if a == [] {
      CompileNone(k);
      assert a + b == b;
      assert [] + CompileAll(b, k) == CompileAll(b, k);
    } else {
      var rest, k' := a[1..], k + Width(a[0]);
      var c, x, y := [Compile(a[0], k)], CompileAll(rest, k'), CompileAll(b, k' + TotalWidth(rest));
      CompileAppend(rest, b, k');
      assert (a + b)[1..] == rest + b && (a + b)[0] == a[0];
      CompileUnfold(a, k);
      CompileUnfold(a + b, k);
      assert CompileAll(a + b, k) == c + (x + y);
      Associate(c, x, y);
    }
  }

  /** All clauses' parameters in the query's single namespace, later ones overriding. */
  function Merge(clauses: seq<FilterClause>): Params {
    if clauses == [] then map[] else clauses[0].parameters + Merge(clauses[1..])
  }

  // ---- the namespace has no clashes ----------------------------------------

  lemma {:induction false} NamesOne(k: nat)
    ensures Names(k, k + 1) == {Name(k)}
  {
    assert Name(k) in Names(k, k + 1);
  }

  lemma {:induction false} GroupParamsKeys(conditions: seq<StatusCondition>, k: nat)
    ensures GroupParams(conditions, k).Keys == Names(k, k + |conditions|)
    decreases conditions
  {
    if conditions == [] {
      assert Names(k, k) == {};
    } else {
      GroupParamsKeys(conditions[1..], k + 1);
      NamesOne(k);
      NamesSplit(k, k + 1, k + |conditions|);
      assert GroupParams(conditions, k).Keys == {Name(k)} + GroupParams(conditions[1..], k + 1).Keys;
    }
  }

  lemma {:induction false} GroupsParamsKeys(groups: seq<seq<StatusCondition>>, k: nat)
    ensures GroupsParams(groups, k).Keys == Names(k, k + GroupsWidth(groups))
    decreases groups
  {
    if groups == [] {
      assert Names(k, k) == {};
    } else {
      var k' := k + |groups[0]|;
      GroupParamsKeys(groups[0], k);
      GroupsParamsKeys(groups[1..], k');
      NamesSplit(k, k', k + GroupsWidth(groups));
      assert GroupsParams(groups, k).Keys == GroupParams(groups[0], k).Keys + GroupsParams(groups[1..], k').Keys;
    }
  }

  lemma {:induction false} CompileKeys(r: Requirement, k: nat)
    ensures Compile(r, k).parameters.Keys == Names(k, k + Width(r))
  {
    if r.SomeStatus? {
      GroupsParamsKeys(r.groups, k);
    } else {
      NamesOne(k);
    }
  }

  lemma {:induction false} MergeKeys(rs: seq<Requirement>, k: nat)
    ensures Merge(CompileAll(rs, k)).Keys == Names(k, k + TotalWidth(rs))
    decreases rs
  {
    hide Compile, Width;
    if rs == [] {
      assert Names(k, k) == {};
    } else {
      var k' := k + Width(rs[0]);
      var first, rest := Compile(rs[0], k), CompileAll(rs[1..], k');
      CompileKeys(rs[0], k);
      MergeKeys(rs[1..], k');
      NamesSplit(k, k', k + TotalWidth(rs));
      assert CompileAll(rs, k)[1..] == rest;
      assert Merge(CompileAll(rs, k)).Keys == first.parameters.Keys + Merge(rest).Keys;
    }
  }

  lemma {:induction false} FirstAndRestDisjoint(r: Requirement, rest: seq<Requirement>, k: nat)
    ensures Compile(r, k).parameters.Keys !! Merge(CompileAll(rest, k + Width(r))).Keys
  {
    hide Compile, CompileAll, Merge, TotalWidth, Width;
    var k' := k + Width(r);
    CompileKeys(r, k);
    MergeKeys(rest, k');
    NamesSplit(k, k', k' + TotalWidth(rest));
  }

  lemma {:induction false} MergeContains(clauses: seq<FilterClause>, j: nat)
    requires j < |clauses|
    ensures clauses[j].parameters.Keys <= Merge(clauses).Keys
  {
    if j > 0 {
      MergeContains(clauses[1..], j - 1);
    }
  }

  /** No two clauses of a plan bind the same parameter name. */
  lemma {:induction false} ParametersAreDistinct(rs: seq<Requirement>, k: nat, i: nat, j: nat)
    requires i < j < |CompileAll(rs, k)|
    ensures CompileAll(rs, k)[i].parameters.Keys !! CompileAll(rs, k)[j].parameters.Keys
    decreases rs
  {
    assert rs != [];
    hide Compile, CompileAll, Merge, TotalWidth, Width;
    CompileUnfold(rs, k);
    var rest := CompileAll(rs[1..], k + Width(rs[0]));
    if i > 0 {
      ParametersAreDistinct(rs[1..], k + Width(rs[0]), i - 1, j - 1);
    } else {
      FirstAndRestDisjoint(rs[0], rs[1..], k);
      MergeContains(rest, j - 1);
    }
  }

  // ---- compiled meaning ----------------------------------------------------

  /** `params` gives every name bound in `local` the value bound there. */
  ghost predicate Carries(params: Params, local: Params) {
    forall n | n in local :: n in params && params[n] == local[n]
  }

  lemma {:induction false} GroupParamsSplit(conditions: seq<StatusCondition>, k: nat, params: Params)
    requires conditions != [] && Carries(params, GroupParams(conditions, k))
    ensures Name(k) in params && params[Name(k)] == Scalar(conditions[0].value)
    ensures Carries(params, GroupParams(conditions[1..], k + 1))
  {
    var rest := GroupParams(conditions[1..], k + 1);
    GroupParamsKeys(conditions[1..], k + 1);
    NamesOne(k);
    NamesSplit(k, k + 1, k + |conditions|);
    assert Name(k) !in rest;
    var whole := map[Name(k) := Scalar(conditions[0].value)] + rest;
    assert Name(k) in whole;
    assert forall n | n in rest :: n in whole && whole[n] == rest[n];
  }

  lemma {:induction false} AtomMeaning(c: StatusCondition, name: string, params: Params, row: Row)
    requires name in params && params[name] == Scalar(c.value)
    ensures EvalAtom(Atom(c.field, OpOf(c), name), params, row).True? <==> ConditionHolds(c, row)
  {
  }

  lemma {:induction false} GroupMeaning(conditions: seq<StatusCondition>, k: nat, params: Params, row: Row)
    requires Carries(params, GroupParams(conditions, k))
    ensures EvalGroup(GroupAtoms(conditions, k), params, row).True? <==> GroupHolds(conditions, row)
    decreases conditions
  {
    if conditions != [] {
      GroupParamsSplit(conditions, k, params);
      AtomMeaning(conditions[0], Name(k), params, row);
      GroupMeaning(conditions[1..], k + 1, params, row);
      assert GroupAtoms(conditions, k)[1..] == GroupAtoms(conditions[1..], k + 1);
      assert conditions == [conditions[0]] + conditions[1..];
    }
  }

  lemma {:induction false} GroupsDisjoint(groups: seq<seq<StatusCondition>>, k: nat)
    requires groups != []
    ensures GroupParams(groups[0], k).Keys !! GroupsParams(groups[1..], k + |groups[0]|).Keys
  {
    var k' := k + |groups[0]|;
    GroupParamsKeys(groups[0], k);
    GroupsParamsKeys(groups[1..], k');
    NamesSplit(k, k', k' + GroupsWidth(groups[1..]));
  }

  lemma {:induction false} GroupsParamsSplit(groups: seq<seq<StatusCondition>>, k: nat, params: Params)
    requires groups != [] && Carries(params, GroupsParams(groups, k))
    ensures Carries(params, GroupParams(groups[0], k))
    ensures Carries(params, GroupsParams(groups[1..], k + |groups[0]|))
  {
    GroupsDisjoint(groups, k);
    CarriesSplit(params, GroupParams(groups[0], k), GroupsParams(groups[1..], k + |groups[0]|));
  }

  lemma {:induction false} CarriesSplit(params: Params, a: Params, b: Params)
    requires a.Keys !! b.Keys && Carries(params, a + b)
    ensures Carries(params, a) && Carries(params, b)
  {
    forall n | n in a ensures n in params && params[n] == a[n] {
      assert n in a + b && (a + b)[n] == a[n];
    }
    forall n | n in b ensures n in params && params[n] == b[n] {
      assert n in a + b && (a + b)[n] == b[n];
    }
  }

  lemma {:induction false} GroupsMeaning(groups: seq<seq<StatusCondition>>, k: nat, params: Params, row: Row)
    requires Carries(params, GroupsParams(groups, k))
    ensures EvalGroups(GroupsAtoms(groups, k), params, row).True? <==> exists g | g in groups :: GroupHolds(g, row)
    decreases groups
  {
    if groups != [] {
      GroupsParamsSplit(groups, k, params);
      GroupMeaning(groups[0], k, params, row);
      GroupsMeaning(groups[1..], k + |groups[0]|, params, row);
      assert GroupsAtoms(groups, k)[1..] == GroupsAtoms(groups[1..], k + |groups[0]|);
      assert groups == [groups[0]] + groups[1..];
    }
  }

  /** One clause, under any parameters that carry its own, is TRUE exactly on the rows that meet the requirement. */
  lemma {:induction false} ClauseMeaning(r: Requirement, k: nat, params: Params, row: Row)
    requires Carries(params, Compile(r, k).parameters)
    ensures Eval(Compile(r, k).sql, params, row).True? <==> Holds(r, row)
  {
    if r.SomeStatus? {
      GroupsMeaning(r.groups, k, params, row);
    } else {
      assert Name(k) in Compile(r, k).parameters;
    }
  }

  /** The bracketed condition: clauses joined by AND, or by OR, under one parameter map. */
  function Joined(clauses: seq<FilterClause>, combination: Combination, params: Params, row: Row): Truth
    requires clauses != []
  {
    var first := Eval(clauses[0].sql, params, row);
    if |clauses| == 1 then first
    else
      var rest := Joined(clauses[1..], combination, params, row);
      if combination.AnyOf? then Or(first, rest) else And(first, rest)
  }

  predicate Selected(plan: FilterPlan, row: Row) {
    plan.clauses == [] || Joined(plan.clauses, plan.combination, Merge(plan.clauses), row).True?
  }

  predicate Meets(rs: seq<Requirement>, combination: Combination, row: Row) {
    if combination.AnyOf? then exists r | r in rs :: Holds(r, row) else forall r | r in rs :: Holds(r, row)
  }

  lemma {:induction false} JoinedMeaning(rs: seq<Requirement>, k: nat, combination: Combination, params: Params, row: Row)
    requires rs != [] && Carries(params, Merge(CompileAll(rs, k)))
    ensures Joined(CompileAll(rs, k), combination, params, row).True? <==> Meets(rs, combination, row)
    decreases rs
  {
    var k' := k + Width(rs[0]);
    SplitCarried(rs, k, params);
    ClauseMeaning(rs[0], k, params, row);
    assert CompileAll(rs, k) == [Compile(rs[0], k)] + CompileAll(rs[1..], k');
    assert rs == [rs[0]] + rs[1..];
    if |rs| > 1 {
      JoinedMeaning(rs[1..], k', combination, params, row);
    }
  }

  lemma {:induction false} SplitCarried(rs: seq<Requirement>, k: nat, params: Params)
    requires rs != [] && Carries(params, Merge(CompileAll(rs, k)))
    ensures Carries(params, Compile(rs[0], k).parameters)
    ensures Carries(params, Merge(CompileAll(rs[1..], k + Width(rs[0]))))
  {
    var first, rest := Compile(rs[0], k), CompileAll(rs[1..], k + Width(rs[0]));
    FirstAndRestDisjoint(rs[0], rs[1..], k);
    assert CompileAll(rs, k) == [first] + rest && ([first] + rest)[1..] == rest;
    CarriesSplit(params, first.parameters, Merge(rest));
  }
}
