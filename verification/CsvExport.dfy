/**
 * `ActivityService.exportCsv`: CSV text as in section 2 of RFC 4180, formula
 * neutralisation, and stroop amounts printed with seven decimals.
 */
module CsvExport {
  import opened Prelude
  import Decimal

  // ---- escaping one field --------------------------------------------------

  /** `/^[=+\-@\t\r]/` */
  predicate StartsFormula(f: string) {
    f != "" && f[0] in {'=', '+', '-', '@', '\t', '\r'}
  }

  predicate IsDigits(s: string) {
    s != "" && Decimal.AllDigits(s)
  }

  function WithoutSign(s: string): string {
    if s != "" && s[0] == '-' then s[1..] else s
  }

  /** `/^-?\d+$/` */
  predicate IsInteger(s: string) {
    IsDigits(WithoutSign(s))
  }

  /** Digits, a point at `k`, digits. */
  predicate PointAt(s: string, k: nat) {
    k < |s| && s[k] == '.' && IsDigits(s[..k]) && IsDigits(s[k + 1..])
  }

  /** `/^-?\d+(\.\d+)?$/` */
  predicate IsNumber(s: string) {
    IsInteger(s) || exists k: nat | k < |WithoutSign(s)| :: PointAt(WithoutSign(s), k)
  }

  function Neutralize(f: string): string {
    if StartsFormula(f) && !IsNumber(f) then "'" + f else f
  }

  predicate Special(c: char) {
    c in {'"', ',', '\r', '\n'}
  }

  /** `/[",\r\n]/` */
  predicate NeedsQuotes(f: string) {
    exists i | 0 <= i < |f| :: Special(f[i])
  }

  /** `field.replace(/"/g, '""')` */
  function DoubleQuotes(f: string): string {
    if f == "" then "" else (if f[0] == '"' then "\"\"" else [f[0]]) + DoubleQuotes(f[1..])
  }

  function Quote(f: string): string {
    if NeedsQuotes(f) then "\"" + DoubleQuotes(f) + "\"" else f
  }

  function EscapeCsvField(value: string): string {
    Quote(Neutralize(value))
  }

  /** Neutralising again changes nothing, and what it returns starts like a formula only if it is a number. */
  lemma NeutralizeIsStable(f: string)
    ensures Neutralize(Neutralize(f)) == Neutralize(f)
    ensures StartsFormula(Neutralize(f)) ==> IsNumber(Neutralize(f))
  {
  }

  // ---- rendering and parsing -----------------------------------------------

  function Join(parts: seq<string>, separator: string): string {
    if parts == [] then ""
    else if |parts| == 1 then parts[0]
    else parts[0] + separator + Join(parts[1..], separator)
  }

  function Mapped(row: seq<string>, f: string -> string): seq<string> {
    seq(|row|, i requires 0 <= i < |row| => f(row[i]))
  }

  function RenderRow(row: seq<string>): string {
    Join(Mapped(row, EscapeCsvField), ",")
  }

  function RenderRows(rows: seq<seq<string>>): string {
    if rows == [] then ""
    else if |rows| == 1 then RenderRow(rows[0])
    else RenderRow(rows[0]) + "\r\n" + RenderRows(rows[1..])
  }

  /** A parsed prefix and the text after it. */
  datatype Parsed<T> = Parsed(value: T, rest: string) | Malformed

  /** Inside quotes: up to the closing quote, with `""` standing for one quote. */
  function ParseQuoted(s: string): (r: Parsed<string>)
    ensures r.Parsed? ==> |r.rest| < |s|
  {
    if s == "" then Malformed
    else if s[0] == '"' then
      if |s| > 1 && s[1] == '"' then
        match ParseQuoted(s[2..])
        case Parsed(v, rest) => Parsed("\"" + v, rest)
        case Malformed => Malformed
      else Parsed("", s[1..])
    else
      match ParseQuoted(s[1..])
      case Parsed(v, rest) => Parsed([s[0]] + v, rest)
      case Malformed => Malformed
  }

  /** Outside quotes: text data up to a comma or a line break. */
  function ParsePlain(s: string): (r: Parsed<string>)
    ensures r.Parsed? ==> |r.rest| <= |s|
  {
    if s == "" || s[0] in {',', '\r', '\n'} then Parsed("", s)
    else if s[0] == '"' then Malformed
    else
      match ParsePlain(s[1..])
      case Parsed(v, rest) => Parsed([s[0]] + v, rest)
      case Malformed => Malformed
  }

  function ParseField(s: string): (r: Parsed<string>)
    ensures r.Parsed? ==> |r.rest| <= |s|
  {
    if s != "" && s[0] == '"' then ParseQuoted(s[1..]) else ParsePlain(s)
  }

  function ParseRow(s: string): (r: Parsed<seq<string>>)
    ensures r.Parsed? ==> |r.rest| <= |s|
    decreases |s|
  {
    match ParseField(s)
    case Malformed => Malformed
    case Parsed(v, rest) =>
      if rest != "" && rest[0] == ',' then
        match ParseRow(rest[1..])
        case Parsed(vs, rest') => Parsed([v] + vs, rest')
        case Malformed => Malformed
      else Parsed([v], rest)
  }

  /** Rows separated by CRLF, the last one without. */
  function ParseCsv(s: string): Option<seq<seq<string>>>
    decreases |s|
  {
    match ParseRow(s)
    case Malformed => None
    case Parsed(row, rest) =>
      if rest == "" then Some([row])
      else if |rest| >= 2 && rest[..2] == "\r\n" then
        match ParseCsv(rest[2..])
        case Some(rows) => Some([row] + rows)
        case None => None
      else None
  }

  // ---- round trip ----------------------------------------------------------

  /** What may follow a field: nothing, a comma, or a line break. */
  predicate EndsField(tail: string) {
    tail == "" || tail[0] == ',' || tail[0] == '\r'
  }

  lemma {:induction false} QuotedRoundTrip(f: string, tail: string)
    requires EndsField(tail)
    ensures ParseQuoted(DoubleQuotes(f) + "\"" + tail) == Parsed(f, tail)
  {
    var s := DoubleQuotes(f) + "\"" + tail;
    if f == "" {
      assert s == "\"" + tail && s[1..] == tail;
    } else {
      QuotedRoundTrip(f[1..], tail);
      var rest := DoubleQuotes(f[1..]) + "\"" + tail;
      if f[0] == '"' {
        assert s == "\"\"" + rest && s[2..] == rest;
        assert f == "\"" + f[1..];
      } else {
        assert s == [f[0]] + rest && s[1..] == rest;
        assert f == [f[0]] + f[1..];
      }
    }
  }

  lemma {:induction false} PlainRoundTrip(f: string, tail: string)
    requires EndsField(tail) && !NeedsQuotes(f)
    ensures ParsePlain(f + tail) == Parsed(f, tail)
  {
    if f == "" {
      assert f + tail == tail;
    } else {
      assert !Special(f[0]);
      assert forall i | 0 <= i < |f[1..]| :: f[1..][i] == f[i + 1];
      PlainRoundTrip(f[1..], tail);
      assert (f + tail)[1..] == f[1..] + tail;
      assert f == [f[0]] + f[1..];
    }
  }

  lemma {:induction false} FieldRoundTrip(f: string, tail: string)
    requires EndsField(tail)
    ensures ParseField(Quote(f) + tail) == Parsed(f, tail)
  {
    hide ParseQuoted, ParsePlain, DoubleQuotes;
    if NeedsQuotes(f) {
      QuotedRoundTrip(f, tail);
      assert (Quote(f) + tail)[1..] == DoubleQuotes(f) + "\"" + tail;
    } else {
      PlainRoundTrip(f, tail);
      assert f != "" ==> !Special(f[0]) && (f + tail)[0] == f[0];
      assert f == "" ==> f + tail == tail;
    }
  }

  predicate EndsRow(tail: string) {
    tail == "" || tail[0] == '\r'
  }

  lemma {:induction false} RowRoundTrip(row: seq<string>, tail: string)
    requires row != [] && EndsRow(tail)
    ensures ParseRow(RenderRow(row) + tail) == Parsed(Mapped(row, Neutralize), tail)
  {
    hide Quote, Neutralize, ParseField;
    var first, f := EscapeCsvField(row[0]), Neutralize(row[0]);
    if |row| == 1 {
      assert RenderRow(row) == first;
      FieldRoundTrip(f, tail);
      assert Mapped(row, Neutralize) == [f];
    } else {
      var more := RenderRow(row[1..]) + tail;
      assert Mapped(row, EscapeCsvField)[1..] == Mapped(row[1..], EscapeCsvField);
      assert RenderRow(row) + tail == first + ("," + more);
      FieldRoundTrip(f, "," + more);
      assert ("," + more)[1..] == more;
      RowRoundTrip(row[1..], tail);
      assert Mapped(row, Neutralize) == [f] + Mapped(row[1..], Neutralize);
    }
  }

  function NeutralizedRows(rows: seq<seq<string>>): seq<seq<string>> {
    seq(|rows|, i requires 0 <= i < |rows| => Mapped(rows[i], Neutralize))
  }

  /** Parsing the rendered text gives back exactly the neutralised fields, whatever they contain. */
  lemma {:induction false} CsvRoundTrip(rows: seq<seq<string>>)
    requires rows != [] && forall i | 0 <= i < |rows| :: rows[i] != []
    ensures ParseCsv(RenderRows(rows)) == Some(NeutralizedRows(rows))
  {
    hide ParseRow, RenderRow, Mapped, Neutralize;
    var row := Mapped(rows[0], Neutralize);
    if |rows| == 1 {
      RowRoundTrip(rows[0], "");
      assert RenderRow(rows[0]) + "" == RenderRow(rows[0]);
      assert NeutralizedRows(rows) == [row];
    } else {
      var more := RenderRows(rows[1..]);
      var text, rest := RenderRows(rows), "\r\n" + more;
      CsvRoundTrip(rows[1..]);
      assert text == RenderRow(rows[0]) + rest;
      RowRoundTrip(rows[0], rest);
      assert rest[..2] == "\r\n" && rest[2..] == more;
      assert NeutralizedRows(rows) == [row] + NeutralizedRows(rows[1..]);
    }
  }

  // ---- stroop amounts ------------------------------------------------------

  const STROOPS_PER_UNIT: nat := 10_000_000

  /** `BigInt(s)` */
  function ParseInteger(s: string): int
    requires IsInteger(s)
  {
    if s[0] == '-' then -(Decimal.Parse(s[1..]) as int) else Decimal.Parse(s)
  }

  function FormatAbs(abs: nat): string {
    Decimal.Render(abs / STROOPS_PER_UNIT) + "." + Decimal.PadLeft(Decimal.Render(abs % STROOPS_PER_UNIT), 7)
  }

  function FormatInt(v: int): string {
    if v < 0 then "-" + FormatAbs(-v) else FormatAbs(v)
  }

  function FormatStroops(stroops: string): string {
    if IsInteger(stroops) then FormatInt(ParseInteger(stroops)) else stroops
  }

  /** Position of the first point, or the length. */
  function FindPoint(s: string): (k: nat)
    ensures k <= |s|
    ensures forall i | 0 <= i < k :: s[i] != '.'
    ensures k < |s| ==> s[k] == '.'
  {
    if s == "" || s[0] == '.' then 0 else 1 + FindPoint(s[1..])
  }

  /** Reads a decimal with exactly seven places back into stroops. */
  function ParseFixed(s: string): Option<int> {
    var t := WithoutSign(s);
    var k := FindPoint(t);
    if PointAt(t, k) && |t| - k == 8 then
      var abs := Decimal.Parse(t[..k]) * STROOPS_PER_UNIT + Decimal.Parse(t[k + 1..]);
      Some(if t != s then -abs else abs)
    else None
  }

  lemma {:induction false} FractionShape(n: nat)
    requires n < STROOPS_PER_UNIT
    ensures |Decimal.PadLeft(Decimal.Render(n), 7)| == 7
    ensures Decimal.Parse(Decimal.PadLeft(Decimal.Render(n), 7)) == n
  {
    assert Decimal.Pow10(7) == STROOPS_PER_UNIT by {
      assert Decimal.Pow10(4) == 10_000;
    }
    Decimal.RenderLength(n, 7);
    Decimal.PadKeepsValue(Decimal.Render(n), 7);
    Decimal.RenderParses(n);
  }

  /** Whole part, point, seven digits: where the point is and what both sides read as. */
  lemma {:induction false} FormatAbsShape(abs: nat)
    ensures
      var s, k := FormatAbs(abs), |Decimal.Render(abs / STROOPS_PER_UNIT)|;
      && PointAt(s, k) && |s| == k + 8 && FindPoint(s) == k
      && Decimal.Parse(s[..k]) == abs / STROOPS_PER_UNIT
      && Decimal.Parse(s[k + 1..]) == abs % STROOPS_PER_UNIT
  {
    var whole, fraction := Decimal.Render(abs / STROOPS_PER_UNIT), Decimal.PadLeft(Decimal.Render(abs % STROOPS_PER_UNIT), 7);
    var s, k := FormatAbs(abs), |whole|;
    FractionShape(abs % STROOPS_PER_UNIT);
    Decimal.RenderParses(abs / STROOPS_PER_UNIT);
    assert s[..k] == whole && s[k + 1..] == fraction && s[k] == '.';
    forall i | 0 <= i < k ensures s[i] != '.' {
      assert s[i] == whole[i] && Decimal.IsDigit(whole[i]);
    }
  }

  /** Every integer is printed with seven decimals that read back as the same integer. */
  lemma {:induction false} FormatParses(v: int)
    ensures ParseFixed(FormatInt(v)) == Some(v)
  {
    hide FormatAbs, FindPoint, Decimal.Parse, Decimal.Render;
    var abs := if v < 0 then -v else v;
    var t := FormatAbs(abs);
    FormatAbsShape(abs);
    FormatAbsIsPlain(abs);
    assert v < 0 ==> ("-" + t)[1..] == t;
    assert abs == (abs / STROOPS_PER_UNIT) * STROOPS_PER_UNIT + abs % STROOPS_PER_UNIT;
  }

  lemma {:induction false} FormatAbsIsPlain(abs: nat)
    ensures !NeedsQuotes(FormatAbs(abs)) && FormatAbs(abs) != "" && Decimal.IsDigit(FormatAbs(abs)[0])
  {
    var s, k := FormatAbs(abs), |Decimal.Render(abs / STROOPS_PER_UNIT)|;
    FormatAbsShape(abs);
    forall i | 0 <= i < |s| ensures !Special(s[i]) {
      assert i < k ==> s[i] == s[..k][i];
      assert i > k ==> s[i] == s[k + 1..][i - k - 1];
    }
    assert s[0] == s[..k][0];
  }

  /** Printed amounts, negative ones included, pass through escaping unchanged. */
  lemma {:induction false} FormatIsNotEscaped(v: int)
    ensures EscapeCsvField(FormatInt(v)) == FormatInt(v)
  {
    var abs := if v < 0 then -v else v;
    var t, s := FormatAbs(abs), FormatInt(v);
    FormatAbsShape(abs);
    FormatAbsIsPlain(abs);
    if v < 0 {
      assert s[1..] == t && WithoutSign(s) == t;
      assert PointAt(WithoutSign(s), |Decimal.Render(abs / STROOPS_PER_UNIT)|);
      forall i | 0 <= i < |s| ensures !Special(s[i]) {
        assert i > 0 ==> s[i] == t[i - 1];
      }
    }
  }

  /** An integer in text form survives formatting, escaping and reading back. */
  lemma {:induction false} StroopsRoundTrip(stroops: string)
    requires IsInteger(stroops)
    ensures ParseFixed(EscapeCsvField(FormatStroops(stroops))) == Some(ParseInteger(stroops))
    ensures EscapeCsvField(stroops) == stroops
  {
    FormatParses(ParseInteger(stroops));
    FormatIsNotEscaped(ParseInteger(stroops));
    IntegersAreNotEscaped(stroops);
  }

  lemma {:induction false} IntegersAreNotEscaped(s: string)
    requires IsInteger(s)
    ensures EscapeCsvField(s) == s
  {
    hide DoubleQuotes;
    var digits := WithoutSign(s);
    forall i | 0 <= i < |s| ensures !Special(s[i]) {
      var k := i - (|s| - |digits|);
      assert s[i] == '-' || s[i] == digits[k];
    }
  }

  // ---- the whole export ----------------------------------------------------

  datatype ActivityItem = ActivityItem(
    id: string,
    activityType: string,
    amount: Option<string>,
    goalId: Option<string>,
    goalName: Option<string>,
    txHash: Option<string>,
    ledger: nat,
    occurredAt: string)

  const CSV_COLUMNS: seq<string> :=
    ["date", "type", "amount", "amount_stroops", "goal_id", "goal_name", "tx_hash", "ledger", "event_id"]

  function OrEmpty(s: Option<string>): string {
    if s.Some? then s.value else ""
  }

  function RowOf(item: ActivityItem): seq<string> {
    [item.occurredAt, item.activityType,
     if item.amount.None? then "" else FormatStroops(item.amount.value),
     OrEmpty(item.amount), OrEmpty(item.goalId), OrEmpty(item.goalName), OrEmpty(item.txHash),
     Decimal.Render(item.ledger), item.id]
  }

  function TableOf(items: seq<ActivityItem>): seq<seq<string>> {
    [CSV_COLUMNS] + seq(|items|, i requires 0 <= i < |items| => RowOf(items[i]))
  }

  function ExportCsv(items: seq<ActivityItem>): string {
    RenderRows(TableOf(items))
  }

  /** Any activity list exports to text that parses back to the header and one neutralised row per item. */
  lemma {:induction false} ExportRoundTrip(items: seq<ActivityItem>)
    ensures
      var parsed := ParseCsv(ExportCsv(items));
      && parsed.Some? && |parsed.value| == |items| + 1
      && parsed.value[0] == CSV_COLUMNS
      && forall i | 0 <= i < |items| :: parsed.value[i + 1] == Mapped(RowOf(items[i]), Neutralize)
  {
    hide ParseCsv, RenderRows, Neutralize, FormatStroops, Decimal.Render;
    var table := TableOf(items);
    assert forall i | 0 <= i < |table| :: table[i] != [];
    CsvRoundTrip(table);
    HeaderIsKept();
    assert forall i | 0 <= i < |items| :: table[i + 1] == RowOf(items[i]);
  }

  /** A field is exported as it is unless it starts like a formula and is no number; then a quote mark precedes it. */
  lemma {:induction false} FieldIsKeptOrMarked(f: string)
    ensures Neutralize(f) == if StartsFormula(f) && !IsNumber(f) then "'" + f else f
    ensures StartsFormula(f) <==> f != "" && f[0] in {'=', '+', '-', '@', '\t', '\r'}
  {
  }

  /** In the parsed export, the cell under each column name is that field of the item. */
  lemma {:induction false} CellsUnderTheirNames(items: seq<ActivityItem>, i: nat)
    requires i < |items|
    ensures
      var parsed := ParseCsv(ExportCsv(items));
      && parsed.Some? && |parsed.value| == |items| + 1 && |parsed.value[0]| == 9 && |parsed.value[i + 1]| == 9
      && var names, cells, item := parsed.value[0], parsed.value[i + 1], items[i];
         && names[0] == "date" && cells[0] == Neutralize(item.occurredAt)
         && names[1] == "type" && cells[1] == Neutralize(item.activityType)
         && names[2] == "amount" && (item.amount.None? ==> cells[2] == "")
         && (item.amount.Some? && IsInteger(item.amount.value) ==>
               ParseFixed(cells[2]) == Some(ParseInteger(item.amount.value)))
         && names[3] == "amount_stroops"
         && cells[3] == (match item.amount case None => "" case Some(a) => Neutralize(a))
         && names[4] == "goal_id" && cells[4] == (match item.goalId case None => "" case Some(g) => Neutralize(g))
         && names[5] == "goal_name" && cells[5] == (match item.goalName case None => "" case Some(g) => Neutralize(g))
         && names[6] == "tx_hash" && cells[6] == (match item.txHash case None => "" case Some(t) => Neutralize(t))
         && names[7] == "ledger" && Decimal.AllDigits(cells[7]) && Decimal.Parse(cells[7]) == item.ledger
         && names[8] == "event_id" && cells[8] == Neutralize(item.id)
  {
    ExportRoundTrip(items);
    var item := items[i];
    assert Neutralize("") == "";
    LedgerIsKept(item.ledger);
    Decimal.RenderParses(item.ledger);
    if item.amount.Some? && IsInteger(item.amount.value) {
      ExportedAmountReadsBack(items, i);
    }
    hide ParseCsv, ExportCsv, Neutralize, FormatStroops, Decimal.Render, ParseFixed, IsInteger, ParseInteger, Decimal.Parse;
    assert |RowOf(item)| == 9;
  }

  lemma {:induction false} LedgerIsKept(n: nat)
    ensures Neutralize(Decimal.Render(n)) == Decimal.Render(n)
  {
    var r := Decimal.Render(n);
    assert Decimal.IsDigit(r[0]);
  }

  lemma {:induction false} HeaderIsKept()
    ensures Mapped(CSV_COLUMNS, Neutralize) == CSV_COLUMNS
  {
    var h := CSV_COLUMNS;
    assert h[0][0] == 'd' && h[1][0] == 't' && h[2][0] == 'a' && h[3][0] == 'a' && h[4][0] == 'g';
    assert h[5][0] == 'g' && h[6][0] == 't' && h[7][0] == 'l' && h[8][0] == 'e';
    forall i | 0 <= i < |h| ensures Mapped(h, Neutralize)[i] == h[i] {
      assert !StartsFormula(h[i]);
      assert Neutralize(h[i]) == h[i];
    }
  }

  /** In the exported table an integer amount can be read back from both amount columns. */
  lemma {:induction false} ExportedAmountReadsBack(items: seq<ActivityItem>, i: nat)
    requires i < |items| && items[i].amount.Some? && IsInteger(items[i].amount.value)
    ensures
      var row := Mapped(RowOf(items[i]), Neutralize);
      ParseFixed(row[2]) == Some(ParseInteger(items[i].amount.value)) && row[3] == items[i].amount.value
  {
    hide ParseFixed, IsInteger, ParseInteger, FormatInt, IsNumber, Neutralize, Decimal.Render;
    var amount := items[i].amount.value;
    FormatParses(ParseInteger(amount));
    NumbersAreKept(FormatStroops(amount));
    FormatIsNumber(ParseInteger(amount));
    IntegersAreNumbers(amount);
    NumbersAreKept(amount);
  }

  lemma {:induction false} IntegersAreNumbers(s: string)
    requires IsInteger(s)
    ensures IsNumber(s)
  {
  }

  lemma {:induction false} NumbersAreKept(f: string)
    ensures IsNumber(f) ==> Neutralize(f) == f
  {
  }

  lemma {:induction false} FormatIsNumber(v: int)
    ensures IsNumber(FormatInt(v))
  {
    var abs := if v < 0 then -v else v;
    var t := FormatAbs(abs);
    FormatAbsShape(abs);
    FormatAbsIsPlain(abs);
    assert v < 0 ==> ("-" + t)[1..] == t;
    assert WithoutSign(FormatInt(v)) == t;
    assert PointAt(t, |Decimal.Render(abs / STROOPS_PER_UNIT)|);
  }
}
