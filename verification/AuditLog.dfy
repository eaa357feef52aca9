/**
 * The tamper-evident admin audit log: every row carries a keyed checksum over its
 * predecessor's checksum and its own fields, and `verifyIntegrity` walks the chain.
 */
module AuditLog {
  import opened Prelude

  /** `details` stands for target and metadata, which the checksum does not cover. */
  datatype Entry = Entry(
    id: nat,
    actor: string,
    action: string,
    createdAt: int,
    details: string,
    checksum: Option<string>)

  datatype IntegrityReport = IntegrityReport(ok: bool, checked: nat, brokenAt: Option<nat>)

  /** HMAC-SHA256 under the configured secret, and how ids and dates are written. */
  datatype Codec = Codec(mac: string -> string, idText: nat -> string, iso: int -> string)

  predicate NoBar(s: string) {
    '|' !in s
  }

  /** Checksums do not collide and are never empty; ids, dates and checksums have no bar. */
  ghost predicate Sound(c: Codec) {
    && (forall x, y :: c.mac(x) == c.mac(y) ==> x == y)
    && (forall x :: c.mac(x) != "" && NoBar(c.mac(x)))
    && (forall i, j :: c.idText(i) == c.idText(j) ==> i == j)
    && (forall i :: NoBar(c.idText(i)))
    && (forall t :: NoBar(c.iso(t)))
    && (forall t, u :: c.iso(t) == c.iso(u) ==> t == u)
  }

  function Bar(a: string, b: string): string {
    a + "|" + b
  }

  /** Actor, action and date as they enter the checksum. */
  function Text(c: Codec, e: Entry): string {
    Bar(Bar(e.actor, e.action), c.iso(e.createdAt))
  }

  function Payload(c: Codec, prev: string, e: Entry): string {
    Bar(prev, Bar(c.idText(e.id), Text(c, e)))
  }

  function ComputeChecksum(c: Codec, prev: string, e: Entry): string {
    c.mac(Payload(c, prev, e))
  }

  // ---- the walk ------------------------------------------------------------

  function PrevChecksum(rows: seq<Entry>, i: nat): string
    requires i <= |rows|
  {
    if i == 0 || rows[i - 1].checksum.None? then "" else rows[i - 1].checksum.value
  }

  predicate LinkOk(c: Codec, rows: seq<Entry>, i: nat)
    requires i < |rows|
  {
    rows[i].checksum == Some(ComputeChecksum(c, PrevChecksum(rows, i), rows[i]))
  }

  ghost predicate AllLinked(c: Codec, rows: seq<Entry>) {
    forall i | 0 <= i < |rows| :: LinkOk(c, rows, i)
  }

  /** The first link that fails is the one at index `k`. */
  ghost predicate BreaksFirstAt(c: Codec, rows: seq<Entry>, k: nat) {
    && k < |rows| && !LinkOk(c, rows, k)
    && forall i | 0 <= i < k :: LinkOk(c, rows, i)
  }

  /** `verifyIntegrity` on the rows as the query returned them. */
  method VerifyIntegrity(c: Codec, rows: seq<Entry>) returns (report: IntegrityReport)
    ensures report.ok <==> AllLinked(c, rows)
    ensures report.ok ==> report.checked == |rows| && report.brokenAt == None
    ensures !report.ok ==> 1 <= report.checked && BreaksFirstAt(c, rows, report.checked - 1)
                           && report.brokenAt == Some(rows[report.checked - 1].id)
  {
    var prevChecksum := "";
    for i := 0 to |rows|
      invariant prevChecksum == PrevChecksum(rows, i)
      invariant forall j | 0 <= j < i :: LinkOk(c, rows, j)
    {
      var row := rows[i];
      var expected := ComputeChecksum(c, prevChecksum, row);
      if row.checksum != Some(expected) {
        assert !LinkOk(c, rows, i);
        return IntegrityReport(false, i + 1, Some(row.id));
      }
      prevChecksum := row.checksum.value;
    }
    report := IntegrityReport(true, |rows|, None);
  }

  // ---- writing -------------------------------------------------------------

  /** `created_at`, then `id`. */
  predicate Before(a: Entry, b: Entry) {
    a.createdAt < b.createdAt || (a.createdAt == b.createdAt && a.id < b.id)
  }

  /** The row just before `e` in that order. */
  function Predecessor(rows: seq<Entry>, e: Entry): (r: Option<Entry>)
    ensures r.Some? ==> r.value in rows && Before(r.value, e)
    ensures r.Some? ==> forall x | x in rows && Before(x, e) :: !Before(r.value, x)
    ensures r.None? ==> forall x | x in rows :: !Before(x, e)
  {
    if rows == [] then None
    else
      var last := rows[|rows| - 1];
      var rest := Predecessor(rows[..|rows| - 1], e);
      if Before(last, e) && (rest.None? || Before(rest.value, last)) then Some(last) else rest
  }

  function Seal(c: Codec, rows: seq<Entry>, e: Entry): Entry {
    var prev := Predecessor(rows, e);
    e.(checksum := Some(ComputeChecksum(c, if prev.Some? && prev.value.checksum.Some? then prev.value.checksum.value else "", e)))
  }

  class AuditLogService {
    const codec: Codec
    var rows: seq<Entry>

    constructor (codec: Codec)
      ensures rows == [] && this.codec == codec
    {
      this.codec := codec;
      rows := [];
    }

    /** The row is saved, then its checksum is computed and saved. */
    method Log(e: Entry)
      requires e.checksum.None?
      modifies this
      ensures rows == old(rows) + [Seal(codec, old(rows), e)]
    {
      rows := rows + [e];
      var sealed := Seal(codec, rows, e);
      OwnRowIsNotBefore(old(rows), e);
      rows := rows[|rows| - 1 := sealed];
    }
  }

  /** A row is never its own predecessor. */
  lemma {:induction false} OwnRowIsNotBefore(rows: seq<Entry>, e: Entry)
    ensures Predecessor(rows + [e], e) == Predecessor(rows, e)
  {
    assert (rows + [e])[..|rows|] == rows;
  }

  /** The log after writing `es` one after another. */
  function LogAll(c: Codec, es: seq<Entry>): (rows: seq<Entry>)
    ensures |rows| == |es|
    ensures forall i | 0 <= i < |es| :: rows[i].(checksum := None) == es[i].(checksum := None)
  {
    if es == [] then []
    else
      var rows := LogAll(c, es[..|es| - 1]);
      rows + [Seal(c, rows, es[|es| - 1])]
  }

  ghost predicate Increasing(es: seq<Entry>) {
    forall i, j | 0 <= i < j < |es| :: Before(es[i], es[j])
  }

  lemma {:induction false} PredecessorIsLast(rows: seq<Entry>, e: Entry)
    requires Increasing(rows + [e])
    ensures Predecessor(rows, e) == if rows == [] then None else Some(rows[|rows| - 1])
  {
    if rows != [] {
      var last := rows[|rows| - 1];
      var all := rows + [e];
      assert Before(all[|rows| - 1], all[|rows|]);
      var rest := Predecessor(rows[..|rows| - 1], e);
      if rest.Some? {
        var k :| 0 <= k < |rows| - 1 && rows[k] == rest.value;
        assert Before(all[k], all[|rows| - 1]);
      }
    }
  }

  lemma {:induction false} AppendKeepsLinks(c: Codec, rows: seq<Entry>, e: Entry)
    requires AllLinked(c, rows)
    requires e.checksum == Some(ComputeChecksum(c, PrevChecksum(rows, |rows|), e))
    ensures AllLinked(c, rows + [e])
  {
    hide ComputeChecksum;
    var all := rows + [e];
    forall i | 0 <= i < |all| ensures LinkOk(c, all, i) {
      assert PrevChecksum(all, i) == PrevChecksum(rows, i);
      if i < |rows| {
        assert LinkOk(c, rows, i);
      }
    }
  }

  lemma {:induction false} SealContinues(c: Codec, rows: seq<Entry>, e: Entry)
    requires Increasing(rows + [e])
    ensures Seal(c, rows, e).checksum == Some(ComputeChecksum(c, PrevChecksum(rows, |rows|), Seal(c, rows, e)))
  {
    PredecessorIsLast(rows, e);
    hide Predecessor;
  }

  /** Every log written in (time, id) order is a sound chain. */
  lemma {:induction false} WrittenInOrderIsLinked(c: Codec, es: seq<Entry>)
    requires Increasing(es)
    ensures AllLinked(c, LogAll(c, es))
  {
    hide AllLinked, Seal, ComputeChecksum;
    if es == [] {
      NothingToLink(c);
    } else {
      var n := |es| - 1;
      WrittenInOrderIsLinked(c, es[..n]);
      KeysIncrease(c, es);
      var rows := LogAll(c, es[..n]);
      SealContinues(c, rows, es[n]);
      AppendKeepsLinks(c, rows, Seal(c, rows, es[n]));
    }
  }

  lemma {:induction false} NothingToLink(c: Codec)
    ensures AllLinked(c, [])
  {
  }

  lemma {:induction false} KeysIncrease(c: Codec, es: seq<Entry>)
    requires Increasing(es) && es != []
    ensures Increasing(LogAll(c, es[..|es| - 1]) + [es[|es| - 1]])
  {
    var n := |es| - 1;
    var rows := LogAll(c, es[..n]);
    var all := rows + [es[n]];
    forall i | 0 <= i < |all| ensures all[i].createdAt == es[i].createdAt && all[i].id == es[i].id {
      if i < n {
        assert rows[i].(checksum := None) == es[..n][i].(checksum := None);
      }
    }
    forall i, j | 0 <= i < j < |all| ensures Before(all[i], all[j]) {
      assert Before(es[i], es[j]);
    }
  }

  ghost predicate StrictTimes(rows: seq<Entry>) {
    forall i, j | 0 <= i < j < |rows| :: rows[i].createdAt < rows[j].createdAt
  }

  ghost predicate SortedByTime(rows: seq<Entry>) {
    forall i, j | 0 <= i < j < |rows| :: rows[i].createdAt <= rows[j].createdAt
  }

  lemma {:induction false} FirstIsEarliest(rows: seq<Entry>, answer: seq<Entry>)
    requires StrictTimes(rows) && SortedByTime(answer) && rows != [] && answer != []
    requires rows[0] in answer && answer[0] in rows
    ensures answer[0] == rows[0]
  {
    var k :| 0 <= k < |answer| && answer[k] == rows[0];
    var m :| 0 <= m < |rows| && rows[m] == answer[0];
    assert answer[0].createdAt <= answer[k].createdAt;
  }

  lemma {:induction false} SameElements<T>(a: seq<T>, b: seq<T>)
    requires multiset(a) == multiset(b) && a != []
    ensures b != [] && a[0] in b && b[0] in a
  {
    assert |multiset(b)| == |b|;
    assert a[0] in multiset(a) && a[0] in multiset(b);
    assert b[0] in multiset(b);
  }

  lemma {:induction false} SameTails<T>(a: seq<T>, b: seq<T>)
    requires multiset(a) == multiset(b) && a != [] && b != [] && a[0] == b[0]
    ensures multiset(a[1..]) == multiset(b[1..])
  {
    TailElements(a);
    TailElements(b);
  }

  lemma {:induction false} TailElements<T>(a: seq<T>)
    requires a != []
    ensures multiset(a[1..]) == multiset(a) - multiset{a[0]}
  {
    assert a == [a[0]] + a[1..];
  }

  /** With strictly increasing times, ordering by `created_at` can only give the insertion order. */
  lemma {:induction false} TimeOrderIsInsertionOrder(rows: seq<Entry>, answer: seq<Entry>)
    requires StrictTimes(rows) && SortedByTime(answer) && multiset(answer) == multiset(rows)
    ensures answer == rows
  {
    if rows == [] {
      assert |multiset(answer)| == |answer|;
    } else {
      SameElements(rows, answer);
      FirstIsEarliest(rows, answer);
      SameTails(rows, answer);
      TimeOrderIsInsertionOrder(rows[1..], answer[1..]);
      assert rows == [rows[0]] + rows[1..] && answer == [answer[0]] + answer[1..];
    }
  }

  /** Any log written at strictly increasing times passes `verifyIntegrity`. */
  lemma {:induction false} HonestLogVerifies(c: Codec, es: seq<Entry>, answer: seq<Entry>)
    requires StrictTimes(es)
    requires SortedByTime(answer) && multiset(answer) == multiset(LogAll(c, es))
    ensures AllLinked(c, answer)
  {
    var rows := LogAll(c, es);
    forall i, j | 0 <= i < j < |rows| ensures rows[i].createdAt < rows[j].createdAt {
      assert rows[i].(checksum := None) == es[i].(checksum := None);
      assert rows[j].(checksum := None) == es[j].(checksum := None);
      assert es[i].createdAt < es[j].createdAt;
    }
    TimeOrderIsInsertionOrder(rows, answer);
    forall i, j | 0 <= i < j < |es| ensures Before(es[i], es[j]) {
      assert es[i].createdAt < es[j].createdAt;
    }
    WrittenInOrderIsLinked(c, es);
  }

  // ---- tampering -----------------------------------------------------------

  function FirstBar(s: string): nat {
    if s == "" || s[0] == '|' then 0 else 1 + FirstBar(s[1..])
  }

  lemma {:induction false} FirstBarEnds(a: string, x: string)
    requires NoBar(a)
    ensures FirstBar(Bar(a, x)) == |a|
  {
    if a != "" {
      assert a[0] in a && NoBar(a[1..]);
      FirstBarEnds(a[1..], x);
      assert Bar(a, x)[1..] == Bar(a[1..], x);
    }
  }

  /** Text up to a bar determines the part before it. */
  lemma {:induction false} BarSplits(a: string, x: string, b: string, y: string)
    requires NoBar(a) && NoBar(b) && Bar(a, x) == Bar(b, y)
    ensures a == b && x == y
  {
    FirstBarEnds(a, x);
    FirstBarEnds(b, y);
    var s := Bar(a, x);
    assert a == s[..|a|] && b == s[..|b|];
    assert x == s[|a| + 1..] && y == s[|b| + 1..];
  }

  lemma {:induction false} BarCancelsLeft(a: string, x: string, y: string)
    requires Bar(a, x) == Bar(a, y)
    ensures x == y
  {
    assert x == Bar(a, x)[|a| + 1..] && y == Bar(a, y)[|a| + 1..];
  }

  lemma {:induction false} BarCancelsRight(x: string, y: string, b: string)
    requires Bar(x, b) == Bar(y, b)
    ensures x == y
  {
    assert |x| == |y|;
    assert x == Bar(x, b)[..|x|] && y == Bar(y, b)[..|y|];
  }

  lemma {:induction false} ChecksumPinsText(c: Codec, prev: string, e: Entry, f: Entry)
    requires Sound(c) && e.id == f.id
    ensures ComputeChecksum(c, prev, e) == ComputeChecksum(c, prev, f) <==> Text(c, e) == Text(c, f)
  {
    if c.mac(Payload(c, prev, e)) == c.mac(Payload(c, prev, f)) {
      assert Payload(c, prev, e) == Payload(c, prev, f);
      BarCancelsLeft(prev, Bar(c.idText(e.id), Text(c, e)), Bar(c.idText(f.id), Text(c, f)));
      BarCancelsLeft(c.idText(e.id), Text(c, e), Text(c, f));
    }
  }

  /** What the query may answer: the rows in any order that does not decrease in time. */
  ghost predicate IsAnswer(answer: seq<Entry>, rows: seq<Entry>) {
    SortedByTime(answer) && multiset(answer) == multiset(rows)
  }

  /**
   * Rewriting a row under its old checksum, so that the times still increase, is found exactly
   * when the text that actor, action and date join to changes, and then at that very row.
   */
  lemma {:induction false} EditDetectedIff(c: Codec, rows: seq<Entry>, k: nat, f: Entry, answer: seq<Entry>)
    requires Sound(c) && AllLinked(c, rows) && k < |rows|
    requires f.id == rows[k].id && f.checksum == rows[k].checksum
    requires StrictTimes(rows[k := f]) && IsAnswer(answer, rows[k := f])
    ensures if Text(c, f) != Text(c, rows[k]) then BreaksFirstAt(c, answer, k) else AllLinked(c, answer)
  {
    var edited := rows[k := f];
    TimeOrderIsInsertionOrder(edited, answer);
    forall i | 0 <= i < |rows| && i != k ensures LinkOk(c, edited, i) {
      assert LinkOk(c, rows, i) && PrevChecksum(edited, i) == PrevChecksum(rows, i);
    }
    assert LinkOk(c, rows, k) && PrevChecksum(edited, k) == PrevChecksum(rows, k);
    ChecksumPinsText(c, PrevChecksum(rows, k), rows[k], f);
  }

  /** Text after the last bar determines the part behind it. */
  lemma {:induction false} BarSplitsRight(x: string, a: string, y: string, b: string)
    requires NoBar(a) && NoBar(b) && Bar(x, a) == Bar(y, b)
    ensures x == y && a == b
  {
    var s, t := Bar(x, a), Bar(y, b);
    BarsAlign(x, a, y, b);
    assert x == s[..|x|] && y == t[..|y|];
    assert a == s[|x| + 1..] && b == t[|y| + 1..];
  }

  lemma {:induction false} BarsAlign(x: string, a: string, y: string, b: string)
    requires NoBar(a) && NoBar(b) && Bar(x, a) == Bar(y, b)
    ensures |x| == |y|
  {
    LastBarStarts(x, a);
    LastBarStarts(y, b);
  }

  function LastBar(s: string): nat {
    if s == "" then 0 else if s[|s| - 1] == '|' then |s| - 1 else LastBar(s[..|s| - 1])
  }

  lemma {:induction false} LastBarStarts(x: string, a: string)
    requires NoBar(a)
    ensures LastBar(Bar(x, a)) == |x|
  {
    var s := Bar(x, a);
    if a != "" {
      var n := |a| - 1;
      assert a[n] in a && s[|s| - 1] == a[n];
      LastBarStarts(x, a[..n]);
      assert s[..|s| - 1] == Bar(x, a[..n]);
    }
  }

  /** The date is always part of what is covered; with no bar in the actor so are actor and action. */
  lemma {:induction false} TextPinsFields(c: Codec, e: Entry, f: Entry)
    requires Sound(c)
    ensures Text(c, e) == Text(c, f) ==> e.createdAt == f.createdAt
    ensures NoBar(e.actor) && NoBar(f.actor) ==>
              (Text(c, e) == Text(c, f) <==> e.actor == f.actor && e.action == f.action && e.createdAt == f.createdAt)
  {
    if Text(c, e) == Text(c, f) {
      BarSplitsRight(Bar(e.actor, e.action), c.iso(e.createdAt), Bar(f.actor, f.action), c.iso(f.createdAt));
      if NoBar(e.actor) && NoBar(f.actor) {
        BarSplits(e.actor, e.action, f.actor, f.action);
      }
    }
  }

  /** With a bar in the actor it does not: the bar can move between actor and action. */
  lemma {:induction false} BarCanMove(c: Codec, e: Entry, a: string, b: string, d: string)
    ensures Text(c, e.(actor := Bar(a, b), action := d)) == Text(c, e.(actor := a, action := Bar(b, d)))
  {
    assert Bar(Bar(a, b), d) == Bar(a, Bar(b, d));
  }

  /** Consecutive checksums differ, because the ids do. */
  lemma {:induction false} ChecksumsDiffer(c: Codec, rows: seq<Entry>, k: nat)
    requires Sound(c) && AllLinked(c, rows) && k < |rows|
    requires k > 0 ==> rows[k - 1].id != rows[k].id
    ensures rows[k].checksum.Some? && rows[k].checksum.value != PrevChecksum(rows, k)
  {
    assert LinkOk(c, rows, k);
    if k > 0 && rows[k].checksum.value == PrevChecksum(rows, k) {
      assert LinkOk(c, rows, k - 1);
      var p, q := PrevChecksum(rows, k), PrevChecksum(rows, k - 1);
      assert Payload(c, p, rows[k]) == Payload(c, q, rows[k - 1]);
      assert NoBar(q) by {
        if k > 1 {
          assert LinkOk(c, rows, k - 2);
        }
      }
      BarSplits(p, Bar(c.idText(rows[k].id), Text(c, rows[k])), q, Bar(c.idText(rows[k - 1].id), Text(c, rows[k - 1])));
      BarSplits(c.idText(rows[k].id), Text(c, rows[k]), c.idText(rows[k - 1].id), Text(c, rows[k - 1]));
    }
  }

  /** Deleting any row but the last is found at the row that followed it; deleting the last is not found. */
  lemma {:induction false} DeletionDetectedIff(c: Codec, rows: seq<Entry>, k: nat, answer: seq<Entry>)
    requires Sound(c) && AllLinked(c, rows) && StrictTimes(rows) && k < |rows|
    requires k > 0 ==> rows[k - 1].id != rows[k].id
    requires IsAnswer(answer, rows[..k] + rows[k + 1..])
    ensures if k + 1 < |rows| then BreaksFirstAt(c, answer, k) else AllLinked(c, answer)
  {
    var left := rows[..k] + rows[k + 1..];
    GapKeepsTimes(rows, k);
    TimeOrderIsInsertionOrder(left, answer);
    forall i | 0 <= i < k ensures LinkOk(c, left, i) {
      assert LinkOk(c, rows, i) && left[i] == rows[i] && PrevChecksum(left, i) == PrevChecksum(rows, i);
    }
    if k + 1 < |rows| {
      ChecksumsDiffer(c, rows, k);
      assert LinkOk(c, rows, k + 1) && left[k] == rows[k + 1];
      assert PrevChecksum(left, k) == PrevChecksum(rows, k);
      ChecksumPinsPrev(c, PrevChecksum(rows, k), PrevChecksum(rows, k + 1), left[k]);
    }
  }

  lemma {:induction false} GapKeepsTimes(rows: seq<Entry>, k: nat)
    requires StrictTimes(rows) && k < |rows|
    ensures StrictTimes(rows[..k] + rows[k + 1..])
  {
    var left := rows[..k] + rows[k + 1..];
    forall i, j | 0 <= i < j < |left| ensures left[i].createdAt < left[j].createdAt {
      var i', j' := if i < k then i else i + 1, if j < k then j else j + 1;
      assert left[i] == rows[i'] && left[j] == rows[j'];
    }
  }

  lemma {:induction false} ChecksumPinsPrev(c: Codec, p: string, q: string, e: Entry)
    requires Sound(c) && p != q
    ensures ComputeChecksum(c, p, e) != ComputeChecksum(c, q, e)
  {
    if Payload(c, p, e) == Payload(c, q, e) {
      BarCancelsRight(p, q, Bar(c.idText(e.id), Text(c, e)));
    }
  }
}
