/** The audit chain when rows share an instant, are moved in time, or are written at once. */
module AuditOrder {
  import opened Prelude
  import opened AuditLog

  ghost predicate DistinctIds(rows: seq<Entry>) {
    forall i, j | 0 <= i < j < |rows| :: rows[i].id != rows[j].id
  }

  /** Equal checksums come from equal rows behind equal predecessors. */
  lemma {:induction false} ChecksumPinsAll(c: Codec, p: string, e: Entry, q: string, f: Entry)
    requires Sound(c) && NoBar(p) && NoBar(q) && ComputeChecksum(c, p, e) == ComputeChecksum(c, q, f)
    ensures p == q && e.id == f.id && Text(c, e) == Text(c, f)
  {
    assert Payload(c, p, e) == Payload(c, q, f);
    BarSplits(p, Bar(c.idText(e.id), Text(c, e)), q, Bar(c.idText(f.id), Text(c, f)));
    BarSplits(c.idText(e.id), Text(c, e), c.idText(f.id), Text(c, f));
  }

  /** In a chain every checksum but the one before the first row is a keyed hash. */
  lemma {:induction false} PrevIsHash(c: Codec, rows: seq<Entry>, k: nat)
    requires Sound(c) && AllLinked(c, rows) && k <= |rows|
    ensures NoBar(PrevChecksum(rows, k)) && (k > 0 ==> PrevChecksum(rows, k) != "")
    ensures k > 0 ==> rows[k - 1].checksum == Some(PrevChecksum(rows, k))
  {
    if k > 0 {
      assert LinkOk(c, rows, k - 1);
    }
  }

  // ---- which orders verify -------------------------------------------------

  /** Each row was sealed over the rows written before it. */
  lemma {:induction false} SealedOverEarlier(c: Codec, es: seq<Entry>, j: nat)
    requires j < |es|
    ensures LogAll(c, es)[..j] == LogAll(c, es[..j])
    ensures LogAll(c, es)[j] == Seal(c, LogAll(c, es[..j]), es[j])
  {
    hide Seal;
    var n := |es| - 1;
    var rows := LogAll(c, es[..n]);
    assert LogAll(c, es) == rows + [Seal(c, rows, es[n])];
    if j < n {
      SealedOverEarlier(c, es[..n], j);
      assert es[..n][..j] == es[..j];
      assert LogAll(c, es)[..j] == rows[..j];
    } else {
      assert LogAll(c, es)[..j] == rows;
    }
  }

  /** The checksum a row was sealed over: that of the row before it in (time, id) order, if any. */
  function SealedOver(c: Codec, es: seq<Entry>, j: nat): string
    requires j < |es|
  {
    var prev := Predecessor(LogAll(c, es[..j]), es[j]);
    if prev.Some? && prev.value.checksum.Some? then prev.value.checksum.value else ""
  }

  lemma {:induction false} SealedChecksum(c: Codec, es: seq<Entry>, j: nat)
    requires j < |es|
    ensures LogAll(c, es)[j].checksum == Some(ComputeChecksum(c, SealedOver(c, es, j), LogAll(c, es)[j]))
    ensures LogAll(c, es)[j].id == es[j].id && LogAll(c, es)[j].createdAt == es[j].createdAt
  {
    SealedOverEarlier(c, es, j);
    hide Predecessor, LogAll;
  }

  /** A row was sealed over an earlier row that comes before it in (time, id) order, or over nothing. */
  lemma {:induction false} SealedOverRow(c: Codec, es: seq<Entry>, j: nat) returns (m: nat)
    requires Sound(c) && j < |es| && SealedOver(c, es, j) != ""
    ensures m < j && LogAll(c, es)[m].checksum == Some(SealedOver(c, es, j)) && Before(es[m], es[j])
  {
    var earlier := LogAll(c, es[..j]);
    var x := Predecessor(earlier, es[j]).value;
    m :| 0 <= m < |earlier| && earlier[m] == x;
    SealedOverEarlier(c, es, j);
    assert LogAll(c, es)[m] == LogAll(c, es)[..j][m];
    hide Predecessor;
    SealedChecksum(c, es, m);
  }

  lemma {:induction false} SealedOverIsHash(c: Codec, es: seq<Entry>, j: nat)
    requires Sound(c) && j < |es|
    ensures NoBar(SealedOver(c, es, j))
  {
    hide SealedOver, LogAll;
    if SealedOver(c, es, j) != "" {
      var m := SealedOverRow(c, es, j);
      SealedChecksum(c, es, m);
    }
  }

  /** Where a chain of the log's rows goes from one row to the next, it goes forward in writing and in (time, id). */
  lemma {:induction false} ChainGoesForward(c: Codec, es: seq<Entry>, answer: seq<Entry>, k: nat, i: nat, j: nat)
    requires Sound(c) && DistinctIds(es) && AllLinked(c, answer)
    requires 0 < k < |answer| && i < |es| && j < |es|
    requires answer[k - 1] == LogAll(c, es)[i] && answer[k] == LogAll(c, es)[j]
    ensures i < j && Before(es[i], es[j])
  {
    hide LogAll, SealedOver, Before;
    var rows := LogAll(c, es);
    PrevIsHash(c, answer, k);
    assert LinkOk(c, answer, k);
    SealedChecksum(c, es, j);
    SealedOverIsHash(c, es, j);
    ChecksumPinsAll(c, PrevChecksum(answer, k), answer[k], SealedOver(c, es, j), answer[k]);
    var m := SealedOverRow(c, es, j);
    SealedChecksum(c, es, m);
    SealedChecksum(c, es, i);
    SealedOverIsHash(c, es, m);
    SealedOverIsHash(c, es, i);
    ChecksumPinsAll(c, SealedOver(c, es, m), rows[m], SealedOver(c, es, i), rows[i]);
    assert m == i;
  }

  lemma {:induction false} RowOfAnswer(answer: seq<Entry>, rows: seq<Entry>, k: nat) returns (j: nat)
    requires multiset(answer) == multiset(rows) && k < |answer|
    ensures |answer| == |rows| && j < |rows| && rows[j] == answer[k]
  {
    assert |multiset(answer)| == |answer| && |multiset(rows)| == |rows|;
    assert answer[k] in multiset(rows);
    j :| 0 <= j < |rows| && rows[j] == answer[k];
  }

  lemma {:induction false} NotEarlier(c: Codec, es: seq<Entry>, answer: seq<Entry>, k: nat, j: nat)
    requires Sound(c) && DistinctIds(es) && AllLinked(c, answer) && multiset(answer) == multiset(LogAll(c, es))
    requires k < |answer| && j < |es| && answer[k] == LogAll(c, es)[j]
    ensures j >= k
  {
    hide LogAll, AllLinked, Before;
    if k > 0 {
      var i := RowOfAnswer(answer, LogAll(c, es), k - 1);
      ChainGoesForward(c, es, answer, k, i, j);
      NotEarlier(c, es, answer, k - 1, i);
    }
  }

  lemma {:induction false} NotLater(c: Codec, es: seq<Entry>, answer: seq<Entry>, k: nat, j: nat)
    requires Sound(c) && DistinctIds(es) && AllLinked(c, answer) && multiset(answer) == multiset(LogAll(c, es))
    requires |answer| == |es| && k < |answer| && j < |es| && answer[k] == LogAll(c, es)[j]
    ensures j <= k
    decreases |answer| - k
  {
    hide LogAll, AllLinked, Before;
    if k + 1 < |answer| {
      var next := RowOfAnswer(answer, LogAll(c, es), k + 1);
      ChainGoesForward(c, es, answer, k + 1, j, next);
      NotLater(c, es, answer, k + 1, next);
    }
  }

  /** An order of the log's rows that verifies is the order they were written in. */
  lemma {:induction false} OnlyWritingOrderVerifies(c: Codec, es: seq<Entry>, answer: seq<Entry>)
    requires Sound(c) && DistinctIds(es) && AllLinked(c, answer) && multiset(answer) == multiset(LogAll(c, es))
    ensures answer == LogAll(c, es) && Increasing(es)
  {
    var rows := LogAll(c, es);
    assert |multiset(answer)| == |answer| && |multiset(rows)| == |rows|;
    hide LogAll, AllLinked, Before, Increasing, Sound, DistinctIds;
    forall k | 0 <= k < |answer| ensures answer[k] == rows[k] {
      var j := RowOfAnswer(answer, rows, k);
      NotEarlier(c, es, answer, k, j);
      NotLater(c, es, answer, k, j);
    }
    assert answer == rows;
    forall k | 0 < k < |es| ensures Before(es[k - 1], es[k]) {
      ChainGoesForward(c, es, answer, k, k - 1, k);
    }
    StepsIncrease(es);
  }

  lemma {:induction false} StepsIncrease(es: seq<Entry>)
    requires forall k | 0 < k < |es| :: Before(es[k - 1], es[k])
    ensures Increasing(es)
  {
    if es != [] {
      var n := |es| - 1;
      var init := es[..n];
      assert forall k | 0 < k < |init| :: Before(init[k - 1], init[k]);
      StepsIncrease(init);
      forall i, j | 0 <= i < j < |es| ensures Before(es[i], es[j]) {
        if j < n {
          assert Before(init[i], init[j]);
        } else if i < n - 1 {
          assert Before(init[i], init[n - 1]);
        }
      }
    }
  }

  lemma {:induction false} IncreasingIsAnswer(c: Codec, es: seq<Entry>)
    requires SortedByTime(es)
    ensures IsAnswer(LogAll(c, es), LogAll(c, es))
  {
    var rows := LogAll(c, es);
    forall i, j | 0 <= i < j < |rows| ensures rows[i].createdAt <= rows[j].createdAt {
      SealedChecksum(c, es, i);
      SealedChecksum(c, es, j);
      assert es[i].createdAt <= es[j].createdAt;
    }
  }

  /** Some order the query may return verifies if and only if the log was written in (time, id) order. */
  lemma {:induction false} SomeAnswerVerifiesIff(c: Codec, es: seq<Entry>)
    requires Sound(c) && DistinctIds(es)
    ensures (exists answer :: IsAnswer(answer, LogAll(c, es)) && AllLinked(c, answer)) <==> Increasing(es)
  {
    hide LogAll, AllLinked, Sound;
    if Increasing(es) {
      WrittenInOrderIsLinked(c, es);
      IncreasingIsAnswer(c, es);
    }
    if answer :| IsAnswer(answer, LogAll(c, es)) && AllLinked(c, answer) {
      OnlyWritingOrderVerifies(c, es, answer);
    }
  }

  function Swapped<T>(s: seq<T>, k: nat): (r: seq<T>)
    requires k + 1 < |s|
    ensures |r| == |s|
  {
    s[..k] + [s[k + 1], s[k]] + s[k + 2..]
  }

  lemma {:induction false} SwappedKeeps<T>(s: seq<T>, k: nat)
    requires k + 1 < |s|
    ensures multiset(Swapped(s, k)) == multiset(s)
    ensures Swapped(s, k)[k] == s[k + 1] && Swapped(s, k)[k + 1] == s[k]
    ensures forall i | 0 <= i < |s| && i != k && i != k + 1 :: Swapped(s, k)[i] == s[i]
  {
    assert s == s[..k] + [s[k], s[k + 1]] + s[k + 2..];
  }

  lemma {:induction false} SwapKeepsOrder(rows: seq<Entry>, k: nat)
    requires SortedByTime(rows) && k + 1 < |rows| && rows[k].createdAt == rows[k + 1].createdAt
    ensures SortedByTime(Swapped(rows, k))
  {
    var swapped := Swapped(rows, k);
    SwappedKeeps(rows, k);
    hide Swapped;
    forall i | 0 <= i < |rows| ensures swapped[i].createdAt == rows[i].createdAt {
    }
  }

  /** Two neighbours of one instant may be returned either way round. */
  lemma {:induction false} SwapIsAnswer(c: Codec, es: seq<Entry>, k: nat)
    requires SortedByTime(es) && k + 1 < |es| && es[k].createdAt == es[k + 1].createdAt
    ensures IsAnswer(Swapped(LogAll(c, es), k), LogAll(c, es))
  {
    hide LogAll, Swapped, SortedByTime;
    IncreasingIsAnswer(c, es);
    SealedChecksum(c, es, k);
    SealedChecksum(c, es, k + 1);
    SwapKeepsOrder(LogAll(c, es), k);
    SwappedKeeps(LogAll(c, es), k);
  }

  lemma {:induction false} StrictSteps(es: seq<Entry>)
    requires SortedByTime(es) && forall k | 0 <= k < |es| - 1 :: es[k].createdAt != es[k + 1].createdAt
    ensures StrictTimes(es)
  {
    forall i, j | 0 <= i < j < |es| ensures es[i].createdAt < es[j].createdAt {
      assert es[i].createdAt <= es[i + 1].createdAt;
      if i + 1 < j {
        assert es[i + 1].createdAt <= es[j].createdAt;
      }
    }
  }

  /** For a log written at non-decreasing times: every order the query may return verifies if and only if the times strictly increase. */
  lemma {:induction false} EveryAnswerVerifiesIff(c: Codec, es: seq<Entry>)
    requires Sound(c) && DistinctIds(es) && SortedByTime(es)
    ensures (forall answer | IsAnswer(answer, LogAll(c, es)) :: AllLinked(c, answer)) <==> StrictTimes(es)
  {
    hide LogAll, AllLinked, Sound, Increasing;
    var rows := LogAll(c, es);
    if StrictTimes(es) {
      forall answer | IsAnswer(answer, rows) ensures AllLinked(c, answer) {
        HonestLogVerifies(c, es, answer);
      }
    } else {
      if forall k | 0 <= k < |es| - 1 :: es[k].createdAt != es[k + 1].createdAt {
        StrictSteps(es);
      }
      var k :| 0 <= k < |es| - 1 && es[k].createdAt == es[k + 1].createdAt;
      var swapped := Swapped(rows, k);
      SwappedKeeps(rows, k);
      SwapIsAnswer(c, es, k);
      SealedChecksum(c, es, k);
      SealedChecksum(c, es, k + 1);
      assert swapped[k].id != rows[k].id;
      if AllLinked(c, swapped) {
        OnlyWritingOrderVerifies(c, es, swapped);
      }
    }
  }

  // ---- a row moved in time -------------------------------------------------

  /** A row whose date is changed under its old checksum breaks the chain, wherever it ends up in the query's order. */
  lemma {:induction false} DateEditDetected(c: Codec, rows: seq<Entry>, k: nat, f: Entry, answer: seq<Entry>)
    requires Sound(c) && AllLinked(c, rows) && k < |rows|
    requires f.id == rows[k].id && f.checksum == rows[k].checksum && f.createdAt != rows[k].createdAt
    requires multiset(answer) == multiset(rows[k := f])
    ensures !AllLinked(c, answer)
  {
    if AllLinked(c, answer) {
      var edited := rows[k := f];
      assert f == edited[k];
      assert f in multiset(edited);
      var m :| 0 <= m < |answer| && answer[m] == f;
      PrevIsHash(c, answer, m);
      PrevIsHash(c, rows, k);
      assert LinkOk(c, answer, m) && LinkOk(c, rows, k);
      ChecksumPinsAll(c, PrevChecksum(answer, m), f, PrevChecksum(rows, k), rows[k]);
      TextPinsFields(c, f, rows[k]);
    }
  }

  // ---- rows written at once ------------------------------------------------

  /**
   * `log` awaits three times: it saves the row without its checksum, queries the checksum of
   * the row before, and saves the row again with its own. Calls may overlap at each await.
   */
  datatype LogStep = Insert(e: Entry) | Read(i: nat) | Save(i: nat)

  /** What has happened to a row after its insertion. */
  datatype Deed = DidRead(i: nat) | DidSave(i: nat)

  /** The table, the predecessor checksum each call has read, and the deeds in order. */
  datatype Writing = Writing(rows: seq<Entry>, read: map<nat, string>, deeds: seq<Deed>)

  const Blank := Writing([], map[], [])

  /** What the query for the row before returns. */
  function PrevFound(rows: seq<Entry>, i: nat): string
    requires i < |rows|
  {
    var prev := Predecessor(rows, rows[i]);
    if prev.Some? && prev.value.checksum.Some? then prev.value.checksum.value else ""
  }

  function NextWriting(c: Codec, w: Writing, step: LogStep): Writing {
    match step
    case Insert(e) => w.(rows := w.rows + [e])
    case Read(i) =>
      if i < |w.rows| then w.(read := w.read[i := PrevFound(w.rows, i)], deeds := w.deeds + [DidRead(i)]) else w
    case Save(i) =>
      if i < |w.rows| && i in w.read then
        w.(rows := w.rows[i := w.rows[i].(checksum := Some(ComputeChecksum(c, w.read[i], w.rows[i])))],
           deeds := w.deeds + [DidSave(i)])
      else w
  }

  /** Rows come in (time, id) order, and each is read for once and then saved once. */
  ghost predicate ValidStep(w: Writing, step: LogStep) {
    match step
    case Insert(e) => e.checksum.None? && Increasing(w.rows + [e])
    case Read(i) => i < |w.rows| && i !in w.read
    case Save(i) => i in w.read && DidSave(i) !in w.deeds
  }

  ghost predicate Precedes(deeds: seq<Deed>, a: Deed, b: Deed) {
    exists p, q :: 0 <= p < q < |deeds| && deeds[p] == a && deeds[q] == b
  }

  /** The row was read for after the row before it had been saved. */
  ghost predicate ReadAfterPrevious(deeds: seq<Deed>, i: nat) {
    i > 0 ==> Precedes(deeds, DidSave(i - 1), DidRead(i))
  }

  /** What a call has read: the checksum of the row before if that was saved by then, else nothing. */
  ghost predicate ReadFits(w: Writing, i: nat) {
    && i < |w.rows| && i in w.read
    && w.read[i] == if i > 0 && Precedes(w.deeds, DidSave(i - 1), DidRead(i)) && w.rows[i - 1].checksum.Some?
                    then w.rows[i - 1].checksum.value else ""
  }

  ghost predicate RowFits(c: Codec, w: Writing, i: nat)
    requires i < |w.rows|
  {
    w.rows[i].checksum ==
    if DidSave(i) in w.deeds && i in w.read then Some(ComputeChecksum(c, w.read[i], w.rows[i])) else None
  }

  ghost predicate DeedsFit(w: Writing) {
    forall i: nat ::
      && (i in w.read <==> DidRead(i) in w.deeds) && (DidSave(i) in w.deeds ==> i in w.read)
      && (i in w.read ==> i < |w.rows|)
  }

  ghost predicate WritingFits(c: Codec, w: Writing) {
    && Increasing(w.rows) && DeedsFit(w)
    && (forall i | i in w.read :: ReadFits(w, i))
    && (forall i | 0 <= i < |w.rows| :: RowFits(c, w, i))
  }

  lemma {:induction false} KeysFollowPositions(rows: seq<Entry>, a: nat, b: nat)
    requires Increasing(rows) && a < |rows| && b < |rows|
    ensures Before(rows[a], rows[b]) <==> a < b
  {
  }

  lemma {:induction false} PredecessorAt(rows: seq<Entry>, i: nat)
    requires Increasing(rows) && i < |rows|
    ensures Predecessor(rows, rows[i]) == if i == 0 then None else Some(rows[i - 1])
  {
    var r := Predecessor(rows, rows[i]);
    if i > 0 {
      assert Before(rows[i - 1], rows[i]) && rows[i - 1] in rows;
    }
    if r.Some? {
      var m :| 0 <= m < |rows| && rows[m] == r.value;
      KeysFollowPositions(rows, m, i);
      if i > 0 {
        KeysFollowPositions(rows, m, i - 1);
      }
    }
  }

  lemma {:induction false} PrecedesAfter(deeds: seq<Deed>, x: Deed, a: Deed, b: Deed)
    requires x !in deeds
    ensures Precedes(deeds + [x], a, b) <==> Precedes(deeds, a, b) || (b == x && a in deeds)
    ensures Precedes(deeds, a, b) ==> a in deeds && b in deeds
  {
    var all := deeds + [x];
    if Precedes(deeds, a, b) {
      var p, q :| 0 <= p < q < |deeds| && deeds[p] == a && deeds[q] == b;
      assert all[p] == a && all[q] == b;
    }
    if b == x && a in deeds {
      var p :| 0 <= p < |deeds| && deeds[p] == a;
      assert all[p] == a && all[|deeds|] == b;
    }
    if Precedes(all, a, b) {
      var p, q :| 0 <= p < q < |all| && all[p] == a && all[q] == b;
      assert deeds[p] == a;
      if q < |deeds| {
        assert deeds[q] == b;
      }
    }
  }

  lemma {:induction false} InsertFits(c: Codec, w: Writing, e: Entry)
    requires WritingFits(c, w) && ValidStep(w, Insert(e))
    ensures WritingFits(c, NextWriting(c, w, Insert(e)))
  {
    hide Predecessor, ComputeChecksum, Precedes, Increasing;
    var w' := NextWriting(c, w, Insert(e));
    forall i | i in w'.read ensures ReadFits(w', i) {
      assert ReadFits(w, i);
    }
    forall i | 0 <= i < |w'.rows| ensures RowFits(c, w', i) {
      if i < |w.rows| {
        assert RowFits(c, w, i);
      }
    }
  }

  lemma {:induction false} ReadIsFound(c: Codec, w: Writing, i: nat)
    requires WritingFits(c, w) && ValidStep(w, Read(i))
    ensures ReadFits(NextWriting(c, w, Read(i)), i)
  {
    PredecessorAt(w.rows, i);
    hide Predecessor, ComputeChecksum, Precedes, Increasing;
    if i > 0 {
      PrecedesAfter(w.deeds, DidRead(i), DidSave(i - 1), DidRead(i));
      assert RowFits(c, w, i - 1);
    }
  }

  lemma {:induction false} OtherReadStays(c: Codec, w: Writing, i: nat, j: nat)
    requires WritingFits(c, w) && ValidStep(w, Read(i)) && j in w.read
    ensures ReadFits(NextWriting(c, w, Read(i)), j)
  {
    hide PrevFound, ComputeChecksum, Precedes, Increasing;
    assert ReadFits(w, j);
    if j > 0 {
      PrecedesAfter(w.deeds, DidRead(i), DidSave(j - 1), DidRead(j));
    }
  }

  lemma {:induction false} ReadStepFits(c: Codec, w: Writing, i: nat)
    requires WritingFits(c, w) && ValidStep(w, Read(i))
    ensures WritingFits(c, NextWriting(c, w, Read(i)))
  {
    hide PrevFound, ComputeChecksum, Increasing, ReadFits;
    var w' := NextWriting(c, w, Read(i));
    forall j | j in w'.read ensures ReadFits(w', j) {
      if j == i {
        ReadIsFound(c, w, i);
      } else {
        OtherReadStays(c, w, i, j);
      }
    }
    forall j | 0 <= j < |w'.rows| ensures RowFits(c, w', j) {
      assert RowFits(c, w, j);
    }
  }

  lemma {:induction false} SaveKeepsKeys(c: Codec, w: Writing, i: nat)
    requires Increasing(w.rows)
    ensures Increasing(NextWriting(c, w, Save(i)).rows)
  {
    hide ComputeChecksum;
    var w' := NextWriting(c, w, Save(i));
    forall a, b | 0 <= a < b < |w'.rows| ensures Before(w'.rows[a], w'.rows[b]) {
      assert Before(w.rows[a], w.rows[b]);
    }
  }

  /** The checksum does not depend on the checksum field of its own row. */
  lemma {:induction false} OwnChecksumIsNotCovered(c: Codec, p: string, e: Entry, sum: Option<string>)
    ensures ComputeChecksum(c, p, e.(checksum := sum)) == ComputeChecksum(c, p, e)
  {
  }

  lemma {:induction false} ReadStaysOverSave(c: Codec, w: Writing, i: nat, j: nat)
    requires WritingFits(c, w) && ValidStep(w, Save(i)) && j in w.read
    ensures ReadFits(NextWriting(c, w, Save(i)), j)
  {
    hide ComputeChecksum, Precedes, Increasing;
    assert ReadFits(w, j) && ReadFits(w, i);
    if j > 0 {
      PrecedesAfter(w.deeds, DidSave(i), DidSave(j - 1), DidRead(j));
    }
  }

  lemma {:induction false} RowFitsOverSave(c: Codec, w: Writing, i: nat, j: nat)
    requires WritingFits(c, w) && ValidStep(w, Save(i)) && j < |w.rows|
    ensures RowFits(c, NextWriting(c, w, Save(i)), j)
  {
    hide Increasing, ReadFits;
    assert RowFits(c, w, j);
    if j == i {
      OwnChecksumIsNotCovered(c, w.read[i], w.rows[i], Some(ComputeChecksum(c, w.read[i], w.rows[i])));
    }
    hide ComputeChecksum;
  }

  lemma {:induction false} SaveFits(c: Codec, w: Writing, i: nat)
    requires WritingFits(c, w) && ValidStep(w, Save(i))
    ensures WritingFits(c, NextWriting(c, w, Save(i)))
  {
    hide ComputeChecksum, Increasing, ReadFits, RowFits;
    SaveKeepsKeys(c, w, i);
    var w' := NextWriting(c, w, Save(i));
    forall j | j in w'.read ensures ReadFits(w', j) {
      ReadStaysOverSave(c, w, i, j);
    }
    forall j | 0 <= j < |w'.rows| ensures RowFits(c, w', j) {
      RowFitsOverSave(c, w, i, j);
    }
  }

  ghost predicate ValidWriting(c: Codec, w: Writing, steps: seq<LogStep>)
    decreases steps
  {
    steps == [] || (ValidStep(w, steps[0]) && ValidWriting(c, NextWriting(c, w, steps[0]), steps[1..]))
  }

  function RunWriting(c: Codec, w: Writing, steps: seq<LogStep>): Writing
    decreases steps
  {
    if steps == [] then w else RunWriting(c, NextWriting(c, w, steps[0]), steps[1..])
  }

  lemma {:induction false} RunFits(c: Codec, w: Writing, steps: seq<LogStep>)
    requires WritingFits(c, w) && ValidWriting(c, w, steps)
    ensures WritingFits(c, RunWriting(c, w, steps))
    decreases steps
  {
    hide WritingFits, NextWriting;
    if steps != [] {
      match steps[0] {
        case Insert(e) => InsertFits(c, w, e);
        case Read(i) => ReadStepFits(c, w, i);
        case Save(i) => SaveFits(c, w, i);
      }
      RunFits(c, NextWriting(c, w, steps[0]), steps[1..]);
    }
  }

  lemma {:induction false} BlankFits(c: Codec)
    ensures WritingFits(c, Blank)
  {
  }

  lemma {:induction false} LinkIff(c: Codec, w: Writing, i: nat)
    requires Sound(c) && WritingFits(c, w) && i < |w.rows|
    requires DidSave(i) in w.deeds && (i > 0 ==> DidSave(i - 1) in w.deeds)
    ensures LinkOk(c, w.rows, i) <==> ReadAfterPrevious(w.deeds, i)
  {
    hide Precedes, Increasing;
    assert RowFits(c, w, i) && ReadFits(w, i);
    if i > 0 {
      assert RowFits(c, w, i - 1) && ReadFits(w, i - 1);
      var prev := w.rows[i - 1].checksum.value;
      assert prev != "" && PrevChecksum(w.rows, i) == prev;
      if !Precedes(w.deeds, DidSave(i - 1), DidRead(i)) {
        ChecksumPinsPrev(c, "", prev, w.rows[i]);
      }
    }
  }

  /**
   * However the saves and queries of overlapping calls interleave, a table all of whose rows
   * carry their checksum verifies if and only if the query for each row came after the second
   * save of the row before it.
   */
  lemma {:induction false} OverlappingLogsVerifyIff(c: Codec, steps: seq<LogStep>)
    requires Sound(c) && ValidWriting(c, Blank, steps)
    requires
      var w := RunWriting(c, Blank, steps);
      forall i | 0 <= i < |w.rows| :: DidSave(i) in w.deeds
    ensures
      var w := RunWriting(c, Blank, steps);
      AllLinked(c, w.rows) <==> forall i | 0 <= i < |w.rows| :: ReadAfterPrevious(w.deeds, i)
  {
    hide RunWriting, ValidWriting, Increasing, ReadAfterPrevious, LinkOk, WritingFits;
    BlankFits(c);
    RunFits(c, Blank, steps);
    var w := RunWriting(c, Blank, steps);
    forall i | 0 <= i < |w.rows| ensures LinkOk(c, w.rows, i) <==> ReadAfterPrevious(w.deeds, i) {
      LinkIff(c, w, i);
    }
  }

  /** Two calls that both query before either saves again: the chain is broken, although their saves are in order. */
  lemma {:induction false} BothReadBeforeSaving(c: Codec, a: Entry, b: Entry)
    requires Sound(c) && a.checksum.None? && b.checksum.None? && Before(a, b)
    ensures
      var steps := [Insert(a), Insert(b), Read(0), Read(1), Save(0), Save(1)];
      var w := RunWriting(c, Blank, steps);
      && w.deeds == [DidRead(0), DidRead(1), DidSave(0), DidSave(1)]
      && |w.rows| == 2 && !AllLinked(c, w.rows)
  {
    var table := [a, b];
    assert Increasing(table);
    PredecessorAt(table, 0);
    PredecessorAt(table, 1);
    var x := a.(checksum := Some(ComputeChecksum(c, "", a)));
    var y := b.(checksum := Some(ComputeChecksum(c, "", b)));
    hide Predecessor, ComputeChecksum;
    var read := Writing(table, map[0 := "", 1 := ""], [DidRead(0), DidRead(1)]);
    var done := Writing([x, y], map[0 := "", 1 := ""], [DidRead(0), DidRead(1), DidSave(0), DidSave(1)]);
    TwoRows(c, a, b, read);
    TwoSaves(c, read, done, x, y);
    BrokenPair(c, a, b, x, y);
  }

  lemma {:induction false} BrokenPair(c: Codec, a: Entry, b: Entry, x: Entry, y: Entry)
    requires Sound(c)
    requires x == a.(checksum := Some(ComputeChecksum(c, "", a))) && y == b.(checksum := Some(ComputeChecksum(c, "", b)))
    ensures !AllLinked(c, [x, y])
  {
    OwnChecksumIsNotCovered(c, "", b, y.checksum);
    ChecksumPinsPrev(c, "", x.checksum.value, y);
    assert !LinkOk(c, [x, y], 1);
  }

  lemma {:induction false} TwoRows(c: Codec, a: Entry, b: Entry, read: Writing)
    requires a.checksum.None? && b.checksum.None?
    requires PrevFound([a, b], 0) == "" && PrevFound([a, b], 1) == ""
    requires read == Writing([a, b], map[0 := "", 1 := ""], [DidRead(0), DidRead(1)])
    ensures RunWriting(c, Blank, [Insert(a), Insert(b), Read(0), Read(1), Save(0), Save(1)])
         == RunWriting(c, read, [Save(0), Save(1)])
  {
    hide PrevFound, ComputeChecksum;
    var w2 := Writing([a, b], map[], []);
    var w3 := Writing([a, b], map[0 := ""], [DidRead(0)]);
    var w1 := Writing([a], map[], []);
    var steps := [Insert(a), Insert(b), Read(0), Read(1), Save(0), Save(1)];
    assert steps[1..] == [Insert(b), Read(0), Read(1), Save(0), Save(1)];
    assert steps[1..][1..] == [Read(0), Read(1), Save(0), Save(1)];
    assert NextWriting(c, Blank, Insert(a)) == w1 && NextWriting(c, w1, Insert(b)) == w2;
    assert RunWriting(c, w1, steps[1..]) == RunWriting(c, w2, steps[1..][1..]);
    assert RunWriting(c, Blank, steps) == RunWriting(c, w2, [Read(0), Read(1), Save(0), Save(1)]);
    assert NextWriting(c, w2, Read(0)) == w3 && NextWriting(c, w3, Read(1)) == read;
    assert [Read(0), Read(1), Save(0), Save(1)][1..] == [Read(1), Save(0), Save(1)];
    assert [Read(1), Save(0), Save(1)][1..] == [Save(0), Save(1)];
  }

  lemma {:induction false} TwoSaves(c: Codec, read: Writing, done: Writing, x: Entry, y: Entry)
    requires |read.rows| == 2 && read.read == map[0 := "", 1 := ""]
    requires x == read.rows[0].(checksum := Some(ComputeChecksum(c, "", read.rows[0])))
    requires y == read.rows[1].(checksum := Some(ComputeChecksum(c, "", read.rows[1])))
    requires done == Writing([x, y], read.read, read.deeds + [DidSave(0), DidSave(1)])
    ensures RunWriting(c, read, [Save(0), Save(1)]) == done
  {
    hide ComputeChecksum;
    var w1 := NextWriting(c, read, Save(0));
    assert w1.rows == [x, read.rows[1]];
    assert NextWriting(c, w1, Save(1)) == done;
    assert [Save(0), Save(1)][1..] == [Save(1)];
    assert RunWriting(c, w1, [Save(1)]) == done;
  }
}
