/** What the twelve-month window shows after an import, and what a repeated import does. */
module ImportProperties {
  import opened Prelude
  import opened Ids
  import opened Sums
  import opened Calendar
  import opened Sales
  import opened Ingestion

  // ----- a delivery whose records have distinct keys

  ghost predicate Fresh(rows: seq<Movement>, r: SaleRecord) {
    forall m :: m in rows ==> !SameKey(m, r)
  }

  ghost predicate DistinctRecords(records: seq<SaleRecord>) {
    forall i, j :: 0 <= i < j < |records| ==> !SameKey(records[i].Row(), records[j])
  }

  function RowsOf(records: seq<SaleRecord>): (rows: seq<Movement>)
    ensures |rows| == |records|
  {
    seq(|records|, i requires 0 <= i < |records| => records[i].Row())
  }

  lemma {:induction false} MatchesZeroIffFresh(rows: seq<Movement>, r: SaleRecord)
    ensures Matches(rows, r) == 0 <==> Fresh(rows, r)
  {
    if rows != [] {
      var k := |rows| - 1;
      MatchesZeroIffFresh(rows[..k], r);
      assert rows == rows[..k] + [rows[k]];
    }
  }

  lemma FreshIsAppended(p: Progress, r: SaleRecord)
    requires !p.failed && Fresh(p.rows, r)
    ensures UpsertStep(p, r) == Progress(p.rows + [r.Row()], p.recorded + 1, false)
  {
    MatchesZeroIffFresh(p.rows, r);
  }

  lemma FreshAfterOthers(rows: seq<Movement>, records: seq<SaleRecord>, r: SaleRecord)
    requires Fresh(rows, r) && forall o :: o in records ==> !SameKey(o.Row(), r)
    ensures Fresh(rows + RowsOf(records), r)
  {
    forall m | m in rows + RowsOf(records)
      ensures !SameKey(m, r)
    {
      if m !in rows {
        var i :| 0 <= i < |records| && RowsOf(records)[i] == m;
        assert records[i] in records;
      }
    }
  }

  /** Records with new and distinct keys are all appended. */
  lemma {:induction false} FreshRecordsAreAppended(p: Progress, records: seq<SaleRecord>)
    requires !p.failed && DistinctRecords(records)
    requires forall r :: r in records ==> Fresh(p.rows, r)
    ensures UpsertAll(p, records) == Progress(p.rows + RowsOf(records), p.recorded + |records|, false)
  {
    if records == [] {
      assert p.rows + RowsOf(records) == p.rows;
    } else {
      var k := |records| - 1;
      var before, last := records[..k], records[k];
      FreshRecordsAreAppended(p, before);
      forall o | o in before
        ensures !SameKey(o.Row(), last)
      {
        var i :| 0 <= i < k && records[i] == o;
      }
      FreshAfterOthers(p.rows, before, last);
      FreshIsAppended(Progress(p.rows + RowsOf(before), p.recorded + k, false), last);
      assert p.rows + RowsOf(records) == (p.rows + RowsOf(before)) + [last.Row()];
    }
  }

  lemma {:induction false} FigureRecordsAre(b: BranchId, p: PartId, figures: seq<real>, today: Date)
    ensures forall r :: r in FigureRecords(b, p, figures, today) ==>
              exists i :: 0 <= i < |figures| && figures[i] != 0.0 && r == FigureRecord(b, p, figures[i], today, i)
    ensures DistinctRecords(FigureRecords(b, p, figures, today))
  {
    if figures != [] {
      var k := |figures| - 1;
      FigureRecordsAre(b, p, figures[..k], today);
      var before, all := FigureRecords(b, p, figures[..k], today), FigureRecords(b, p, figures, today);
      forall r | r in all
        ensures exists i :: 0 <= i < |figures| && figures[i] != 0.0 && r == FigureRecord(b, p, figures[i], today, i)
      {
        if r in before {
          var i :| 0 <= i < k && figures[..k][i] != 0.0 && r == FigureRecord(b, p, figures[..k][i], today, i);
          assert figures[i] == figures[..k][i];
        } else {
          assert r == FigureRecord(b, p, figures[k], today, k);
        }
      }
      forall i, j | 0 <= i < j < |all|
        ensures !SameKey(all[i].Row(), all[j])
      {
        if j < |before| {
          assert before[i] == all[i] && before[j] == all[j];
        } else {
          assert all[i] in before;
          var n :| 0 <= n < k && figures[..k][n] != 0.0 && all[i] == FigureRecord(b, p, figures[..k][n], today, n);
        }
      }
    }
  }

  // ----- a delivery as a whole

  /** Codes and SKUs are dictionary keys, and each names one branch or part (unique per tenant). */
  ghost predicate WellFormed(data: SalesData, branches: map<string, BranchId>, parts: map<string, PartId>) {
    && (forall i, j :: 0 <= i < j < |data| ==> data[i].0 != data[j].0)
    && (forall i :: 0 <= i < |data| ==> DistinctSkus(data[i].1))
    && Injective(branches) && Injective(parts)
  }

  ghost predicate DistinctSkus(skus: SkuSales) {
    forall i, j :: 0 <= i < j < |skus| ==> skus[i].0 != skus[j].0
  }

  ghost predicate Injective(m: map<string, nat>) {
    forall x, y :: x in m && y in m && m[x] == m[y] ==> x == y
  }

  ghost predicate SamePair(a: Entry, b: Entry) {
    a.branch == b.branch && a.part == b.part
  }

  ghost predicate DistinctPairs(entries: seq<Entry>) {
    forall i, j :: 0 <= i < j < |entries| ==> !SamePair(entries[i], entries[j])
  }

  lemma DistinctPairsConcat(a: seq<Entry>, b: seq<Entry>)
    requires DistinctPairs(a) && DistinctPairs(b)
    requires forall x, y :: x in a && y in b ==> !SamePair(x, y)
    ensures DistinctPairs(a + b)
  {
    forall i, j | 0 <= i < j < |a + b|
      ensures !SamePair((a + b)[i], (a + b)[j])
    {
      if i < |a| <= j {
        assert a[i] in a && b[j - |a|] in b;
      }
    }
  }

  lemma {:induction false} BranchEntriesAre(b: BranchId, skus: SkuSales, parts: map<string, PartId>)
    requires DistinctSkus(skus) && Injective(parts)
    ensures DistinctPairs(BranchEntries(b, skus, parts))
    ensures forall e :: e in BranchEntries(b, skus, parts) ==> e.branch == b
    ensures forall e :: e in BranchEntries(b, skus, parts) ==>
              exists i :: 0 <= i < |skus| && skus[i].0 in parts && e == Entry(b, parts[skus[i].0], skus[i].1)
  {
    if skus != [] {
      var k := |skus| - 1;
      var (sku, figures) := skus[k];
      var before := BranchEntries(b, skus[..k], parts);
      BranchEntriesAre(b, skus[..k], parts);
      forall e | e in before
        ensures exists i :: 0 <= i < k && skus[i].0 in parts && e == Entry(b, parts[skus[i].0], skus[i].1)
      {
        var i :| 0 <= i < k && skus[..k][i].0 in parts && e == Entry(b, parts[skus[..k][i].0], skus[..k][i].1);
        assert skus[i] == skus[..k][i];
      }
      if sku in parts {
        DistinctPairsConcat(before, [Entry(b, parts[sku], figures)]);
      } else {
        assert BranchEntries(b, skus, parts) == before;
      }
    }
  }

  /** Every known part of the list has its entry. */
  lemma {:induction false} BranchEntriesHold(b: BranchId, skus: SkuSales, parts: map<string, PartId>, j: nat)
    requires j < |skus| && skus[j].0 in parts
    ensures Entry(b, parts[skus[j].0], skus[j].1) in BranchEntries(b, skus, parts)
    decreases |skus|
  {
    if j < |skus| - 1 {
      BranchEntriesHold(b, skus[..|skus| - 1], parts, j);
    }
  }

  lemma {:induction false} EntriesAre(data: SalesData, branches: map<string, BranchId>, parts: map<string, PartId>)
    requires WellFormed(data, branches, parts)
    ensures DistinctPairs(Entries(data, branches, parts))
    ensures forall e :: e in Entries(data, branches, parts) ==>
              exists i :: 0 <= i < |data| && data[i].0 in branches && e.branch == branches[data[i].0]
  {
    if data != [] {
      var k := |data| - 1;
      var (code, skus) := data[k];
      var before := Entries(data[..k], branches, parts);
      EntriesAre(data[..k], branches, parts);
      forall e | e in before
        ensures exists i :: 0 <= i < k && data[i].0 in branches && e.branch == branches[data[i].0]
      {
        var i :| 0 <= i < k && data[..k][i].0 in branches && e.branch == branches[data[..k][i].0];
        assert data[i] == data[..k][i];
      }
      if code in branches {
        BranchEntriesAre(branches[code], skus, parts);
        DistinctPairsConcat(before, BranchEntries(branches[code], skus, parts));
      } else {
        assert Entries(data, branches, parts) == before;
      }
    }
  }

  /** Every known branch and part of the delivery has its entry. */
  lemma {:induction false} EntriesHold(data: SalesData, branches: map<string, BranchId>, parts: map<string, PartId>,
                                       i: nat, j: nat)
    requires WellFormed(data, branches, parts)
    requires i < |data| && data[i].0 in branches && j < |data[i].1| && data[i].1[j].0 in parts
    ensures Entry(branches[data[i].0], parts[data[i].1[j].0], data[i].1[j].1) in Entries(data, branches, parts)
    decreases |data|
  {
    var k := |data| - 1;
    if i < k {
      EntriesHold(data[..k], branches, parts, i, j);
    } else {
      BranchEntriesHold(branches[data[k].0], data[k].1, parts, j);
    }
  }

  lemma DistinctConcat(a: seq<SaleRecord>, b: seq<SaleRecord>)
    requires DistinctRecords(a) && DistinctRecords(b)
    requires forall x, y :: x in a && y in b ==> x.branch != y.branch || x.part != y.part
    ensures DistinctRecords(a + b)
  {
    forall i, j | 0 <= i < j < |a + b|
      ensures !SameKey((a + b)[i].Row(), (a + b)[j])
    {
      if i < |a| <= j {
        assert a[i] in a && b[j - |a|] in b;
      }
    }
  }

  /** The record stands for a non-zero figure of the entry. */
  ghost predicate RecordOf(r: SaleRecord, e: Entry, today: Date) {
    exists i :: 0 <= i < |e.figures| && e.figures[i] != 0.0
        && r == FigureRecord(e.branch, e.part, e.figures[i], today, i)
  }

  lemma {:induction false} EntryRecordsAre(entries: seq<Entry>, today: Date)
    requires DistinctPairs(entries)
    ensures DistinctRecords(EntryRecords(entries, today))
    ensures forall r :: r in EntryRecords(entries, today) ==> exists e :: e in entries && RecordOf(r, e, today)
  {
    if entries != [] {
      var k := |entries| - 1;
      var e := entries[k];
      var before, own := EntryRecords(entries[..k], today), FigureRecords(e.branch, e.part, e.figures, today);
      EntryRecordsAre(entries[..k], today);
      FigureRecordsAre(e.branch, e.part, e.figures, today);
      forall x, y | x in before && y in own
        ensures x.branch != y.branch || x.part != y.part
      {
        var o :| o in entries[..k] && RecordOf(x, o, today);
        assert !SamePair(o, e);
      }
      DistinctConcat(before, own);
      forall r | r in before + own
        ensures exists o :: o in entries && RecordOf(r, o, today)
      {
        if r in before {
          var o :| o in entries[..k] && RecordOf(r, o, today);
          assert o in entries;
        } else {
          assert RecordOf(r, e, today);
        }
      }
    }
  }

  // ----- what the window then shows

  /** Units of the records that a window counts. */
  function RecordTotal(records: seq<SaleRecord>, part: PartId, scope: Scope, today: Date, n: nat): real {
    if records == [] then 0.0
    else
      var r := records[|records| - 1];
      RecordTotal(records[..|records| - 1], part, scope, today, n)
      + if Counts(r.Row(), part, scope) && InWindow(today, n, MonthNo(r.date)) then Abs(r.quantity) else 0.0
  }

  lemma {:induction false} WindowAfterAppending(rows: seq<Movement>, records: seq<SaleRecord>, part: PartId,
                                                scope: Scope, today: Date, n: nat)
    ensures WindowTotal(rows + RowsOf(records), part, scope, today, n)
            == WindowTotal(rows, part, scope, today, n) + RecordTotal(records, part, scope, today, n)
  {
    if records == [] {
      assert rows + RowsOf(records) == rows;
    } else {
      var k := |records| - 1;
      WindowAfterAppending(rows, records[..k], part, scope, today, n);
      assert rows + RowsOf(records) == (rows + RowsOf(records[..k])) + [records[k].Row()];
      AppendMovement(rows + RowsOf(records[..k]), records[k].Row(), part, scope, today, n);
    }
  }

  lemma {:induction false} RecordTotalConcat(a: seq<SaleRecord>, b: seq<SaleRecord>, part: PartId, scope: Scope,
                                             today: Date, n: nat)
    ensures RecordTotal(a + b, part, scope, today, n)
            == RecordTotal(a, part, scope, today, n) + RecordTotal(b, part, scope, today, n)
  {
    if b == [] {
      assert a + b == a;
    } else {
      RecordTotalConcat(a, b[..|b| - 1], part, scope, today, n);
      assert (a + b)[..|a + b| - 1] == a + b[..|b| - 1];
    }
  }

  lemma {:induction false} RecordTotalOfOthers(records: seq<SaleRecord>, part: PartId, scope: Scope, today: Date,
                                               n: nat)
    requires forall r :: r in records ==> !Counts(r.Row(), part, scope)
    ensures RecordTotal(records, part, scope, today, n) == 0.0
  {
    if records != [] {
      assert records[|records| - 1] in records;
      RecordTotalOfOthers(records[..|records| - 1], part, scope, today, n);
    }
  }

  /** The figures whose dates fall into the window; later figures of a long list may not. */
  function FiguresInWindow(figures: seq<real>, today: Date, n: nat): real {
    if figures == [] then 0.0
    else
      var i := |figures| - 1;
      FiguresInWindow(figures[..i], today, n)
      + if InWindow(today, n, MonthNo(today - 30 * i)) then Abs(figures[i]) else 0.0
  }

  lemma FigureRecordsStep(b: BranchId, p: PartId, figures: seq<real>, today: Date)
    requires figures != []
    ensures var i := |figures| - 1;
            FigureRecords(b, p, figures, today)
            == if figures[i] == 0.0 then FigureRecords(b, p, figures[..i], today)
               else FigureRecords(b, p, figures[..i], today) + [FigureRecord(b, p, figures[i], today, i)]
  {
    var before := FigureRecords(b, p, figures[..|figures| - 1], today);
    assert before + [] == before;
  }

  lemma RecordTotalAppend(before: seq<SaleRecord>, last: SaleRecord, part: PartId, scope: Scope, today: Date, n: nat)
    requires Counts(last.Row(), part, scope)
    ensures RecordTotal(before + [last], part, scope, today, n)
            == RecordTotal(before, part, scope, today, n)
               + if InWindow(today, n, MonthNo(last.date)) then Abs(last.quantity) else 0.0
  {
    assert (before + [last])[..|before|] == before;
  }

  lemma FiguresInWindowStep(b: BranchId, p: PartId, figures: seq<real>, today: Date, n: nat)
    requires figures != [] && figures[|figures| - 1] != 0.0
    ensures var i := |figures| - 1;
            var before, last := FigureRecords(b, p, figures[..i], today), FigureRecord(b, p, figures[i], today, i);
            RecordTotal(before + [last], p, OneOf({b}), today, n) - RecordTotal(before, p, OneOf({b}), today, n)
            == FiguresInWindow(figures, today, n) - FiguresInWindow(figures[..i], today, n)
  {
    var i := |figures| - 1;
    RecordTotalAppend(FigureRecords(b, p, figures[..i], today), FigureRecord(b, p, figures[i], today, i),
                      p, OneOf({b}), today, n);
  }

  lemma ZeroFigureStep(figures: seq<real>, today: Date, n: nat)
    requires figures != [] && figures[|figures| - 1] == 0.0
    ensures FiguresInWindow(figures, today, n) == FiguresInWindow(figures[..|figures| - 1], today, n)
  {
  }

  lemma {:induction false} RecordTotalOfFigures(b: BranchId, p: PartId, figures: seq<real>, today: Date, n: nat)
    ensures RecordTotal(FigureRecords(b, p, figures, today), p, OneOf({b}), today, n)
            == FiguresInWindow(figures, today, n)
  {
    if figures != [] {
      RecordTotalOfFigures(b, p, figures[..|figures| - 1], today, n);
      FigureRecordsStep(b, p, figures, today);
      if figures[|figures| - 1] == 0.0 {
        ZeroFigureStep(figures, today, n);
      } else {
        FiguresInWindowStep(b, p, figures, today, n);
      }
    }
  }

  lemma OtherPairsAreSilent(entries: seq<Entry>, today: Date, n: nat, e: Entry)
    requires DistinctPairs(entries) && forall o :: o in entries ==> !SamePair(o, e)
    ensures RecordTotal(EntryRecords(entries, today), e.part, OneOf({e.branch}), today, n) == 0.0
  {
    EntryRecordsAre(entries, today);
    forall r | r in EntryRecords(entries, today)
      ensures !Counts(r.Row(), e.part, OneOf({e.branch}))
    {
      var o :| o in entries && RecordOf(r, o, today);
    }
    RecordTotalOfOthers(EntryRecords(entries, today), e.part, OneOf({e.branch}), today, n);
  }

  lemma EntryRecordsAround(entries: seq<Entry>, today: Date, i: nat)
    requires i < |entries|
    ensures var e := entries[i];
            EntryRecords(entries, today)
            == (EntryRecords(entries[..i], today) + FigureRecords(e.branch, e.part, e.figures, today))
               + EntryRecords(entries[i + 1..], today)
  {
    var e := entries[i];
    var left, own, right := entries[..i], [e], entries[i + 1..];
    assert entries == (left + own) + right;
    EntryRecordsConcat(left, own, today);
    EntryRecordsConcat(left + own, right, today);
    assert own[..0] == [];
    assert [] + FigureRecords(e.branch, e.part, e.figures, today) == FigureRecords(e.branch, e.part, e.figures, today);
  }

  lemma OthersAreSilent(entries: seq<Entry>, today: Date, n: nat, i: nat)
    requires DistinctPairs(entries) && i < |entries|
    ensures var e := entries[i];
            RecordTotal(EntryRecords(entries[..i], today), e.part, OneOf({e.branch}), today, n) == 0.0
            && RecordTotal(EntryRecords(entries[i + 1..], today), e.part, OneOf({e.branch}), today, n) == 0.0
  {
    var e := entries[i];
    forall o | o in entries[..i] || o in entries[i + 1..]
      ensures !SamePair(o, e)
    {
      var j :| 0 <= j < |entries| && j != i && entries[j] == o;
      assert !SamePair(entries[if j < i then j else i], entries[if j < i then i else j]);
    }
    OtherPairsAreSilent(entries[..i], today, n, e);
    OtherPairsAreSilent(entries[i + 1..], today, n, e);
  }

  lemma RecordTotalOfEntry(entries: seq<Entry>, today: Date, n: nat, i: nat)
    requires DistinctPairs(entries) && i < |entries|
    ensures RecordTotal(EntryRecords(entries, today), entries[i].part, OneOf({entries[i].branch}), today, n)
            == FiguresInWindow(entries[i].figures, today, n)
  {
    var e := entries[i];
    var scope := OneOf({e.branch});
    var x, y, z := EntryRecords(entries[..i], today), FigureRecords(e.branch, e.part, e.figures, today),
                   EntryRecords(entries[i + 1..], today);
    EntryRecordsAround(entries, today, i);
    RecordTotalConcat(x, y, e.part, scope, today, n);
    RecordTotalConcat(x + y, z, e.part, scope, today, n);
    OthersAreSilent(entries, today, n, i);
    RecordTotalOfFigures(e.branch, e.part, e.figures, today, n);
  }

  function SumAbs(figures: seq<real>): real {
    if figures == [] then 0.0 else SumAbs(figures[..|figures| - 1]) + Abs(figures[|figures| - 1])
  }

  /** Figure i is counted, or there is nothing to count. */
  predicate Visible(figures: seq<real>, today: Date, n: nat, i: nat)
    requires i < |figures|
  {
    figures[i] == 0.0 || InWindow(today, n, MonthNo(today - 30 * i))
  }

  lemma {:induction false} CountedAtMostAll(figures: seq<real>, today: Date, n: nat)
    ensures FiguresInWindow(figures, today, n) <= SumAbs(figures)
  {
    if figures != [] {
      CountedAtMostAll(figures[..|figures| - 1], today, n);
    }
  }

  lemma {:induction false} AllVisibleIsAllCounted(figures: seq<real>, today: Date, n: nat)
    requires forall i :: 0 <= i < |figures| ==> Visible(figures, today, n, i)
    ensures FiguresInWindow(figures, today, n) == SumAbs(figures)
  {
    if figures != [] {
      var k := |figures| - 1;
      forall i | 0 <= i < k
        ensures Visible(figures[..k], today, n, i)
      {
        assert Visible(figures, today, n, i);
      }
      AllVisibleIsAllCounted(figures[..k], today, n);
      assert Visible(figures, today, n, k);
    }
  }

  lemma LastInvisible(figures: seq<real>, today: Date, n: nat)
    requires figures != [] && !Visible(figures, today, n, |figures| - 1)
    ensures FiguresInWindow(figures, today, n) == FiguresInWindow(figures[..|figures| - 1], today, n)
    ensures SumAbs(figures) > SumAbs(figures[..|figures| - 1])
  {
  }

  lemma CountedStep(figures: seq<real>, today: Date, n: nat)
    requires figures != []
    ensures var k := |figures| - 1;
            FiguresInWindow(figures, today, n) - FiguresInWindow(figures[..k], today, n)
                <= SumAbs(figures) - SumAbs(figures[..k])
  {
  }

  lemma {:induction false} InvisibleIsLost(figures: seq<real>, today: Date, n: nat, i: nat)
    requires i < |figures| && !Visible(figures, today, n, i)
    ensures FiguresInWindow(figures, today, n) < SumAbs(figures)
    decreases |figures|
  {
    var k := |figures| - 1;
    if i < k {
      InvisibleIsLost(figures[..k], today, n, i);
      CountedStep(figures, today, n);
    } else {
      CountedAtMostAll(figures[..k], today, n);
      LastInvisible(figures, today, n);
    }
  }

  /** A list is counted in full exactly when every non-zero figure is dated inside the window. */
  lemma CountedInFullIff(figures: seq<real>, today: Date, n: nat)
    ensures FiguresInWindow(figures, today, n) == SumAbs(figures)
            <==> forall i :: 0 <= i < |figures| ==> Visible(figures, today, n, i)
  {
    if i :| 0 <= i < |figures| && !Visible(figures, today, n, i) {
      InvisibleIsLost(figures, today, n, i);
    } else {
      AllVisibleIsAllCounted(figures, today, n);
    }
  }

  /** An import into a table without the same keys adds to each window what its figures put there. */
  lemma ImportAddsItsFigures(rows: seq<Movement>, data: SalesData, branches: map<string, BranchId>,
                             parts: map<string, PartId>, today: Date, i: nat, j: nat)
    requires WellFormed(data, branches, parts)
    requires i < |data| && data[i].0 in branches && j < |data[i].1| && data[i].1[j].0 in parts
    requires forall r :: r in Records(data, branches, parts, today) ==> Fresh(rows, r)
    ensures var done := UpsertAll(Progress(rows, 0, false), Records(data, branches, parts, today));
            var part, scope := parts[data[i].1[j].0], OneOf({branches[data[i].0]});
            !done.failed && done.recorded == |Records(data, branches, parts, today)|
            && WindowTotal(done.rows, part, scope, today, 12)
               == WindowTotal(rows, part, scope, today, 12) + FiguresInWindow(data[i].1[j].1, today, 12)
  {
    var records, entries := Records(data, branches, parts, today), Entries(data, branches, parts);
    EntriesAre(data, branches, parts);
    EntriesHold(data, branches, parts, i, j);
    EntryRecordsAre(entries, today);
    FreshRecordsAreAppended(Progress(rows, 0, false), records);
    var e := Entry(branches[data[i].0], parts[data[i].1[j].0], data[i].1[j].1);
    assert e in entries;
    var at :| 0 <= at < |entries| && entries[at] == e;
    WindowAfterAppending(rows, records, e.part, OneOf({e.branch}), today, 12);
    RecordTotalOfEntry(entries, today, 12, at);
  }

  /** No sale of an imported branch and part is already dated inside the twelve-month window. */
  ghost predicate WindowIsEmpty(rows: seq<Movement>, entries: seq<Entry>, today: Date) {
    forall m, e :: m in rows && e in entries && Counts(m, e.part, OneOf({e.branch})) ==>
      !InWindow(today, 12, MonthNo(m.date))
  }

  lemma ShortListsAreFresh(rows: seq<Movement>, entries: seq<Entry>, today: Date)
    requires DistinctPairs(entries) && WindowIsEmpty(rows, entries, today)
    requires forall e :: e in entries ==> |e.figures| <= 12
    ensures forall r :: r in EntryRecords(entries, today) ==> Fresh(rows, r)
  {
    EntryRecordsAre(entries, today);
    forall r, m | r in EntryRecords(entries, today) && m in rows
      ensures !SameKey(m, r)
    {
      var e :| e in entries && RecordOf(r, e, today);
      var i :| 0 <= i < |e.figures| && e.figures[i] != 0.0
          && r == FigureRecord(e.branch, e.part, e.figures[i], today, i);
      ElevenStepsStayInWindow(today, 30 * i);
    }
  }

  lemma {:induction false} EmptyWindowTotal(rows: seq<Movement>, part: PartId, scope: Scope, today: Date)
    requires forall m :: m in rows && Counts(m, part, scope) ==> !InWindow(today, 12, MonthNo(m.date))
    ensures WindowTotal(rows, part, scope, today, 12) == 0.0
  {
    if rows == [] {
      SumOfZeros(MonthlySeries(rows, part, scope, today, 12));
    } else {
      var k := |rows| - 1;
      EmptyWindowTotal(rows[..k], part, scope, today);
      assert rows == rows[..k] + [rows[k]];
      AppendMovement(rows[..k], rows[k], part, scope, today, 12);
    }
  }

  lemma {:induction false} SumAbsOfNonNegative(s: seq<real>)
    requires forall i :: 0 <= i < |s| ==> 0.0 <= s[i]
    ensures SumAbs(s) == Sum(s)
  {
    if s != [] {
      SumAbsOfNonNegative(s[..|s| - 1]);
    }
  }

  lemma ShortListsAreCounted(figures: seq<real>, today: Date)
    requires |figures| <= 12
    ensures FiguresInWindow(figures, today, 12) == SumAbs(figures)
  {
    forall k | 0 <= k < |figures|
      ensures Visible(figures, today, 12, k)
    {
      ElevenStepsStayInWindow(today, 30 * k);
    }
    CountedInFullIff(figures, today, 12);
  }

  /** Lists of at most twelve figures are counted to the last unit, on any day of any year. */
  lemma ImportLosesNothing(rows: seq<Movement>, data: SalesData, branches: map<string, BranchId>,
                           parts: map<string, PartId>, today: Date, i: nat, j: nat)
    requires WellFormed(data, branches, parts)
    requires i < |data| && data[i].0 in branches && j < |data[i].1| && data[i].1[j].0 in parts
    requires WindowIsEmpty(rows, Entries(data, branches, parts), today)
    requires forall e :: e in Entries(data, branches, parts) ==> |e.figures| <= 12
    ensures var done := UpsertAll(Progress(rows, 0, false), Records(data, branches, parts, today));
            var figures := data[i].1[j].1;
            !done.failed
            && WindowTotal(done.rows, parts[data[i].1[j].0], OneOf({branches[data[i].0]}), today, 12) == SumAbs(figures)
            && ((forall k :: 0 <= k < |figures| ==> 0.0 <= figures[k]) ==> SumAbs(figures) == Sum(figures))
  {
    var entries, figures := Entries(data, branches, parts), data[i].1[j].1;
    EntriesAre(data, branches, parts);
    EntriesHold(data, branches, parts, i, j);
    ShortListsAreFresh(rows, entries, today);
    ImportAddsItsFigures(rows, data, branches, parts, today, i, j);
    var e := Entry(branches[data[i].0], parts[data[i].1[j].0], figures);
    assert e in entries;
    EmptyWindowTotal(rows, e.part, OneOf({e.branch}), today);
    ShortListsAreCounted(figures, today);
    if forall k :: 0 <= k < |figures| ==> 0.0 <= figures[k] {
      SumAbsOfNonNegative(figures);
    }
  }

  lemma JanuaryThirtyFirst(year: int)
    ensures var today := DateOf(year, 1, 31);
            MonthNo(today) == 12 * year && MonthNo(today - 30) == 12 * year
  {
    MonthFollows(12 * year);
    assert MonthLength(12 * year) == 31;
    MonthIsUnique(DateOf(year, 1, 31), 12 * year);
    MonthIsUnique(DateOf(year, 1, 31) - 30, 12 * year);
  }

  lemma MonthTotalOfTwo(m: Movement, o: Movement, part: PartId, scope: Scope, k: MonthNumber)
    requires Counts(m, part, scope) && Counts(o, part, scope) && MonthNo(m.date) == MonthNo(o.date)
    ensures MonthTotal([m, o], part, scope, k)
            == if MonthNo(m.date) == k then Abs(m.quantity) + Abs(o.quantity) else 0.0
  {
    assert [m, o][..1] == [m];
    assert MonthTotal([m], part, scope, k) == if MonthNo(m.date) == k then Abs(m.quantity) else 0.0;
  }

  lemma RecordsOfTwo(b: BranchId, p: PartId, newest: real, previous: real, today: Date)
    requires newest > 0.0 && previous > 0.0
    ensures FigureRecords(b, p, [newest, previous], today)
            == [FigureRecord(b, p, newest, today, 0), FigureRecord(b, p, previous, today, 1)]
  {
    assert [newest, previous][..1] == [newest];
    assert [newest][..0] == [];
    assert FigureRecords(b, p, [newest], today) == [FigureRecord(b, p, newest, today, 0)];
  }

  lemma TwoFreshRecords(first: SaleRecord, second: SaleRecord)
    requires first.date != second.date
    ensures UpsertAll(Progress([], 0, false), [first, second]).rows == [first.Row(), second.Row()]
  {
    FreshRecordsAreAppended(Progress([], 0, false), [first, second]);
    assert [] + RowsOf([first, second]) == [first.Row(), second.Row()];
  }

  lemma TwoFiguresRecorded(b: BranchId, p: PartId, newest: real, previous: real, today: Date)
    requires newest > 0.0 && previous > 0.0
    ensures UpsertAll(Progress([], 0, false), FigureRecords(b, p, [newest, previous], today)).rows
            == [FigureRecord(b, p, newest, today, 0).Row(), FigureRecord(b, p, previous, today, 1).Row()]
  {
    RecordsOfTwo(b, p, newest, previous, today);
    TwoFreshRecords(FigureRecord(b, p, newest, today, 0), FigureRecord(b, p, previous, today, 1));
  }

  lemma TwoFiguresInOneMonth(b: BranchId, p: PartId, newest: real, previous: real, today: Date, k: MonthNumber)
    requires newest > 0.0 && previous > 0.0 && MonthNo(today - 30) == MonthNo(today)
    ensures MonthTotal(UpsertAll(Progress([], 0, false), FigureRecords(b, p, [newest, previous], today)).rows, p,
                       OneOf({b}), k)
            == if MonthNo(today) == k then newest + previous else 0.0
  {
    TwoFiguresRecorded(b, p, newest, previous, today);
    MonthTotalOfTwo(FigureRecord(b, p, newest, today, 0).Row(), FigureRecord(b, p, previous, today, 1).Row(),
                    p, OneOf({b}), k);
  }

  lemma SeriesEndsWith(rows: seq<Movement>, part: PartId, scope: Scope, today: Date)
    ensures var series := MonthlySeries(rows, part, scope, today, 12);
            series[11] == MonthTotal(rows, part, scope, MonthNo(today))
            && series[10] == MonthTotal(rows, part, scope, MonthNo(today) - 1)
  {
  }

  lemma NewestMonthTakesBoth(b: BranchId, p: PartId, newest: real, previous: real, today: Date)
    requires newest > 0.0 && previous > 0.0 && MonthNo(today - 30) == MonthNo(today)
    ensures var done := UpsertAll(Progress([], 0, false), FigureRecords(b, p, [newest, previous], today));
            var series := MonthlySeries(done.rows, p, OneOf({b}), today, 12);
            series[11] == newest + previous && series[10] == 0.0
  {
    var done := UpsertAll(Progress([], 0, false), FigureRecords(b, p, [newest, previous], today));
    TwoFiguresInOneMonth(b, p, newest, previous, today, MonthNo(today));
    TwoFiguresInOneMonth(b, p, newest, previous, today, MonthNo(today) - 1);
    SeriesEndsWith(done.rows, p, OneOf({b}), today);
  }

  /** The total survives but the months need not: on any 31 January two figures share January. */
  lemma MonthsCanCollide(b: BranchId, p: PartId, year: int, newest: real, previous: real)
    requires newest > 0.0 && previous > 0.0
    ensures var today := DateOf(year, 1, 31);
            var done := UpsertAll(Progress([], 0, false), FigureRecords(b, p, [newest, previous], today));
            var series := MonthlySeries(done.rows, p, OneOf({b}), today, 12);
            series[11] == newest + previous && series[10] == 0.0
  {
    JanuaryThirtyFirst(year);
    NewestMonthTakesBoth(b, p, newest, previous, DateOf(year, 1, 31));
  }

  // ----- repeating an import on the same day

  ghost predicate Holds(rows: seq<Movement>, r: SaleRecord) {
    Matches(rows, r) == 1 && forall m :: m in rows && SameKey(m, r) ==> m == r.Row()
  }

  lemma {:induction false} OverwriteKeepsKeys(rows: seq<Movement>, r: SaleRecord, o: SaleRecord)
    ensures Matches(Overwrite(rows, r), o) == Matches(rows, o)
  {
    if rows != [] {
      var k := |rows| - 1;
      OverwriteKeepsKeys(rows[..k], r, o);
      assert Overwrite(rows, r)[..k] == Overwrite(rows[..k], r);
    }
  }

  lemma UpsertEstablishes(p: Progress, r: SaleRecord)
    requires !p.failed && !UpsertStep(p, r).failed
    ensures Holds(UpsertStep(p, r).rows, r)
  {
    if Matches(p.rows, r) == 0 {
      MatchesZeroIffFresh(p.rows, r);
      assert (p.rows + [r.Row()])[..|p.rows|] == p.rows;
    } else {
      OverwriteKeepsKeys(p.rows, r, r);
    }
  }

  lemma UpsertPreserves(p: Progress, r: SaleRecord, o: SaleRecord)
    requires !p.failed && Holds(p.rows, o) && !SameKey(r.Row(), o)
    ensures Holds(UpsertStep(p, r).rows, o)
  {
    if Matches(p.rows, r) == 0 {
      assert (p.rows + [r.Row()])[..|p.rows|] == p.rows;
    } else if Matches(p.rows, r) == 1 {
      OverwriteKeepsKeys(p.rows, r, o);
      forall m | m in Overwrite(p.rows, r) && SameKey(m, o)
        ensures m == o.Row()
      {
        var i :| 0 <= i < |p.rows| && Overwrite(p.rows, r)[i] == m;
        assert p.rows[i] in p.rows;
      }
    }
  }

  lemma UpsertOfHeldRecord(p: Progress, r: SaleRecord)
    requires !p.failed && Holds(p.rows, r)
    ensures UpsertStep(p, r) == p.(recorded := p.recorded + 1)
  {
    assert Overwrite(p.rows, r) == p.rows;
  }

  lemma {:induction false} AllHoldAfterImport(p: Progress, records: seq<SaleRecord>)
    requires !p.failed && DistinctRecords(records) && !UpsertAll(p, records).failed
    ensures forall r :: r in records ==> Holds(UpsertAll(p, records).rows, r)
  {
    if records != [] {
      var k := |records| - 1;
      var before, last := records[..k], records[k];
      var mid := UpsertAll(p, before);
      AllHoldAfterImport(p, before);
      UpsertEstablishes(mid, last);
      forall r | r in before
        ensures Holds(UpsertStep(mid, last).rows, r)
      {
        var i :| 0 <= i < k && records[i] == r;
        assert !SameKey(records[i].Row(), last);
        UpsertPreserves(mid, last, r);
      }
    }
  }

  lemma {:induction false} HeldRecordsChangeNothing(p: Progress, records: seq<SaleRecord>)
    requires !p.failed && forall r :: r in records ==> Holds(p.rows, r)
    ensures UpsertAll(p, records) == p.(recorded := p.recorded + |records|)
  {
    if records != [] {
      var k := |records| - 1;
      HeldRecordsChangeNothing(p, records[..k]);
      UpsertOfHeldRecord(UpsertAll(p, records[..k]), records[k]);
    }
  }

  /** Importing the same delivery again on the same day changes no movement, whatever was there before. */
  lemma SameDayImportIsIdempotent(rows: seq<Movement>, data: SalesData, branches: map<string, BranchId>,
                                  parts: map<string, PartId>, today: Date)
    requires WellFormed(data, branches, parts)
    requires !UpsertAll(Progress(rows, 0, false), Records(data, branches, parts, today)).failed
    ensures var records := Records(data, branches, parts, today);
            var after := UpsertAll(Progress(rows, 0, false), records).rows;
            UpsertAll(Progress(after, 0, false), records) == Progress(after, |records|, false)
  {
    EntriesAre(data, branches, parts);
    EntryRecordsAre(Entries(data, branches, parts), today);
    var records := Records(data, branches, parts, today);
    AllHoldAfterImport(Progress(rows, 0, false), records);
    HeldRecordsChangeNothing(Progress(UpsertAll(Progress(rows, 0, false), records).rows, 0, false), records);
  }

  // ----- every figure arrives as a movement

  lemma {:induction false} FigureIsRecorded(b: BranchId, p: PartId, figures: seq<real>, today: Date, k: nat)
    requires k < |figures| && figures[k] != 0.0
    ensures FigureRecord(b, p, figures[k], today, k) in FigureRecords(b, p, figures, today)
    decreases |figures|
  {
    FigureRecordsStep(b, p, figures, today);
    if k < |figures| - 1 {
      FigureIsRecorded(b, p, figures[..|figures| - 1], today, k);
    }
  }

  lemma {:induction false} EntryIsRecorded(entries: seq<Entry>, today: Date, e: Entry, r: SaleRecord)
    requires e in entries && r in FigureRecords(e.branch, e.part, e.figures, today)
    ensures r in EntryRecords(entries, today)
  {
    var k := |entries| - 1;
    if e != entries[k] {
      EntryIsRecorded(entries[..k], today, e, r);
    }
  }

  lemma FigureIsInRecords(data: SalesData, branches: map<string, BranchId>, parts: map<string, PartId>, today: Date,
                          i: nat, j: nat, k: nat)
    requires WellFormed(data, branches, parts)
    requires i < |data| && data[i].0 in branches && j < |data[i].1| && data[i].1[j].0 in parts
    requires k < |data[i].1[j].1| && data[i].1[j].1[k] != 0.0
    ensures FigureRecord(branches[data[i].0], parts[data[i].1[j].0], data[i].1[j].1[k], today, k)
            in Records(data, branches, parts, today)
    ensures DistinctRecords(Records(data, branches, parts, today))
  {
    var e := Entry(branches[data[i].0], parts[data[i].1[j].0], data[i].1[j].1);
    EntriesAre(data, branches, parts);
    EntriesHold(data, branches, parts, i, j);
    EntryRecordsAre(Entries(data, branches, parts), today);
    FigureIsRecorded(e.branch, e.part, e.figures, today, k);
    EntryIsRecorded(Entries(data, branches, parts), today, e, FigureRecord(e.branch, e.part, e.figures[k], today, k));
  }

  /** The one imported sale of a branch, part and day. */
  ghost predicate IsTheSale(rows: seq<Movement>, b: BranchId, p: PartId, units: real, day: Date) {
    && Movement(b, p, Sale, -units, day, "dms", "") in rows
    && forall s :: s in rows && s == Movement(b, p, Sale, s.quantity, day, "dms", "") ==> s.quantity == -units
  }

  lemma RecordBecomesSale(rows: seq<Movement>, records: seq<SaleRecord>, r: SaleRecord)
    requires DistinctRecords(records) && r in records && !UpsertAll(Progress(rows, 0, false), records).failed
    ensures IsTheSale(UpsertAll(Progress(rows, 0, false), records).rows, r.branch, r.part, r.quantity, r.date)
  {
    AllHoldAfterImport(Progress(rows, 0, false), records);
    HeldIsPresent(UpsertAll(Progress(rows, 0, false), records).rows, r);
  }

  /**
   After an import that finishes, whatever the table held, every non-zero figure of a known branch and
   part is the one imported sale of its day: its units negative, dated thirty days back per place.
   */
  lemma FiguresBecomeSales(rows: seq<Movement>, data: SalesData, branches: map<string, BranchId>,
                           parts: map<string, PartId>, today: Date, i: nat, j: nat, k: nat)
    requires WellFormed(data, branches, parts)
    requires !UpsertAll(Progress(rows, 0, false), Records(data, branches, parts, today)).failed
    requires i < |data| && data[i].0 in branches && j < |data[i].1| && data[i].1[j].0 in parts
    requires k < |data[i].1[j].1| && data[i].1[j].1[k] != 0.0
    ensures IsTheSale(UpsertAll(Progress(rows, 0, false), Records(data, branches, parts, today)).rows,
                      branches[data[i].0], parts[data[i].1[j].0], data[i].1[j].1[k], today - 30 * k)
  {
    FigureIsInRecords(data, branches, parts, today, i, j, k);
    RecordBecomesSale(rows, Records(data, branches, parts, today),
                      FigureRecord(branches[data[i].0], parts[data[i].1[j].0], data[i].1[j].1[k], today, k));
  }

  lemma {:induction false} HeldIsPresent(rows: seq<Movement>, r: SaleRecord)
    requires Holds(rows, r)
    ensures r.Row() in rows && forall m :: m in rows && SameKey(m, r) ==> m == r.Row()
  {
    MatchesZeroIffFresh(rows, r);
  }
}
