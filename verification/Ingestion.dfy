/** Importing monthly sales figures as dated movements (apps/inventory/services.py). */
module Ingestion {
  import opened Prelude
  import opened Ids
  import opened Seqs
  import opened Calendar
  import opened Sales

  datatype DbError = MultipleObjectsReturned

  /** One figure to record: `quantity` units sold on `date`. */
  datatype SaleRecord = SaleRecord(branch: BranchId, part: PartId, quantity: real, date: Date) {
    function Row(): Movement {
      Movement(branch, part, Sale, -quantity, date, "dms", "")
    }
  }

  // ----- update_or_create, keyed by (branch, part, SALE, date, "dms", "")

  predicate SameKey(m: Movement, r: SaleRecord) {
    m == r.Row().(quantity := m.quantity)
  }

  function Matches(rows: seq<Movement>, r: SaleRecord): nat {
    if rows == [] then 0
    else Matches(rows[..|rows| - 1], r) + if SameKey(rows[|rows| - 1], r) then 1 else 0
  }

  function Overwrite(rows: seq<Movement>, r: SaleRecord): seq<Movement> {
    seq(|rows|, i requires 0 <= i < |rows| => if SameKey(rows[i], r) then r.Row() else rows[i])
  }

  function Upsert(rows: seq<Movement>, r: SaleRecord): Result<seq<Movement>, DbError> {
    match Matches(rows, r)
    case 0 => Ok(rows + [r.Row()])
    case 1 => Ok(Overwrite(rows, r))
    case _ => Err(MultipleObjectsReturned)
  }

  /** The table after some records, how many were recorded, and whether the next one failed. */
  datatype Progress = Progress(rows: seq<Movement>, recorded: nat, failed: bool)

  function UpsertStep(p: Progress, r: SaleRecord): Progress {
    if p.failed then p
    else
      match Upsert(p.rows, r)
      case Ok(next) => Progress(next, p.recorded + 1, false)
      case Err(_) => p.(failed := true)
  }

  function UpsertAll(p: Progress, records: seq<SaleRecord>): Progress {
    if records == [] then p
    else UpsertStep(UpsertAll(p, records[..|records| - 1]), records[|records| - 1])
  }

  lemma {:induction false} UpsertAllConcat(p: Progress, a: seq<SaleRecord>, b: seq<SaleRecord>)
    ensures UpsertAll(p, a + b) == UpsertAll(UpsertAll(p, a), b)
  {
    if b == [] {
      assert a + b == a;
    } else {
      UpsertAllConcat(p, a, b[..|b| - 1]);
      assert (a + b)[..|a + b| - 1] == a + b[..|b| - 1];
    }
  }

  lemma UpsertAllAppend(p: Progress, a: seq<SaleRecord>, r: SaleRecord)
    ensures UpsertAll(p, a + [r]) == UpsertStep(UpsertAll(p, a), r)
  {
    assert (a + [r])[..|a|] == a;
  }

  lemma {:induction false} FailedStays(p: Progress, records: seq<SaleRecord>)
    requires p.failed
    ensures UpsertAll(p, records) == p
  {
    if records != [] {
      FailedStays(p, records[..|records| - 1]);
    }
  }

  /** What a failed import has done does not depend on the records after the failure. */
  lemma FailedPrefix(p: Progress, a: seq<SaleRecord>, b: seq<SaleRecord>)
    requires a <= b && UpsertAll(p, a).failed
    ensures UpsertAll(p, b) == UpsertAll(p, a)
  {
    assert b == a + b[|a|..];
    UpsertAllConcat(p, a, b[|a|..]);
    FailedStays(UpsertAll(p, a), b[|a|..]);
  }

  // ----- which records a delivery of raw data stands for

  /** Figure i of a list, most recent first, is dated 30 * i days back. */
  function FigureRecord(b: BranchId, p: PartId, figure: real, today: Date, i: nat): SaleRecord {
    SaleRecord(b, p, figure, today - 30 * i)
  }

  /** Zero figures are skipped. */
  function FigureRecords(b: BranchId, p: PartId, figures: seq<real>, today: Date): seq<SaleRecord> {
    if figures == [] then []
    else
      var i := |figures| - 1;
      FigureRecords(b, p, figures[..i], today)
      + if figures[i] == 0.0 then [] else [FigureRecord(b, p, figures[i], today, i)]
  }

  /** The figures of one known branch and part. */
  datatype Entry = Entry(branch: BranchId, part: PartId, figures: seq<real>)

  type SkuSales = seq<(string, seq<real>)>
  type SalesData = seq<(string, SkuSales)>

  /** Unknown parts are skipped. */
  function BranchEntries(b: BranchId, skus: SkuSales, parts: map<string, PartId>): seq<Entry> {
    if skus == [] then []
    else
      var (sku, figures) := skus[|skus| - 1];
      BranchEntries(b, skus[..|skus| - 1], parts) + if sku in parts then [Entry(b, parts[sku], figures)] else []
  }

  /** Unknown branches are skipped. */
  function Entries(data: SalesData, branches: map<string, BranchId>, parts: map<string, PartId>): seq<Entry> {
    if data == [] then []
    else
      var (code, skus) := data[|data| - 1];
      Entries(data[..|data| - 1], branches, parts)
      + if code in branches then BranchEntries(branches[code], skus, parts) else []
  }

  function EntryRecords(entries: seq<Entry>, today: Date): seq<SaleRecord> {
    if entries == [] then []
    else
      var e := entries[|entries| - 1];
      EntryRecords(entries[..|entries| - 1], today) + FigureRecords(e.branch, e.part, e.figures, today)
  }

  function Records(data: SalesData, branches: map<string, BranchId>, parts: map<string, PartId>, today: Date)
    : seq<SaleRecord>
  {
    EntryRecords(Entries(data, branches, parts), today)
  }

  lemma {:induction false} EntryRecordsConcat(a: seq<Entry>, b: seq<Entry>, today: Date)
    ensures EntryRecords(a + b, today) == EntryRecords(a, today) + EntryRecords(b, today)
  {
    if b == [] {
      assert a + b == a;
    } else {
      var e := b[|b| - 1];
      EntryRecordsConcat(a, b[..|b| - 1], today);
      assert (a + b)[..|a + b| - 1] == a + b[..|b| - 1];
      ConcatIsAssociative(EntryRecords(a, today), EntryRecords(b[..|b| - 1], today),
                          FigureRecords(e.branch, e.part, e.figures, today));
    }
  }

  lemma EntryRecordsPrefix(a: seq<Entry>, b: seq<Entry>, today: Date)
    requires a <= b
    ensures EntryRecords(a, today) <= EntryRecords(b, today)
  {
    assert b == a + b[|a|..];
    EntryRecordsConcat(a, b[|a|..], today);
  }

  lemma FigureStep(start: Progress, b: BranchId, p: PartId, figures: seq<real>, today: Date, i: nat)
    requires i < |figures|
    ensures UpsertAll(start, FigureRecords(b, p, figures[..i + 1], today))
            == var done := UpsertAll(start, FigureRecords(b, p, figures[..i], today));
               if figures[i] == 0.0 then done else UpsertStep(done, FigureRecord(b, p, figures[i], today, i))
  {
    var done := FigureRecords(b, p, figures[..i], today);
    assert figures[..i + 1][..i] == figures[..i];
    if figures[i] == 0.0 {
      assert done + [] == done;
    } else {
      UpsertAllAppend(start, done, FigureRecord(b, p, figures[i], today, i));
    }
  }

  lemma {:induction false} FigureRecordsPrefix(b: BranchId, p: PartId, figures: seq<real>, today: Date, i: nat)
    requires i <= |figures|
    ensures FigureRecords(b, p, figures[..i], today) <= FigureRecords(b, p, figures, today)
    decreases |figures|
  {
    if i < |figures| {
      FigureRecordsPrefix(b, p, figures[..|figures| - 1], today, i);
      assert figures[..|figures| - 1][..i] == figures[..i];
    } else {
      assert figures[..i] == figures;
    }
  }

  lemma {:induction false} BranchEntriesPrefix(b: BranchId, skus: SkuSales, parts: map<string, PartId>, i: nat)
    requires i <= |skus|
    ensures BranchEntries(b, skus[..i], parts) <= BranchEntries(b, skus, parts)
    decreases |skus|
  {
    if i < |skus| {
      BranchEntriesPrefix(b, skus[..|skus| - 1], parts, i);
      assert skus[..|skus| - 1][..i] == skus[..i];
    } else {
      assert skus[..i] == skus;
    }
  }

  lemma {:induction false} EntriesPrefix(data: SalesData, branches: map<string, BranchId>, parts: map<string, PartId>,
                                         i: nat)
    requires i <= |data|
    ensures Entries(data[..i], branches, parts) <= Entries(data, branches, parts)
    decreases |data|
  {
    if i < |data| {
      EntriesPrefix(data[..|data| - 1], branches, parts, i);
      assert data[..|data| - 1][..i] == data[..i];
    } else {
      assert data[..i] == data;
    }
  }

  /** The movement table, updated in place. */
  class MovementTable {
    var rows: seq<Movement>

    constructor ()
      ensures rows == []
    {
      rows := [];
    }

    method RecordMovementFromSale(r: SaleRecord) returns (outcome: Result<Movement, DbError>)
      modifies this
      ensures match Upsert(old(rows), r)
              case Ok(next) => rows == next && outcome == Ok(r.Row())
              case Err(e) => rows == old(rows) && outcome == Err(e)
    {
      var hits, at := 0, 0;
      for i := 0 to |rows|
        invariant hits == Matches(rows[..i], r)
        invariant hits == 1 ==> at < i && SameKey(rows[at], r)
        invariant hits <= 1 ==> forall j :: 0 <= j < i && SameKey(rows[j], r) ==> hits == 1 && j == at
      {
        assert rows[..i + 1][..i] == rows[..i];
        if SameKey(rows[i], r) {
          hits, at := hits + 1, i;
        }
      }
      assert rows[..|rows|] == rows;
      if hits == 0 {
        rows := rows + [r.Row()];
      } else if hits == 1 {
        assert rows[at := r.Row()] == Overwrite(rows, r);
        rows := rows[at := r.Row()];
      } else {
        return Err(MultipleObjectsReturned);
      }
      return Ok(r.Row());
    }

    method ImportFigures(b: BranchId, p: PartId, figures: seq<real>, today: Date, before: nat)
      returns (recorded: nat, failed: bool)
      modifies this
      ensures Progress(rows, recorded, failed)
              == UpsertAll(Progress(old(rows), before, false), FigureRecords(b, p, figures, today))
    {
      recorded, failed := before, false;
      ghost var start := Progress(rows, before, false);
      for i := 0 to |figures|
        invariant !failed
        invariant Progress(rows, recorded, false) == UpsertAll(start, FigureRecords(b, p, figures[..i], today))
      {
        FigureStep(start, b, p, figures, today, i);
        if figures[i] != 0.0 {
          var outcome := RecordMovementFromSale(FigureRecord(b, p, figures[i], today, i));
          if outcome.Err? {
            FigureRecordsPrefix(b, p, figures, today, i + 1);
            FailedPrefix(start, FigureRecords(b, p, figures[..i + 1], today), FigureRecords(b, p, figures, today));
            return recorded, true;
          }
          recorded := recorded + 1;
        }
      }
      assert figures[..|figures|] == figures;
    }

    method ImportBranch(b: BranchId, skus: SkuSales, parts: map<string, PartId>, today: Date, before: nat)
      returns (recorded: nat, failed: bool)
      modifies this
      ensures Progress(rows, recorded, failed)
              == UpsertAll(Progress(old(rows), before, false), EntryRecords(BranchEntries(b, skus, parts), today))
    {
      recorded, failed := before, false;
      ghost var start, all := Progress(rows, before, false), BranchEntries(b, skus, parts);
      for i := 0 to |skus|
        invariant !failed
        invariant Progress(rows, recorded, false)
                == UpsertAll(start, EntryRecords(BranchEntries(b, skus[..i], parts), today))
      {
        ghost var done := BranchEntries(b, skus[..i], parts);
        assert skus[..i + 1][..i] == skus[..i];
        var (sku, figures) := skus[i];
        if sku in parts {
          ghost var e := Entry(b, parts[sku], figures);
          assert (done + [e])[..|done|] == done;
          UpsertAllConcat(start, EntryRecords(done, today), FigureRecords(b, parts[sku], figures, today));
          recorded, failed := ImportFigures(b, parts[sku], figures, today, recorded);
          if failed {
            BranchEntriesPrefix(b, skus, parts, i + 1);
            EntryRecordsPrefix(done + [e], all, today);
            FailedPrefix(start, EntryRecords(done + [e], today), EntryRecords(all, today));
            return;
          }
        } else {
          assert BranchEntries(b, skus[..i + 1], parts) == done;
        }
      }
      assert skus[..|skus|] == skus;
    }

    /** A failed upsert stops the import where it stands. */
    method ImportSales(data: SalesData, branches: map<string, BranchId>, parts: map<string, PartId>, today: Date)
      returns (recorded: nat, failed: bool)
      modifies this
      ensures Progress(rows, recorded, failed)
              == UpsertAll(Progress(old(rows), 0, false), Records(data, branches, parts, today))
    {
      recorded, failed := 0, false;
      ghost var start := Progress(rows, 0, false);
      for i := 0 to |data|
        invariant !failed
        invariant Progress(rows, recorded, false) == UpsertAll(start, Records(data[..i], branches, parts, today))
      {
        ghost var done := Entries(data[..i], branches, parts);
        assert data[..i + 1][..i] == data[..i];
        var (code, skus) := data[i];
        if code in branches {
          ghost var more := BranchEntries(branches[code], skus, parts);
          EntryRecordsConcat(done, more, today);
          UpsertAllConcat(start, EntryRecords(done, today), EntryRecords(more, today));
          recorded, failed := ImportBranch(branches[code], skus, parts, today, recorded);
          if failed {
            EntriesPrefix(data, branches, parts, i + 1);
            EntryRecordsPrefix(done + more, Entries(data, branches, parts), today);
            FailedPrefix(start, EntryRecords(done + more, today), Records(data, branches, parts, today));
            return;
          }
        } else {
          assert Entries(data[..i + 1], branches, parts) == done;
        }
      }
      assert data[..|data|] == data;
    }
  }
}
