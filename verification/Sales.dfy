/**
 Stock movements, the monthly sales window read by the velocity calculator
 (apps/catalog/services.py) and the keyed upsert of imported sales (apps/inventory/services.py).
 */
module Sales {
  import opened Prelude
  import opened Ids
  import opened Sums
  import opened Calendar

  datatype MovementKind = Sale | Purchase | TransferOut | TransferIn | Adjustment | Return

  /** Sales carry negative quantities. */
  datatype Movement = Movement(branch: BranchId, part: PartId, kind: MovementKind, quantity: real,
                               date: Date, source: string, reference: string)

  /** Which branches a query covers: the whole tenant, or the branches of a set. */
  datatype Scope = AllBranches | OneOf(branches: set<BranchId>) {
    predicate Covers(b: BranchId) {
      AllBranches? || b in branches
    }
  }

  predicate Counts(m: Movement, part: PartId, scope: Scope) {
    m.kind.Sale? && m.part == part && scope.Covers(m.branch)
  }

  /** Units sold in month k. */
  function MonthTotal(rows: seq<Movement>, part: PartId, scope: Scope, k: MonthNumber): (t: real)
    ensures 0.0 <= t
  {
    if rows == [] then 0.0
    else
      var m := rows[|rows| - 1];
      MonthTotal(rows[..|rows| - 1], part, scope, k)
      + if Counts(m, part, scope) && MonthNo(m.date) == k then Abs(m.quantity) else 0.0
  }

  /** Month number of the i-th entry, oldest first, of an n-month window. */
  function WindowMonth(today: Date, n: nat, i: nat): MonthNumber {
    MonthNo(today) - (n - 1) + i
  }

  /** Monthly totals, oldest to newest. */
  function MonthlySeries(rows: seq<Movement>, part: PartId, scope: Scope, today: Date, n: nat): (s: seq<real>)
    ensures |s| == n
  {
    seq(n, i requires 0 <= i < n => MonthTotal(rows, part, scope, WindowMonth(today, n, i)))
  }

  method MonthSequence(today: Date, months: int) returns (s: seq<(int, int)>)
    ensures |s| == if months <= 0 then 0 else months
    ensures forall i :: 0 <= i < |s| ==> 1 <= s[i].1 <= 12 && 12 * s[i].0 + s[i].1 - 1 == WindowMonth(today, months, i)
  {
    s := [];
    if months <= 0 {
      return;
    }
    var offset := months - 1;
    while offset >= 0
      invariant -1 <= offset < months && |s| == months - 1 - offset
      invariant forall i :: 0 <= i < |s| ==>
              1 <= s[i].1 <= 12 && 12 * s[i].0 + s[i].1 - 1 == WindowMonth(today, months, i)
    {
      var year, month := YearOf(today), MonthOf(today) - offset;
      while month <= 0
        invariant month <= 12 && 12 * year + month - 1 == MonthNo(today) - offset
        decreases -month
      {
        year, month := year - 1, month + 12;
      }
      s := s + [(year, month)];
      offset := offset - 1;
    }
  }

  lemma YearsAscend(a: (int, int), b: (int, int))
    requires 1 <= a.1 <= 12 && 1 <= b.1 <= 12 && 12 * a.0 + a.1 <= 12 * b.0 + b.1
    ensures a.0 <= b.0
  {
  }

  function Lookup(totals: map<(int, int), real>, key: (int, int)): real {
    if key in totals then totals[key] else 0.0
  }

  /** The dictionary holds the total of every month of the years first to last. */
  ghost predicate Bucketed(totals: map<(int, int), real>, rows: seq<Movement>, part: PartId, scope: Scope,
                           first: int, last: int) {
    forall key: (int, int) :: first <= key.0 <= last && 1 <= key.1 <= 12 ==>
      Lookup(totals, key) == MonthTotal(rows, part, scope, 12 * key.0 + key.1 - 1)
  }

  lemma BucketStep(totals: map<(int, int), real>, rows: seq<Movement>, m: Movement, part: PartId, scope: Scope,
                   first: int, last: int, next: map<(int, int), real>)
    requires Bucketed(totals, rows, part, scope, first, last)
    requires var key := (YearOf(m.date), MonthOf(m.date));
             next == if Counts(m, part, scope) && first <= YearOf(m.date) <= last
                     then totals[key := Lookup(totals, key) + Abs(m.quantity)] else totals
    ensures Bucketed(next, rows + [m], part, scope, first, last)
  {
    assert (rows + [m])[..|rows|] == rows;
    forall key: (int, int) | first <= key.0 <= last && 1 <= key.1 <= 12
      ensures Lookup(next, key) == MonthTotal(rows + [m], part, scope, 12 * key.0 + key.1 - 1)
    {
      var k := 12 * key.0 + key.1 - 1;
      assert Lookup(totals, key) == MonthTotal(rows, part, scope, k);
      assert MonthNo(m.date) == k <==> key == (YearOf(m.date), MonthOf(m.date));
    }
  }

  /** Totals per (year, month) over the movements of the years first to last. */
  method BucketSales(rows: seq<Movement>, part: PartId, scope: Scope, first: int, last: int)
    returns (totals: map<(int, int), real>)
    ensures Bucketed(totals, rows, part, scope, first, last)
  {
    totals := map[];
    for i := 0 to |rows|
      invariant Bucketed(totals, rows[..i], part, scope, first, last)
    {
      var m := rows[i];
      ghost var before := totals;
      if Counts(m, part, scope) && first <= YearOf(m.date) <= last {
        var key := (YearOf(m.date), MonthOf(m.date));
        if key !in totals {
          totals := totals[key := 0.0];
        }
        totals := totals[key := totals[key] + Abs(m.quantity)];
        assert totals == before[key := Lookup(before, key) + Abs(m.quantity)];
      }
      BucketStep(before, rows[..i], m, part, scope, first, last, totals);
      assert rows[..i + 1] == rows[..i] + [m];
    }
    assert rows[..|rows|] == rows;
  }

  /** The buckets hold every month of a sequence that stays within their years. */
  lemma BucketsGiveMonth(totals: map<(int, int), real>, rows: seq<Movement>, part: PartId, scope: Scope,
                         sequence: seq<(int, int)>, i: nat, k: MonthNumber)
    requires i < |sequence| && forall j :: 0 <= j < |sequence| ==> 1 <= sequence[j].1 <= 12
    requires forall j :: 0 <= j < |sequence| - 1 ==>
               12 * sequence[j].0 + sequence[j].1 <= 12 * sequence[j + 1].0 + sequence[j + 1].1
    requires Bucketed(totals, rows, part, scope, sequence[0].0, sequence[|sequence| - 1].0)
    requires 12 * sequence[i].0 + sequence[i].1 - 1 == k
    ensures Lookup(totals, sequence[i]) == MonthTotal(rows, part, scope, k)
  {
    SequenceAscends(sequence, 0, i);
    SequenceAscends(sequence, i, |sequence| - 1);
    YearsAscend(sequence[0], sequence[i]);
    YearsAscend(sequence[i], sequence[|sequence| - 1]);
  }

  lemma {:induction false} SequenceAscends(sequence: seq<(int, int)>, i: nat, j: nat)
    requires i <= j < |sequence|
    requires forall k :: 0 <= k < |sequence| - 1 ==>
               12 * sequence[k].0 + sequence[k].1 <= 12 * sequence[k + 1].0 + sequence[k + 1].1
    ensures 12 * sequence[i].0 + sequence[i].1 <= 12 * sequence[j].0 + sequence[j].1
    decreases j
  {
    if i < j {
      SequenceAscends(sequence, i, j - 1);
      assert sequence[j] == sequence[j - 1 + 1];
    }
  }

  /** The window, read month by month out of the buckets. */
  method GetMonthlySales(rows: seq<Movement>, part: PartId, scope: Scope, today: Date, months: int)
    returns (series: seq<real>)
    ensures series == MonthlySeries(rows, part, scope, today, if months <= 0 then 0 else months)
  {
    var sequence := MonthSequence(today, months);
    series := [];
    if sequence == [] {
      return;
    }
    var first, last := sequence[0].0, sequence[|sequence| - 1].0;
    var totals := BucketSales(rows, part, scope, first, last);
    for i := 0 to |sequence|
      invariant |series| == i
      invariant forall j :: 0 <= j < i ==> series[j] == Lookup(totals, sequence[j])
    {
      series := series + [Lookup(totals, sequence[i])];
    }
    forall j | 0 <= j < |sequence|
      ensures series[j] == MonthTotal(rows, part, scope, WindowMonth(today, months, j))
    {
      BucketsGiveMonth(totals, rows, part, scope, sequence, j, WindowMonth(today, months, j));
    }
  }

  // ----- what one more movement does to the window

  lemma {:induction false} SumUpdate(s: seq<real>, j: nat, v: real)
    requires j < |s|
    ensures Sum(s[j := v]) == Sum(s) - s[j] + v
  {
    var k := |s| - 1;
    if j < k {
      SumUpdate(s[..k], j, v);
      assert s[j := v][..k] == s[..k][j := v];
    } else {
      assert s[j := v][..k] == s[..k];
    }
  }

  /** Sales of the window, services.py's annual_sales. */
  function WindowTotal(rows: seq<Movement>, part: PartId, scope: Scope, today: Date, n: nat): real {
    Sum(MonthlySeries(rows, part, scope, today, n))
  }

  lemma SeriesAfterAppend(rows: seq<Movement>, m: Movement, part: PartId, scope: Scope, today: Date, n: nat)
    ensures var before, after := MonthlySeries(rows, part, scope, today, n),
            MonthlySeries(rows + [m], part, scope, today, n);
            var j := MonthNo(m.date) - WindowMonth(today, n, 0);
            after == if Counts(m, part, scope) && 0 <= j < n then before[j := before[j] + Abs(m.quantity)] else before
  {
    assert (rows + [m])[..|rows|] == rows;
  }

  lemma AppendMovement(rows: seq<Movement>, m: Movement, part: PartId, scope: Scope, today: Date, n: nat)
    ensures WindowTotal(rows + [m], part, scope, today, n) == WindowTotal(rows, part, scope, today, n)
            + if Counts(m, part, scope) && InWindow(today, n, MonthNo(m.date)) then Abs(m.quantity) else 0.0
  {
    var before := MonthlySeries(rows, part, scope, today, n);
    var j := MonthNo(m.date) - WindowMonth(today, n, 0);
    SeriesAfterAppend(rows, m, part, scope, today, n);
    if Counts(m, part, scope) && 0 <= j < n {
      SumUpdate(before, j, before[j] + Abs(m.quantity));
    }
  }
}
