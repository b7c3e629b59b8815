/** When the import gives each monthly figure a month of its own (apps/inventory/services.py). */
module FigureMonths {
  import opened Prelude
  import opened Ids
  import opened Calendar
  import opened Sales
  import opened Ingestion
  import opened ImportProperties

  /** Units that the figures put into month k. */
  function FiguresInMonth(figures: seq<real>, today: Date, k: MonthNumber): (units: real)
    ensures units >= 0.0
  {
    if figures == [] then 0.0
    else
      var i := |figures| - 1;
      FiguresInMonth(figures[..i], today, k) + if MonthNo(today - 30 * i) == k then Abs(figures[i]) else 0.0
  }

  lemma MonthTotalAppend(rows: seq<Movement>, m: Movement, part: PartId, scope: Scope, k: MonthNumber)
    ensures MonthTotal(rows + [m], part, scope, k)
            == MonthTotal(rows, part, scope, k)
               + if Counts(m, part, scope) && MonthNo(m.date) == k then Abs(m.quantity) else 0.0
  {
    assert (rows + [m])[..|rows|] == rows;
  }

  lemma MonthTotalAppendRecord(rows: seq<Movement>, before: seq<SaleRecord>, last: SaleRecord, part: PartId,
                               scope: Scope, k: MonthNumber)
    ensures MonthTotal(rows + RowsOf(before + [last]), part, scope, k)
            == MonthTotal(rows + RowsOf(before), part, scope, k)
               + if Counts(last.Row(), part, scope) && MonthNo(last.date) == k then Abs(last.quantity) else 0.0
  {
    assert rows + RowsOf(before + [last]) == (rows + RowsOf(before)) + [last.Row()];
    MonthTotalAppend(rows + RowsOf(before), last.Row(), part, scope, k);
  }

  lemma {:induction false} MonthAfterFigures(rows: seq<Movement>, b: BranchId, p: PartId, figures: seq<real>,
                                             today: Date, k: MonthNumber)
    ensures MonthTotal(rows + RowsOf(FigureRecords(b, p, figures, today)), p, OneOf({b}), k)
            == MonthTotal(rows, p, OneOf({b}), k) + FiguresInMonth(figures, today, k)
  {
    if figures == [] {
      assert rows + RowsOf([]) == rows;
    } else {
      var i := |figures| - 1;
      MonthAfterFigures(rows, b, p, figures[..i], today, k);
      FigureRecordsStep(b, p, figures, today);
      if figures[i] != 0.0 {
        MonthTotalAppendRecord(rows, FigureRecords(b, p, figures[..i], today), FigureRecord(b, p, figures[i], today, i),
                               p, OneOf({b}), k);
      }
    }
  }

  lemma {:induction false} NoSalesNoTotal(rows: seq<Movement>, part: PartId, scope: Scope, k: MonthNumber)
    requires forall m :: m in rows && Counts(m, part, scope) ==> MonthNo(m.date) != k
    ensures MonthTotal(rows, part, scope, k) == 0.0
  {
    if rows != [] {
      NoSalesNoTotal(rows[..|rows| - 1], part, scope, k);
    }
  }

  /** Among the figures only the one at i puts anything into month k, if any does. */
  ghost predicate OnlyAt(figures: seq<real>, today: Date, k: MonthNumber, i: nat) {
    forall j :: 0 <= j < |figures| && j != i && MonthNo(today - 30 * j) == k ==> figures[j] == 0.0
  }

  lemma {:induction false} OneFigureInMonth(figures: seq<real>, today: Date, k: MonthNumber, i: nat)
    requires OnlyAt(figures, today, k, i)
    ensures FiguresInMonth(figures, today, k)
            == if i < |figures| && MonthNo(today - 30 * i) == k then Abs(figures[i]) else 0.0
  {
    if figures != [] {
      var n := |figures| - 1;
      assert forall j :: 0 <= j < n ==> figures[..n][j] == figures[j];
      OneFigureInMonth(figures[..n], today, k, i);
    }
  }

  lemma {:induction false} AtLeastOne(figures: seq<real>, today: Date, i: nat)
    requires i < |figures|
    ensures FiguresInMonth(figures, today, MonthNo(today - 30 * i)) >= Abs(figures[i])
    decreases |figures|
  {
    if i < |figures| - 1 {
      AtLeastOne(figures[..|figures| - 1], today, i);
    }
  }

  lemma {:induction false} AtLeastTwo(figures: seq<real>, today: Date, i: nat)
    requires i + 1 < |figures| && MonthNo(today - 30 * (i + 1)) == MonthNo(today - 30 * i)
    ensures FiguresInMonth(figures, today, MonthNo(today - 30 * i)) >= Abs(figures[i]) + Abs(figures[i + 1])
    decreases |figures|
  {
    var n := |figures| - 1;
    if i + 1 < n {
      AtLeastTwo(figures[..n], today, i);
    } else {
      AtLeastOne(figures[..n], today, i);
    }
  }

  /** Figure i, dated on a 31st, and the next older one, dated on the first of that month, are both recorded. */
  predicate Collides(figures: seq<real>, today: Date, i: nat) {
    i + 1 < |figures| && DayOf(today - 30 * i) == 31 && figures[i] != 0.0 && figures[i + 1] != 0.0
  }

  /** The month that figure i is dated in shows that figure and nothing else. */
  ghost predicate HasItsMonth(rows: seq<Movement>, b: BranchId, p: PartId, figures: seq<real>, today: Date, i: nat)
    requires i < |figures|
  {
    MonthTotal(rows, p, OneOf({b}), MonthNo(today - 30 * i)) == Abs(figures[i])
  }

  lemma NeighboursWithoutCollision(figures: seq<real>, today: Date, i: nat, j: nat)
    requires i < j < |figures| && MonthNo(today - 30 * i) == MonthNo(today - 30 * j) && !Collides(figures, today, i)
    ensures figures[i] == 0.0 || figures[j] == 0.0
  {
    OneMonthMeansNeighbours(today, i, j);
  }

  lemma WithoutCollisionAlone(figures: seq<real>, today: Date, i: nat)
    requires i < |figures| && figures[i] != 0.0 && forall j: nat :: !Collides(figures, today, j)
    ensures OnlyAt(figures, today, MonthNo(today - 30 * i), i)
  {
    forall j: nat | j < |figures| && j != i && MonthNo(today - 30 * j) == MonthNo(today - 30 * i)
      ensures figures[j] == 0.0
    {
      if i < j {
        NeighboursWithoutCollision(figures, today, i, j);
      } else {
        NeighboursWithoutCollision(figures, today, j, i);
      }
    }
  }

  /** No earlier sale of the part at the branch lies in a month that a figure is dated in. */
  ghost predicate MonthsAreEmpty(rows: seq<Movement>, b: BranchId, p: PartId, figures: seq<real>, today: Date) {
    forall m, i :: m in rows && Counts(m, p, OneOf({b})) && 0 <= i < |figures| && figures[i] != 0.0 ==>
      MonthNo(m.date) != MonthNo(today - 30 * i)
  }

  lemma FiguresArriveFresh(rows: seq<Movement>, b: BranchId, p: PartId, figures: seq<real>, today: Date)
    requires MonthsAreEmpty(rows, b, p, figures, today)
    ensures UpsertAll(Progress(rows, 0, false), FigureRecords(b, p, figures, today)).rows
            == rows + RowsOf(FigureRecords(b, p, figures, today))
  {
    FigureRecordsAre(b, p, figures, today);
    forall r | r in FigureRecords(b, p, figures, today)
      ensures Fresh(rows, r)
    {
      var i :| 0 <= i < |figures| && figures[i] != 0.0 && r == FigureRecord(b, p, figures[i], today, i);
      assert Counts(r.Row(), p, OneOf({b}));
    }
    FreshRecordsAreAppended(Progress(rows, 0, false), FigureRecords(b, p, figures, today));
  }

  lemma HasItsMonthIff(rows: seq<Movement>, b: BranchId, p: PartId, figures: seq<real>, today: Date, i: nat)
    requires i < |figures| && figures[i] != 0.0 && MonthsAreEmpty(rows, b, p, figures, today)
    ensures HasItsMonth(UpsertAll(Progress(rows, 0, false), FigureRecords(b, p, figures, today)).rows, b, p, figures,
                        today, i)
            <==> FiguresInMonth(figures, today, MonthNo(today - 30 * i)) == Abs(figures[i])
  {
    FiguresArriveFresh(rows, b, p, figures, today);
    MonthAfterFigures(rows, b, p, figures, today, MonthNo(today - 30 * i));
    NoSalesNoTotal(rows, p, OneOf({b}), MonthNo(today - 30 * i));
  }

  lemma CollisionIsSeen(figures: seq<real>, today: Date, i: nat)
    requires Collides(figures, today, i)
    ensures FiguresInMonth(figures, today, MonthNo(today - 30 * i)) > Abs(figures[i])
  {
    SameMonthBackIff(today - 30 * i);
    AtLeastTwo(figures, today, i);
  }

  /**
   For a part without earlier sales in the months of the figures: every recorded figure has the month it is dated in
   to itself, exactly when no two neighbouring figures are recorded with the newer one on a 31st.
   */
  lemma FiguresHaveTheirMonthsIff(rows: seq<Movement>, b: BranchId, p: PartId, figures: seq<real>, today: Date)
    requires MonthsAreEmpty(rows, b, p, figures, today)
    ensures var done := UpsertAll(Progress(rows, 0, false), FigureRecords(b, p, figures, today)).rows;
            (forall i :: 0 <= i < |figures| && figures[i] != 0.0 ==> HasItsMonth(done, b, p, figures, today, i))
            <==> forall i: nat :: !Collides(figures, today, i)
  {
    var done := UpsertAll(Progress(rows, 0, false), FigureRecords(b, p, figures, today)).rows;
    forall i: nat | Collides(figures, today, i)
      ensures !HasItsMonth(done, b, p, figures, today, i)
    {
      HasItsMonthIff(rows, b, p, figures, today, i);
      CollisionIsSeen(figures, today, i);
    }
    if forall i: nat :: !Collides(figures, today, i) {
      forall i | 0 <= i < |figures| && figures[i] != 0.0
        ensures HasItsMonth(done, b, p, figures, today, i)
      {
        HasItsMonthIff(rows, b, p, figures, today, i);
        WithoutCollisionAlone(figures, today, i);
        OneFigureInMonth(figures, today, MonthNo(today - 30 * i), i);
      }
    }
  }
}
