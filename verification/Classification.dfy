/** Volume class and lifecycle stage of a part (apps/catalog/classification.py). */
module Classification {
  import opened Prelude
  import opened Ids
  import opened Calendar
  import opened Sales
  import opened Velocity

  datatype Stage = New | Active | PreObsolete | Obsolete | Inactive | SpecialCampaign | SpecialNonStock

  datatype Part = Part(id: PartId, createdOn: Date, leadTimeDays: nat, isCampaign: bool, isNonStock: bool)

  function VolumeClass(annualSales: int): string {
    if annualSales >= 251 then "VC1"
    else if annualSales >= 121 then "VC2"
    else if annualSales >= 61 then "VC3"
    else if annualSales >= 31 then "VC4"
    else if annualSales >= 15 then "VC5"
    else if annualSales >= 7 then "VC6"
    else if annualSales >= 4 then "VC7"
    else if annualSales >= 1 then "VC8"
    else ""
  }

  /** The hard-coded rules used when no sector is configured. */
  function LifecycleStage(sinceFirstSeen: Option<int>, sinceLastSale: Option<int>, hasStock: bool): string {
    if sinceLastSale.Some? && sinceLastSale.value >= 24 then "OBSOLETE"
    else if sinceLastSale.Some? && sinceLastSale.value >= 12 then (if hasStock then "PRE_OBSOLETE" else "INACTIVE")
    else if sinceFirstSeen.Some? && sinceFirstSeen.value <= 6 then "NEW"
    else "ACTIVE"
  }

  function NewSubtype(firstSixMonthSales: int): string {
    if firstSixMonthSales > 15 then "N1" else if firstSixMonthSales >= 4 then "N2" else "N3"
  }

  /** A sale of the part in scope that is not dated after today. */
  predicate PastSale(m: Movement, part: PartId, scope: Scope, today: Date) {
    Counts(m, part, scope) && m.date <= today
  }

  /** Date of the latest past sale. */
  function LastSale(rows: seq<Movement>, part: PartId, scope: Scope, today: Date): (last: Option<Date>)
    ensures last.Some? ==> exists m :: m in rows && PastSale(m, part, scope, today) && m.date == last.value
    ensures forall m :: m in rows && PastSale(m, part, scope, today) ==> last.Some? && m.date <= last.value
  {
    if rows == [] then None
    else
      var m := rows[|rows| - 1];
      var earlier := LastSale(rows[..|rows| - 1], part, scope, today);
      if !PastSale(m, part, scope, today) then earlier
      else if earlier.Some? && earlier.value >= m.date then earlier
      else Some(m.date)
  }

  /** Signed quantity of the past sales between two dates. */
  function QuantityBetween(rows: seq<Movement>, part: PartId, scope: Scope, today: Date, first: Date,
                           last: Date): real {
    if rows == [] then 0.0
    else
      var m := rows[|rows| - 1];
      QuantityBetween(rows[..|rows| - 1], part, scope, today, first, last)
      + if PastSale(m, part, scope, today) && first <= m.date <= last then m.quantity else 0.0
  }

  function FirstSixMonthSales(rows: seq<Movement>, part: Part, scope: Scope, today: Date): int {
    var end := part.createdOn + 180;
    Abs(QuantityBetween(rows, part.id, scope, today, part.createdOn, if end < today then end else today)).Floor
  }

  function MonthsSinceFirstSeen(part: Part, today: Date): int {
    (YearOf(today) - YearOf(part.createdOn)) * 12 + (MonthOf(today) - MonthOf(part.createdOn))
  }

  function DetermineStage(rows: seq<Movement>, part: Part, scope: Scope, hasStock: bool, today: Date): (Stage, string) {
    if part.isCampaign then (SpecialCampaign, "NS-C")
    else if part.isNonStock then (SpecialNonStock, "NS-NS")
    else
      var age := MonthsSinceFirstSeen(part, today);
      match LastSale(rows, part.id, scope, today)
      case None =>
        if age <= 6 then (New, NewSubtype(0))
        else if !hasStock then (Inactive, "INACT")
        else (Active, "")
      case Some(last) =>
        if today - last > 730 then (Obsolete, "OBS-R")
        else if today - last > 365 then (if !hasStock then (Inactive, "INACT") else (PreObsolete, "OBS-P"))
        else if age <= 6 then (New, NewSubtype(FirstSixMonthSales(rows, part, scope, today)))
        else (Active, "")
  }

  /** The stages of parts that have stopped selling. */
  predicate Stale(stage: Stage) {
    stage.Obsolete? || stage.PreObsolete? || stage.Inactive?
  }

  ghost predicate SoldWithinAYear(rows: seq<Movement>, part: PartId, scope: Scope, today: Date) {
    exists m :: m in rows && PastSale(m, part, scope, today) && today - m.date <= 365
  }

  ghost predicate EverSold(rows: seq<Movement>, part: PartId, scope: Scope, today: Date) {
    exists m :: m in rows && PastSale(m, part, scope, today)
  }

  /** When a part counts as stale, said without the latest sale and the order of the tests. */
  lemma StaleIff(rows: seq<Movement>, part: Part, scope: Scope, hasStock: bool, today: Date)
    ensures Stale(DetermineStage(rows, part, scope, hasStock, today).0)
            <==> !part.isCampaign && !part.isNonStock && !SoldWithinAYear(rows, part.id, scope, today)
                 && (EverSold(rows, part.id, scope, today) || (MonthsSinceFirstSeen(part, today) > 6 && !hasStock))
  {
    var last := LastSale(rows, part.id, scope, today);
    if last.Some? {
      var m :| m in rows && PastSale(m, part.id, scope, today) && m.date == last.value;
      assert EverSold(rows, part.id, scope, today);
    }
  }

  ghost predicate SoldWithin(rows: seq<Movement>, part: PartId, scope: Scope, today: Date, days: int) {
    exists m :: m in rows && PastSale(m, part, scope, today) && today - m.date <= days
  }

  /** Whole calendar months between the two dates. */
  lemma MonthsAreCalendarMonths(part: Part, today: Date)
    ensures MonthsSinceFirstSeen(part, today) == MonthNo(today) - MonthNo(part.createdOn)
  {
  }

  /** Exactly when a part is in each stage, in terms of its flags, sales, months of age and stock. */
  ghost predicate StageFits(rows: seq<Movement>, part: Part, scope: Scope, hasStock: bool, today: Date, stage: Stage) {
    var plain := !part.isCampaign && !part.isNonStock;
    var young := MonthNo(today) - MonthNo(part.createdOn) <= 6;
    var ever, year, twoYears := EverSold(rows, part.id, scope, today), SoldWithin(rows, part.id, scope, today, 365),
                                SoldWithin(rows, part.id, scope, today, 730);
    && (stage.SpecialCampaign? <==> part.isCampaign)
    && (stage.SpecialNonStock? <==> !part.isCampaign && part.isNonStock)
    && (stage.Obsolete? <==> plain && ever && !twoYears)
    && (stage.PreObsolete? <==> plain && twoYears && !year && hasStock)
    && (stage.Inactive? <==> plain && !hasStock && ((twoYears && !year) || (!ever && !young)))
    && (stage.New? <==> plain && young && (year || !ever))
    && (stage.Active? <==> plain && !young && (year || (!ever && hasStock)))
  }

  lemma StagesExactly(rows: seq<Movement>, part: Part, scope: Scope, hasStock: bool, today: Date)
    ensures StageFits(rows, part, scope, hasStock, today, DetermineStage(rows, part, scope, hasStock, today).0)
  {
    MonthsAreCalendarMonths(part, today);
    var last := LastSale(rows, part.id, scope, today);
    if last.Some? {
      var m :| m in rows && PastSale(m, part.id, scope, today) && m.date == last.value;
      assert EverSold(rows, part.id, scope, today);
      assert SoldWithin(rows, part.id, scope, today, 365) <==> today - last.value <= 365;
      assert SoldWithin(rows, part.id, scope, today, 730) <==> today - last.value <= 730;
    }
  }

  /** One more movement counts with its sign if it is a past sale between the two dates, else not at all. */
  lemma QuantityBetweenAppend(rows: seq<Movement>, m: Movement, part: PartId, scope: Scope, today: Date, first: Date,
                              last: Date)
    ensures QuantityBetween([], part, scope, today, first, last) == 0.0
    ensures QuantityBetween(rows + [m], part, scope, today, first, last)
            == QuantityBetween(rows, part, scope, today, first, last)
               + if m.kind == Sale && m.part == part && scope.Covers(m.branch) && m.date <= today
                   && first <= m.date <= last
                 then m.quantity else 0.0
  {
    assert (rows + [m])[..|rows|] == rows;
  }

  lemma {:induction false} NothingAfterToday(rows: seq<Movement>, part: PartId, scope: Scope, today: Date, first: Date,
                                             last: Date)
    requires today < last
    ensures QuantityBetween(rows, part, scope, today, first, last)
            == QuantityBetween(rows, part, scope, today, first, today)
  {
    if rows != [] {
      NothingAfterToday(rows[..|rows| - 1], part, scope, today, first, last);
    }
  }

  /** The first six months are the 180 days from the part's creation, and whole units are counted. */
  lemma FirstSixMonthsAreCounted(rows: seq<Movement>, part: Part, scope: Scope, today: Date)
    ensures var units := Abs(QuantityBetween(rows, part.id, scope, today, part.createdOn, part.createdOn + 180));
            var counted := FirstSixMonthSales(rows, part, scope, today);
            counted as real <= units < counted as real + 1.0
  {
    if today < part.createdOn + 180 {
      NothingAfterToday(rows, part.id, scope, today, part.createdOn, part.createdOn + 180);
    }
  }

  /** The code written beside the stage; new parts by the units of their first 180 days: over 15, 4 to 15, fewer. */
  lemma StageCodes(rows: seq<Movement>, part: Part, scope: Scope, hasStock: bool, today: Date)
    ensures var (stage, code) := DetermineStage(rows, part, scope, hasStock, today);
            var units := FirstSixMonthSales(rows, part, scope, today);
            && (stage.SpecialCampaign? ==> code == "NS-C") && (stage.SpecialNonStock? ==> code == "NS-NS")
            && (stage.Obsolete? ==> code == "OBS-R") && (stage.PreObsolete? ==> code == "OBS-P")
            && (stage.Inactive? ==> code == "INACT") && (stage.Active? ==> code == "")
            && (stage.New? ==> code == if !EverSold(rows, part.id, scope, today) || units <= 3 then "N3"
                                       else if units <= 15 then "N2" else "N1")
  {
    var last := LastSale(rows, part.id, scope, today);
    if last.Some? {
      var m :| m in rows && PastSale(m, part.id, scope, today) && m.date == last.value;
      assert EverSold(rows, part.id, scope, today);
    }
  }

  lemma {:induction false} MonthTotalWitness(rows: seq<Movement>, part: PartId, scope: Scope, k: MonthNumber)
    requires MonthTotal(rows, part, scope, k) != 0.0
    ensures exists m :: m in rows && Counts(m, part, scope) && MonthNo(m.date) == k && m.quantity != 0.0
  {
    var last := rows[|rows| - 1];
    assert last in rows;
    if !(Counts(last, part, scope) && MonthNo(last.date) == k && last.quantity != 0.0) {
      MonthTotalWitness(rows[..|rows| - 1], part, scope, k);
    }
  }

  /** The window that decides cold start, and the day counts that decide staleness, agree. */
  lemma WarmPartsAreNotStale(rows: seq<Movement>, part: Part, scope: Scope, hasStock: bool, today: Date)
    requires !IsColdStart(MonthlySeries(rows, part.id, scope, today, 12))
    requires forall m :: m in rows && Counts(m, part.id, scope) ==> m.date <= today
    ensures !Stale(DetermineStage(rows, part, scope, hasStock, today).0)
  {
    var i :| 0 <= i < 12 && MonthlySeries(rows, part.id, scope, today, 12)[i] != 0.0;
    var k := WindowMonth(today, 12, i);
    MonthTotalWitness(rows, part.id, scope, k);
    var m :| m in rows && Counts(m, part.id, scope) && MonthNo(m.date) == k && m.quantity != 0.0;
    WindowIsAtMostAYear(today, m.date);
    assert PastSale(m, part.id, scope, today);
    StaleIff(rows, part, scope, hasStock, today);
  }

  lemma OnlyPastSaleIsLast(past: Movement, ahead: Movement, part: PartId, scope: Scope, today: Date)
    requires PastSale(past, part, scope, today) && today < ahead.date
    ensures LastSale([past, ahead], part, scope, today) == Some(past.date)
  {
    assert past in [past, ahead];
  }

  lemma SaleThisMonthWarms(past: Movement, ahead: Movement, part: PartId, scope: Scope, today: Date)
    requires Counts(ahead, part, scope) && MonthNo(ahead.date) == MonthNo(today) && ahead.quantity != 0.0
    ensures !IsColdStart(MonthlySeries([past, ahead], part, scope, today, 12))
  {
    assert MonthTotal([past, ahead], part, scope, MonthNo(today)) > 0.0;
    assert MonthlySeries([past, ahead], part, scope, today, 12)[11] > 0.0;
  }

  /** On any day but the last of a month a sale dated tomorrow can make a warm part Obsolete. */
  lemma FutureSaleMakesAWarmPartStale(part: Part, b: BranchId, today: Date)
    requires !part.isCampaign && !part.isNonStock && MonthNo(today + 1) == MonthNo(today)
    ensures var rows := [Movement(b, part.id, Sale, -1.0, today - 731, "dms", ""),
                         Movement(b, part.id, Sale, -1.0, today + 1, "dms", "")];
            !IsColdStart(MonthlySeries(rows, part.id, OneOf({b}), today, 12))
            && DetermineStage(rows, part, OneOf({b}), true, today).0 == Obsolete
  {
    var past := Movement(b, part.id, Sale, -1.0, today - 731, "dms", "");
    var ahead := Movement(b, part.id, Sale, -1.0, today + 1, "dms", "");
    OnlyPastSaleIsLast(past, ahead, part.id, OneOf({b}), today);
    SaleThisMonthWarms(past, ahead, part.id, OneOf({b}), today);
  }

  /** On the last day of a month the window holds no date ahead, so nothing need be asked of the dates. */
  lemma LastDayOfMonthIsSafe(rows: seq<Movement>, part: Part, scope: Scope, hasStock: bool, today: Date)
    requires !IsColdStart(MonthlySeries(rows, part.id, scope, today, 12))
    requires MonthNo(today + 1) != MonthNo(today)
    ensures !Stale(DetermineStage(rows, part, scope, hasStock, today).0)
  {
    var i :| 0 <= i < 12 && MonthlySeries(rows, part.id, scope, today, 12)[i] != 0.0;
    var k := WindowMonth(today, 12, i);
    MonthTotalWitness(rows, part.id, scope, k);
    var m :| m in rows && Counts(m, part.id, scope) && MonthNo(m.date) == k && m.quantity != 0.0;
    WindowIsAtMostAYear(today, m.date);
    WindowEndsToday(today, m.date);
    StaleIff(rows, part, scope, hasStock, today);
  }

  lemma WindowEndsToday(today: Date, d: Date)
    requires MonthNo(today + 1) != MonthNo(today) && MonthNo(d) <= MonthNo(today)
    ensures d <= today
  {
    if today < d {
      MonthNoIsMonotone(today, today + 1);
      MonthNoIsMonotone(today + 1, d);
    }
  }

  /** The warm parts of a branch are safe from staleness whatever the movements. */
  ghost predicate WarmIsLive(part: Part, b: BranchId, today: Date) {
    forall rows :: !IsColdStart(MonthlySeries(rows, part.id, OneOf({b}), today, 12)) ==>
      !Stale(DetermineStage(rows, part, OneOf({b}), true, today).0)
  }

  /** Without any condition on the dates of sales, warm parts are never stale exactly on the last day of a month. */
  lemma WarmIsLiveIffLastDay(part: Part, b: BranchId, today: Date)
    requires !part.isCampaign && !part.isNonStock
    ensures WarmIsLive(part, b, today) <==> MonthNo(today + 1) != MonthNo(today)
  {
    if MonthNo(today + 1) == MonthNo(today) {
      FutureSaleMakesAWarmPartStale(part, b, today);
    } else {
      forall rows | !IsColdStart(MonthlySeries(rows, part.id, OneOf({b}), today, 12))
        ensures !Stale(DetermineStage(rows, part, OneOf({b}), true, today).0)
      {
        LastDayOfMonthIsSafe(rows, part, OneOf({b}), true, today);
      }
    }
  }
}
