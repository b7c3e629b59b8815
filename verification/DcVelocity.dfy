/**
 Velocity of one part at one branch, and of a distribution center in its two forms: from one summed
 series (apps/catalog/services.py) and as a sum of velocities (apps/catalog/planning.py and
 apps/recommendations/services.py).
 */
module DcVelocity {
  import opened Prelude
  import opened Ids
  import opened Sums
  import opened Calendar
  import opened Sales
  import opened Velocity

  datatype VelocityResult = VelocityResult(velocity: real, annualSales: real, isColdStart: bool)

  datatype VelocityError = NotADistributionCenter

  function BuildResult(monthlySales: seq<real>): VelocityResult {
    VelocityResult(WeightedVelocity(monthlySales), Sum(monthlySales), IsColdStart(monthlySales))
  }

  /** calculate_for_part for one branch. */
  function BranchVelocity(rows: seq<Movement>, part: PartId, b: BranchId, today: Date, n: nat): VelocityResult {
    BuildResult(MonthlySeries(rows, part, OneOf({b}), today, n))
  }

  function SumVelocities(rows: seq<Movement>, part: PartId, branches: seq<BranchId>, today: Date, n: nat): real {
    if branches == [] then 0.0
    else
      SumVelocities(rows, part, branches[..|branches| - 1], today, n)
      + BranchVelocity(rows, part, branches[|branches| - 1], today, n).velocity
  }

  /** The planner's velocity of a part at a center: its own plus that of every dependent branch. */
  function PlannerVelocity(rows: seq<Movement>, part: PartId, dc: BranchId, dependents: seq<BranchId>, today: Date,
                           n: nat)
    : real
  {
    BranchVelocity(rows, part, dc, today, n).velocity + SumVelocities(rows, part, dependents, today, n)
  }

  ghost function SetOf(branches: seq<BranchId>): set<BranchId> {
    set b | b in branches
  }

  /** Monthly sales of all parts over a set of branches. */
  function AggregateSeries(rows: seq<Movement>, parts: seq<PartId>, scope: Scope, today: Date, n: nat): (s: seq<real>)
    ensures |s| == n
  {
    if parts == [] then Zeros(n)
    else
      Plus(AggregateSeries(rows, parts[..|parts| - 1], scope, today, n),
           MonthlySeries(rows, parts[|parts| - 1], scope, today, n))
  }

  /** A window of no or fewer months is empty. */
  function WindowLength(months: int): (n: nat) {
    if months <= 0 then 0 else months
  }

  method AddInto(total: array<real>, monthlySales: seq<real>)
    requires total.Length == |monthlySales|
    modifies total
    ensures total[..] == Plus(old(total[..]), monthlySales)
  {
    for i := 0 to |monthlySales|
      invariant forall j :: 0 <= j < total.Length ==> total[j] == old(total[j]) + if j < i then monthlySales[j] else 0.0
    {
      total[i] := total[i] + monthlySales[i];
    }
  }

  /** The list of monthly totals is updated in place, part by part. */
  method CalculateForDc(rows: seq<Movement>, dc: BranchId, isCenter: bool, dependents: seq<BranchId>,
                        parts: seq<PartId>, today: Date, months: int)
    returns (r: Result<VelocityResult, VelocityError>)
    ensures r == if !isCenter then Err(NotADistributionCenter)
                 else Ok(BuildResult(AggregateSeries(rows, parts, OneOf({dc} + SetOf(dependents)), today,
                                                     WindowLength(months))))
  {
    if !isCenter {
      return Err(NotADistributionCenter);
    }
    var branches := {dc} + set b | b in dependents;
    var n := WindowLength(months);
    var aggregate := new real[n](_ => 0.0);
    assert aggregate[..] == Zeros(n);
    for p := 0 to |parts|
      invariant aggregate[..] == AggregateSeries(rows, parts[..p], OneOf(branches), today, n)
    {
      var monthlySales := GetMonthlySales(rows, parts[p], OneOf(branches), today, months);
      AddInto(aggregate, monthlySales);
      assert parts[..p + 1][..p] == parts[..p];
    }
    assert parts[..|parts|] == parts;
    return Ok(BuildResult(aggregate[..]));
  }

  /** Annual sales are the units of the window: one more movement counts if it is a sale in it. */
  lemma AnnualSalesAppend(rows: seq<Movement>, m: Movement, part: PartId, b: BranchId, today: Date, n: nat)
    ensures BranchVelocity(rows + [m], part, b, today, n).annualSales
            == BranchVelocity(rows, part, b, today, n).annualSales
               + if m.kind == Sale && m.part == part && m.branch == b
                    && MonthNo(today) - n < MonthNo(m.date) <= MonthNo(today)
                 then Abs(m.quantity) else 0.0
    ensures BranchVelocity([], part, b, today, n).annualSales == 0.0
  {
    AppendMovement(rows, m, part, OneOf({b}), today, n);
    SumOfZeros(MonthlySeries([], part, OneOf({b}), today, n));
  }

  // ----- the two forms agree

  lemma {:induction false} MonthTotalSplits(rows: seq<Movement>, part: PartId, others: set<BranchId>, b: BranchId,
                                            k: MonthNumber)
    requires b !in others
    ensures MonthTotal(rows, part, OneOf(others + {b}), k)
            == MonthTotal(rows, part, OneOf(others), k) + MonthTotal(rows, part, OneOf({b}), k)
  {
    if rows != [] {
      MonthTotalSplits(rows[..|rows| - 1], part, others, b, k);
    }
  }

  lemma SeriesSplits(rows: seq<Movement>, part: PartId, others: set<BranchId>, b: BranchId, today: Date, n: nat)
    requires b !in others
    ensures MonthlySeries(rows, part, OneOf(others + {b}), today, n)
            == Plus(MonthlySeries(rows, part, OneOf(others), today, n), MonthlySeries(rows, part, OneOf({b}), today, n))
  {
    forall i | 0 <= i < n
      ensures MonthlySeries(rows, part, OneOf(others + {b}), today, n)[i]
              == MonthlySeries(rows, part, OneOf(others), today, n)[i]
                 + MonthlySeries(rows, part, OneOf({b}), today, n)[i]
    {
      MonthTotalSplits(rows, part, others, b, WindowMonth(today, n, i));
    }
  }

  lemma {:induction false} NoBranchesNoSales(rows: seq<Movement>, part: PartId, k: MonthNumber)
    ensures MonthTotal(rows, part, OneOf({}), k) == 0.0
  {
    if rows != [] {
      NoBranchesNoSales(rows[..|rows| - 1], part, k);
    }
  }

  lemma ZeroSeriesHasNoVelocity(s: seq<real>)
    requires forall i :: 0 <= i < |s| ==> s[i] == 0.0
    ensures WeightedVelocity(s) == 0.0
  {
    if s != [] {
      VelocityBetween(s, 0.0, 0.0);
    }
  }

  ghost predicate Distinct<T>(s: seq<T>) {
    forall i, j :: 0 <= i < j < |s| ==> s[i] != s[j]
  }

  /** Summing sales over distinct branches and averaging is averaging each and summing. */
  lemma {:induction false} SumOfVelocities(rows: seq<Movement>, part: PartId, branches: seq<BranchId>, today: Date,
                                           n: nat)
    requires Distinct(branches)
    ensures WeightedVelocity(MonthlySeries(rows, part, OneOf(SetOf(branches)), today, n))
            == SumVelocities(rows, part, branches, today, n)
  {
    var series := MonthlySeries(rows, part, OneOf(SetOf(branches)), today, n);
    if branches == [] {
      assert SetOf(branches) == {};
      forall i | 0 <= i < n
        ensures series[i] == 0.0
      {
        NoBranchesNoSales(rows, part, WindowMonth(today, n, i));
      }
      ZeroSeriesHasNoVelocity(series);
    } else {
      var k := |branches| - 1;
      var b := branches[k];
      assert SetOf(branches) == SetOf(branches[..k]) + {b};
      SumOfVelocities(rows, part, branches[..k], today, n);
      SeriesSplits(rows, part, SetOf(branches[..k]), b, today, n);
      VelocityIsAdditive(MonthlySeries(rows, part, OneOf(SetOf(branches[..k])), today, n),
                         MonthlySeries(rows, part, OneOf({b}), today, n));
    }
  }

  /** The planner counts the center once more exactly when it is listed as its own dependent. */
  lemma PlannerAgainstSet(rows: seq<Movement>, part: PartId, dc: BranchId, dependents: seq<BranchId>, today: Date,
                          n: nat)
    requires Distinct(dependents)
    ensures PlannerVelocity(rows, part, dc, dependents, today, n)
            == WeightedVelocity(MonthlySeries(rows, part, OneOf({dc} + SetOf(dependents)), today, n))
               + if dc in dependents then BranchVelocity(rows, part, dc, today, n).velocity else 0.0
  {
    SumOfVelocities(rows, part, dependents, today, n);
    if dc in dependents {
      assert {dc} + SetOf(dependents) == SetOf(dependents);
    } else {
      assert {dc} + SetOf(dependents) == SetOf(dependents) + {dc};
      SeriesSplits(rows, part, SetOf(dependents), dc, today, n);
      VelocityIsAdditive(MonthlySeries(rows, part, OneOf(SetOf(dependents)), today, n),
                         MonthlySeries(rows, part, OneOf({dc}), today, n));
    }
  }

  function SumOfPlanner(rows: seq<Movement>, parts: seq<PartId>, dc: BranchId, dependents: seq<BranchId>, today: Date,
                        n: nat)
    : real
  {
    if parts == [] then 0.0
    else
      SumOfPlanner(rows, parts[..|parts| - 1], dc, dependents, today, n)
      + PlannerVelocity(rows, parts[|parts| - 1], dc, dependents, today, n)
  }

  function SumOfOwn(rows: seq<Movement>, parts: seq<PartId>, dc: BranchId, today: Date, n: nat): real {
    if parts == [] then 0.0
    else
      SumOfOwn(rows, parts[..|parts| - 1], dc, today, n)
      + BranchVelocity(rows, parts[|parts| - 1], dc, today, n).velocity
  }

  /**
   One velocity from the series summed over all parts and branches equals the planner's velocities
   summed over the parts; a center recorded as its own dependent is the only source of a difference,
   and the difference is exactly its own velocity.
   */
  lemma {:induction false} AggregateEqualsSum(rows: seq<Movement>, parts: seq<PartId>, dc: BranchId,
                                              dependents: seq<BranchId>, today: Date, n: nat)
    requires Distinct(dependents)
    ensures SumOfPlanner(rows, parts, dc, dependents, today, n)
            == BuildResult(AggregateSeries(rows, parts, OneOf({dc} + SetOf(dependents)), today, n)).velocity
               + if dc in dependents then SumOfOwn(rows, parts, dc, today, n) else 0.0
  {
    var scope := OneOf({dc} + SetOf(dependents));
    if parts == [] {
      ZeroSeriesHasNoVelocity(AggregateSeries(rows, parts, scope, today, n));
    } else {
      var k := |parts| - 1;
      AggregateEqualsSum(rows, parts[..k], dc, dependents, today, n);
      PlannerAgainstSet(rows, parts[k], dc, dependents, today, n);
      VelocityIsAdditive(AggregateSeries(rows, parts[..k], scope, today, n),
                         MonthlySeries(rows, parts[k], scope, today, n));
    }
  }
}
