/**
 Carrying out several recommendations of one run: the sources of each were resolved without reserving
 anything for the others (apps/recommendations/source_resolution.py, apps/recommendations/services.py).
 */
module RunSettlement {
  import opened Prelude
  import opened Ids
  import opened Calendar
  import opened Classification
  import opened Planning
  import opened DcVelocity
  import opened SourceResolution
  import opened Market
  import StableSort
  import Sales
  import Velocity
  import Overrides
  import Transit

  /** A recommendation of the part that is carried out. */
  datatype Order = Order(dest: Branch, needed: real)

  /** What a list of allocations takes from a branch. */
  function TakenFrom(g: seq<Allocation>, b: BranchId): real {
    if g == [] then 0.0 else (if g[0].branch == b then g[0].quantity else 0.0) + TakenFrom(g[1..], b)
  }

  /** What all orders together take from a branch, each resolved against the same tables. */
  function Drawn(m: Data, part: Part, orders: seq<Order>, b: BranchId): real {
    if orders == [] then 0.0
    else
      var o := orders[|orders| - 1];
      Drawn(m, part, orders[..|orders| - 1], b) + TakenFrom(Allocations(m, part, o.dest, o.needed), b)
  }

  function CarryOut(m: Data, part: Part, orders: seq<Order>): Transit.Stock {
    if orders == [] then m.stock
    else
      var o := orders[|orders| - 1];
      var before := CarryOut(m, part, orders[..|orders| - 1]);
      Credit(Debit(before, part.id, Allocations(m, part, o.dest, o.needed)), (o.dest.id, part.id), o.needed)
  }

  lemma {:induction false} DebitTakes(stock: Transit.Stock, part: PartId, g: seq<Allocation>, b: BranchId)
    ensures Transit.LevelAt(Debit(stock, part, g), (b, part))
            == Transit.Level(Transit.LevelAt(stock, (b, part)).available - TakenFrom(g, b),
                             Transit.LevelAt(stock, (b, part)).inTransit)
    decreases |g|
  {
    if g != [] {
      var k := (g[0].branch, part);
      var level := Transit.LevelAt(stock, k);
      DebitTakes(stock[k := level.(available := level.available - g[0].quantity)], part, g[1..], b);
    }
  }

  lemma {:induction false} StockAfterAll(m: Data, part: Part, orders: seq<Order>, b: BranchId)
    requires forall o :: o in orders ==> o.dest.id != b
    ensures var before := Transit.LevelAt(m.stock, (b, part.id));
            Transit.LevelAt(CarryOut(m, part, orders), (b, part.id))
            == Transit.Level(before.available - Drawn(m, part, orders, b), before.inTransit)
  {
    if orders != [] {
      var k := |orders| - 1;
      var o := orders[k];
      assert o in orders;
      StockAfterAll(m, part, orders[..k], b);
      DebitTakes(CarryOut(m, part, orders[..k]), part.id, Allocations(m, part, o.dest, o.needed), b);
    }
  }

  /**
   After any number of orders a branch that receives none of them orders nothing, by whatever velocity
   it is planned, exactly when all that is drawn from it leaves it at its target, or its in-transit
   stock alone covers the target.
   */
  lemma SourceIsSettledIff(m: Data, part: Part, orders: seq<Order>, b: BranchId, velocity: real)
    requires forall o :: o in orders ==> o.dest.id != b
    ensures var level := Transit.LevelAt(m.stock, (b, part.id));
            var target, inTransit := PlanFor(m, part, b, velocity).planningTarget, ClampNonNegative(level.inTransit);
            PlanFor(m.(stock := CarryOut(m, part, orders)), part, b, velocity).orderQuantity == 0.0
            <==> Drawn(m, part, orders, b) <= level.available + inTransit - target || target <= inTransit
  {
    var level := Transit.LevelAt(m.stock, (b, part.id));
    StockAfterAll(m, part, orders, b);
    GiverIsSettledIff(EffectiveVelocity(m, part, b, velocity), TermsOf(m, part), level.available, level.inTransit,
                      Drawn(m, part, orders, b));
  }

  // ----- two branches in need and one with excess

  const GIVER := Branch(0, true, false, None)
  const FIRST := Branch(1, true, false, None)
  const SECOND := Branch(2, true, false, None)

  function SetTo(part: Part, b: BranchId, amount: real): Overrides.Override {
    Overrides.Override(b, part.id, Some(b), Overrides.Persistent, amount, None, "", 0, 0, "")
  }

  function SaleAt(part: Part, b: BranchId, today: Date): Sales.Movement {
    Sales.Movement(b, part.id, Sales.Sale, -1.0, today, "dms", "")
  }

  /** A hundred at the giver, who plans for 30 a month; two empty branches that plan for 60. */
  function Rush(part: Part, today: Date): Data {
    Data(today, [GIVER, FIRST, SECOND], [part], [], map[(0, part.id) := Transit.Level(100.0, 0.0)],
         [SaleAt(part, 1, today), SaleAt(part, 2, today)],
         [SetTo(part, 0, 30.0), SetTo(part, 1, 60.0), SetTo(part, 2, 60.0)], None, None)
  }

  /** The override of a branch is the one in force there. */
  lemma RushOverrides(part: Part, today: Date, b: BranchId)
    requires b <= 2
    ensures Overrides.ActiveOverride(Rush(part, today).overrides, part.id, Some(b), today, "")
            == Some(SetTo(part, b, if b == 0 then 30.0 else 60.0))
  {
    var rows := [SetTo(part, 0, 30.0), SetTo(part, 1, 60.0), SetTo(part, 2, 60.0)];
    var o := rows[b];
    assert o in rows && Overrides.PersistentFor(part.id, Some(b))(o);
    assert forall x :: x in rows && Overrides.PersistentFor(part.id, Some(b))(x) ==> x == o;
    assert forall x :: x in rows ==> !Overrides.ValidOn(part.id, Some(b), today)(x);
  }

  lemma RushSells(part: Part, today: Date, b: BranchId)
    requires 1 <= b <= 2 && !part.isNonStock
    ensures var m := Rush(part, today);
            !VelocityOf(m, part, b).isColdStart && !Excluded(StageOf(m, part, b))
  {
    var m, scope := Rush(part, today), Sales.OneOf({b});
    var rows := m.movements;
    assert rows[..1] == [SaleAt(part, 1, today)] && rows[..1][..0] == [];
    assert Sales.MonthTotal(rows[..1], part.id, scope, MonthNo(today)) == if b == 1 then 1.0 else 0.0;
    assert Sales.MonthTotal(rows, part.id, scope, MonthNo(today)) == 1.0;
    assert Sales.MonthlySeries(rows, part.id, scope, today, WINDOW)[11] == 1.0;
    assert rows[b - 1] in rows && PastSale(rows[b - 1], part.id, scope, today);
  }

  /** What matters about that market. */
  ghost predicate InRush(m: Data, part: Part) {
    && m.branches == [GIVER, FIRST, SECOND] && TermsOf(m, part) == Terms(30, 10, 0)
    && m.stock == map[(0, part.id) := Transit.Level(100.0, 0.0)]
    && (forall b: BranchId :: b <= 2 ==>
          Overrides.ActiveOverride(m.overrides, part.id, Some(b), m.today, "")
          == Some(SetTo(part, b, if b == 0 then 30.0 else 60.0)))
    && (forall b: BranchId :: 1 <= b <= 2 ==> !VelocityOf(m, part, b).isColdStart && !Excluded(StageOf(m, part, b)))
  }

  lemma RushIsRush(part: Part, today: Date)
    requires part.leadTimeDays == 0 && !part.isNonStock
    ensures InRush(Rush(part, today), part)
  {
    forall b: BranchId | b <= 2
      ensures Overrides.ActiveOverride(Rush(part, today).overrides, part.id, Some(b), today, "")
              == Some(SetTo(part, b, if b == 0 then 30.0 else 60.0))
    {
      RushOverrides(part, today, b);
    }
    forall b: BranchId | 1 <= b <= 2
      ensures !VelocityOf(Rush(part, today), part, b).isColdStart && !Excluded(StageOf(Rush(part, today), part, b))
    {
      RushSells(part, today, b);
    }
  }

  lemma RushNumbers()
    ensures var giver := MakePlan(30.0, Terms(30, 10, 0), 100.0, 0.0);
            giver.planningTarget == 40.0 && giver.excess == 60.0
    ensures var needy := MakePlan(60.0, Terms(30, 10, 0), 0.0, 0.0);
            needy.orderQuantity == 80.0 && needy.triggered
  {
  }

  /** A plan under an override, with the days and the stock of that market. */
  lemma PlanUnderOverride(m: Data, part: Part, b: BranchId, velocity: real, o: Overrides.Override, terms: Terms,
                          level: Transit.Level)
    requires Overrides.ActiveOverride(m.overrides, part.id, Some(b), m.today, "") == Some(o)
    requires TermsOf(m, part) == terms && Transit.LevelAt(m.stock, (b, part.id)) == level
    ensures PlanFor(m, part, b, velocity) == MakePlan(o.amount, terms, level.available, level.inTransit)
  {
  }

  /** The giver has 60 to give, and each of the others needs 80. */
  lemma RushPlan(m: Data, part: Part, b: BranchId, velocity: real)
    requires InRush(m, part) && b <= 2
    ensures var p := PlanFor(m, part, b, velocity);
            if b == 0 then p.planningTarget == 40.0 && p.excess == 60.0 else p.orderQuantity == 80.0 && p.triggered
  {
    var o := SetTo(part, b, if b == 0 then 30.0 else 60.0);
    var level := Transit.LevelAt(m.stock, (b, part.id));
    PlanUnderOverride(m, part, b, velocity, o, Terms(30, 10, 0), level);
    RushNumbers();
  }

  lemma RushCandidates(m: Data, part: Part, dest: BranchId)
    requires InRush(m, part) && 1 <= dest <= 2
    ensures CandidatesAmong(m, part, dest, m.branches) == [Candidate(0, 60.0)]
  {
    RushPlan(m, part, 0, VelocityOf(m, part, 0).velocity);
    assert ExcessOf(m, part, 0) == 60.0;
    assert IsSource(m, part, dest, GIVER) && !IsSource(m, part, dest, FIRST) && !IsSource(m, part, dest, SECOND);
    assert [GIVER, FIRST, SECOND][1..] == [FIRST, SECOND] && [FIRST, SECOND][1..] == [SECOND] && [SECOND][1..] == [];
    assert CandidatesAmong(m, part, dest, [SECOND]) == [];
    assert CandidatesAmong(m, part, dest, [FIRST, SECOND]) == [];
  }

  lemma OneCandidate(needed: real, parent: Option<BranchId>, c: Candidate)
    requires needed > c.excess > 0.0
    ensures Greedy(needed, SortByPriority(parent, [c])) == [Allocation(c.branch, c.excess)]
  {
    assert [c][1..] == [];
    assert StableSort.SortBy(ByPriority(parent), []) == [];
    assert SortByPriority(parent, [c]) == [c];
    assert Greedy(needed - c.excess, []) == [];
  }

  lemma RushDrawsOnGiver(m: Data, part: Part, dest: Branch)
    requires InRush(m, part) && dest in {FIRST, SECOND}
    ensures TakenFrom(Allocations(m, part, dest, 80.0), 0) == 60.0
  {
    RushCandidates(m, part, dest.id);
    OneCandidate(80.0, dest.parent, Candidate(0, 60.0));
    assert [Allocation(0, 60.0)][1..] == [];
  }

  lemma RushProposes(m: Data, part: Part, dest: Branch)
    requires InRush(m, part) && dest in {FIRST, SECOND}
    ensures var d := Propose(m, dest, part); d.Some? && d.value.quantity == 80.0
  {
    RushPlan(m, part, dest.id, VelocityOf(m, part, dest.id).velocity);
  }

  lemma RushOverdraws(m: Data, part: Part)
    requires InRush(m, part)
    ensures var orders := [Order(FIRST, 80.0), Order(SECOND, 80.0)];
            && Drawn(m, part, orders, 0) == 120.0
            && PlanFor(m.(stock := CarryOut(m, part, orders)), part, 0,
                       VelocityOf(m, part, 0).velocity).orderQuantity > 0.0
  {
    var orders, velocity := [Order(FIRST, 80.0), Order(SECOND, 80.0)], VelocityOf(m, part, 0).velocity;
    RushDrawsOnGiver(m, part, FIRST);
    RushDrawsOnGiver(m, part, SECOND);
    assert orders[..1] == [Order(FIRST, 80.0)] && orders[..1][..0] == [];
    assert Drawn(m, part, orders[..1], 0) == 60.0;
    RushPlan(m, part, 0, velocity);
    SourceIsSettledIff(m, part, orders, 0, velocity);
  }

  /** Both branches are recommended the part, and carrying both out leaves the giver ordering. */
  ghost predicate Overdraws(m: Data, part: Part) {
    var first, second := Propose(m, FIRST, part), Propose(m, SECOND, part);
    && first.Some? && second.Some?
    && var orders := [Order(FIRST, first.value.quantity), Order(SECOND, second.value.quantity)];
       && GIVER in m.branches && Propose(m, GIVER, part) == None
       && PlanFor(m.(stock := CarryOut(m, part, orders)), part, GIVER.id, VelocityOf(m, part, GIVER.id).velocity)
            .orderQuantity > 0.0
  }

  lemma RushIsOverdrawn(m: Data, part: Part)
    requires InRush(m, part)
    ensures Overdraws(m, part)
  {
    RushProposes(m, part, FIRST);
    RushProposes(m, part, SECOND);
    RushOverdraws(m, part);
    RushPlan(m, part, 0, VelocityOf(m, part, 0).velocity);
    ExcessMeansNoProposal(m, GIVER, part);
  }

  /** Nothing is reserved: two recommendations of one run draw the same excess, and the giver is left in need. */
  lemma OneRunCanOverdraw(part: Part, today: Date)
    requires part.leadTimeDays == 0 && !part.isNonStock
    ensures Overdraws(Rush(part, today), part)
  {
    RushIsRush(part, today);
    RushIsOverdrawn(Rush(part, today), part);
  }

  // ----- a center that gives by its own velocity and is planned by the aggregate

  const CENTER := Branch(0, true, true, None)
  const DEPENDENT := Branch(1, true, false, Some(0))

  /** Only the dependent has sold; the center holds some stock. */
  function Depot(part: Part, today: Date, stock: real): Data {
    Data(today, [CENTER, DEPENDENT], [part], [], map[(0, part.id) := Transit.Level(stock, 0.0)],
         [SaleAt(part, 1, today)], [], None, None)
  }

  lemma DepotOwnVelocity(part: Part, today: Date, stock: real)
    ensures VelocityOf(Depot(part, today, stock), part, 0).velocity == 0.0
  {
    var rows := [SaleAt(part, 1, today)];
    var own := Sales.MonthlySeries(rows, part.id, Sales.OneOf({0}), today, WINDOW);
    assert rows[..0] == [];
    assert forall k :: Sales.MonthTotal(rows, part.id, Sales.OneOf({0}), k) == 0.0;
    assert Velocity.IsColdStart(own);
    Velocity.VelocityZeroIffColdStart(own);
  }

  lemma DepotDependentVelocity(part: Part, today: Date, stock: real)
    ensures VelocityOf(Depot(part, today, stock), part, 1).velocity > 0.0
  {
    var rows := [SaleAt(part, 1, today)];
    var series := Sales.MonthlySeries(rows, part.id, Sales.OneOf({1}), today, WINDOW);
    assert rows[..0] == [];
    assert Sales.MonthTotal(rows, part.id, Sales.OneOf({1}), MonthNo(today)) == 1.0;
    assert series[11] == 1.0;
    Velocity.VelocityZeroIffColdStart(series);
  }

  lemma DepotVelocities(part: Part, today: Date, stock: real)
    ensures var m := Depot(part, today, stock);
            VelocityOf(m, part, 0).velocity == 0.0 && CenterVelocity(m, part, 0) > 0.0
  {
    var m := Depot(part, today, stock);
    DepotOwnVelocity(part, today, stock);
    DepotDependentVelocity(part, today, stock);
    assert [CENTER, DEPENDENT][1..] == [DEPENDENT] && [DEPENDENT][1..] == [];
    assert Dependents([DEPENDENT], 0) == [1];
    assert Dependents(m.branches, 0) == [1];
    assert [1][..0] == [];
    assert SumVelocities(m.movements, part.id, [1], today, WINDOW) == VelocityOf(m, part, 1).velocity;
  }

  /** By its own velocity the center has its whole stock to give; planned by the aggregate it then orders. */
  lemma CenterCanGiveWhatItNeeds(part: Part, today: Date, stock: real)
    requires part.leadTimeDays == 0 && stock > 0.0
    ensures var m := Depot(part, today, stock);
            && ExcessOf(m, part, 0) == stock
            && PlanFor(m.(stock := m.stock[(0, part.id) := Transit.Level(0.0, 0.0)]), part, 0,
                       CenterVelocity(m, part, 0))
                 .orderQuantity > 0.0
  {
    DepotVelocities(part, today, stock);
    var m := Depot(part, today, stock);
    PositiveDemandOrders(CenterVelocity(m, part, 0), TermsOf(m, part));
  }
}
