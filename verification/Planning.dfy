/** Planning Target, Reorder Point, Order Quantity and excess (apps/catalog/planning.py). */
module Planning {
  import opened Prelude
  import opened RealFacts

  const DEFAULT_PERIOD_DAYS := 30
  const DEFAULT_SECURITY_DAYS := 10

  /** A configured number of days counts only if it is present and not negative. */
  function DaysOr(configured: Option<int>, fallback: nat): nat {
    if configured.Some? && configured.value >= 0 then configured.value else fallback
  }

  function ClampNonNegative(x: real): real {
    if x < 0.0 then 0.0 else x
  }

  function PlanningTarget(velocity: real, periodDays: nat, securityDays: nat, leadTimeDays: nat): real {
    ClampNonNegative(velocity) / 30.0 * (periodDays + securityDays + leadTimeDays) as real
  }

  /** Days are added to units as plain numbers. */
  function ReorderPoint(planningTarget: real, leadTimeDays: nat): real {
    planningTarget + leadTimeDays as real
  }

  function OrderQuantity(planningTarget: real, available: real, inTransit: real): real {
    Max(0.0, planningTarget - available - inTransit)
  }

  function ExcessStock(currentStock: real, reorderPoint: real): real {
    Max(0.0, currentStock - reorderPoint)
  }

  datatype Terms = Terms(periodDays: nat, securityDays: nat, leadTimeDays: nat)

  datatype Plan = Plan(velocity: real, planningTarget: real, reorderPoint: real, available: real, inTransit: real,
                       orderQuantity: real, excess: real, triggered: bool)

  function MakePlan(velocity: real, terms: Terms, availableStock: real, inTransitStock: real): Plan {
    var v := ClampNonNegative(velocity);
    var target := PlanningTarget(v, terms.periodDays, terms.securityDays, terms.leadTimeDays);
    var point := ReorderPoint(target, terms.leadTimeDays);
    var available, inTransit := ClampNonNegative(availableStock), ClampNonNegative(inTransitStock);
    Plan(v, target, point, available, inTransit, OrderQuantity(target, available, inTransit),
         ExcessStock(available + inTransit, point), available <= point)
  }

  /** A stock or velocity figure as the plan reads it: never negative, and untouched unless it was. */
  ghost predicate ReadAs(raw: real, read: real) {
    0.0 <= read && raw <= read && (read == 0.0 || read == raw)
  }

  /**
   What a plan says, on its own fields: demand over the planned days, the reorder point a day's unit
   above it for every day of lead time, an order that fills exactly the gap to the target, and an
   excess that is exactly what lies above the reorder point.
   */
  ghost predicate Balanced(p: Plan, terms: Terms) {
    && 30.0 * p.planningTarget == p.velocity * (terms.periodDays + terms.securityDays + terms.leadTimeDays) as real
    && p.reorderPoint - p.planningTarget == terms.leadTimeDays as real
    && (if p.planningTarget <= p.available + p.inTransit then p.orderQuantity == 0.0
        else p.available + p.inTransit + p.orderQuantity == p.planningTarget)
    && (if p.available + p.inTransit <= p.reorderPoint then p.excess == 0.0
        else p.available + p.inTransit - p.excess == p.reorderPoint)
    && (p.triggered <==> p.available <= p.reorderPoint)
  }

  lemma PlanIsBalanced(velocity: real, terms: Terms, available: real, inTransit: real)
    ensures var p := MakePlan(velocity, terms, available, inTransit);
            ReadAs(velocity, p.velocity) && ReadAs(available, p.available) && ReadAs(inTransit, p.inTransit)
            && Balanced(p, terms)
  {
    var p := MakePlan(velocity, terms, available, inTransit);
    TargetTimesThirty(p.velocity, (terms.periodDays + terms.securityDays + terms.leadTimeDays) as real);
  }

  lemma TargetTimesThirty(v: real, days: real)
    ensures 30.0 * (v / 30.0 * days) == v * days
  {
  }

  /** A balanced plan leaves no choice: its figures are those of any other with the same readings. */
  lemma BalanceIsUnique(p: Plan, q: Plan, terms: Terms)
    requires Balanced(p, terms) && Balanced(q, terms)
    requires p.velocity == q.velocity && p.available == q.available && p.inTransit == q.inTransit
    ensures p == q
  {
  }

  /** Configured days are used if they are there and not negative; otherwise 30 for the period and 10 for security. */
  lemma ConfiguredDays(configured: Option<int>)
    ensures configured.Some? && configured.value >= 0 ==>
              DaysOr(configured, DEFAULT_PERIOD_DAYS) == configured.value
              && DaysOr(configured, DEFAULT_SECURITY_DAYS) == configured.value
    ensures configured.None? || configured.value < 0 ==>
              DaysOr(configured, DEFAULT_PERIOD_DAYS) == 30 && DaysOr(configured, DEFAULT_SECURITY_DAYS) == 10
  {
  }

  lemma TargetIsNonNegative(velocity: real, periodDays: nat, securityDays: nat, leadTimeDays: nat)
    ensures PlanningTarget(velocity, periodDays, securityDays, leadTimeDays) >= 0.0
  {
    var v, d := ClampNonNegative(velocity), (periodDays + securityDays + leadTimeDays) as real;
    SameSign(v / 30.0, d);
  }

  /** The plan never both asks for stock and offers some, and asks only below the reorder point. */
  lemma OrderAndExcessExclude(velocity: real, terms: Terms, available: real, inTransit: real)
    ensures var p := MakePlan(velocity, terms, available, inTransit);
            && 0.0 <= p.planningTarget <= p.reorderPoint
            && (p.excess > 0.0 ==> p.available + p.inTransit > p.reorderPoint && p.orderQuantity == 0.0)
            && (p.orderQuantity > 0.0 ==> p.triggered && p.excess == 0.0)
  {
    TargetIsNonNegative(ClampNonNegative(velocity), terms.periodDays, terms.securityDays, terms.leadTimeDays);
  }

  /** With demand and nothing in stock there is always something to order. */
  lemma PositiveDemandOrders(velocity: real, terms: Terms)
    requires velocity > 0.0 && terms.periodDays + terms.securityDays + terms.leadTimeDays > 0
    ensures var p := MakePlan(velocity, terms, 0.0, 0.0); p.triggered && p.orderQuantity > 0.0
  {
    var days := (terms.periodDays + terms.securityDays + terms.leadTimeDays) as real;
    assert velocity / 30.0 > 0.0 && velocity / 30.0 * days > 0.0;
  }

  /**
   Giving away no more than the excess leaves the giver at or above its reorder point, even when
   available stock goes negative.
   */
  lemma GiverStaysAboveTarget(velocity: real, terms: Terms, available: real, inTransit: real, given: real)
    requires available > 0.0
    requires 0.0 < given <= MakePlan(velocity, terms, available, inTransit).excess
    ensures var p := MakePlan(velocity, terms, available - given, inTransit);
            p.orderQuantity == 0.0 && p.available + p.inTransit >= p.reorderPoint
  {
    OrderAndExcessExclude(velocity, terms, available, inTransit);
    OrderAndExcessExclude(velocity, terms, available - given, inTransit);
  }

  /** Whatever is given away and by whatever velocity the giver plans: exactly when it then orders nothing. */
  lemma GiverIsSettledIff(velocity: real, terms: Terms, available: real, inTransit: real, given: real)
    ensures var target := MakePlan(velocity, terms, available, inTransit).planningTarget;
            MakePlan(velocity, terms, available - given, inTransit).orderQuantity == 0.0
            <==> given <= available + ClampNonNegative(inTransit) - target || target <= ClampNonNegative(inTransit)
  {
  }

  /** Crediting the ordered quantity settles the need exactly when recorded in-transit stock is not negative. */
  lemma TakerIsSettledIff(velocity: real, terms: Terms, available: real, inTransit: real)
    requires MakePlan(velocity, terms, available, inTransit).orderQuantity > 0.0
    ensures MakePlan(velocity, terms, available,
                     inTransit + MakePlan(velocity, terms, available, inTransit).orderQuantity)
              .orderQuantity == 0.0
            <==> inTransit >= 0.0
  {
  }
}
