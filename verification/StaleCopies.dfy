/** What a recalculation can do with a copy that is out of date. */
module StaleCopies {
  import opened Prelude
  import opened Ids
  import opened Calendar
  import opened Classification
  import Sales
  import Velocity
  import Planning
  import opened Market
  import opened Store
  import opened StoreRuns
  import opened AuditTrail

  /** A market in which the part was sold once, today, or never; nothing is in stock. */
  function Shop(b: Branch, part: Part, today: Date, sold: bool): Data {
    var sale := Sales.Movement(b.id, part.id, Sales.Sale, -1.0, today, "dms", "");
    Data(today, [b], [part], [], map[], if sold then [sale] else [], [], None, None)
  }

  lemma SoldTodaySellsAndIsNotStale(b: Branch, part: Part, today: Date)
    requires !part.isNonStock
    ensures var m := Shop(b, part, today, true);
            VelocityOf(m, part, b.id).velocity > 0.0 && !Excluded(StageOf(m, part, b.id))
  {
    var m := Shop(b, part, today, true);
    var scope := Sales.OneOf({b.id});
    var series := Sales.MonthlySeries(m.movements, part.id, scope, today, WINDOW);
    assert m.movements[..0] == [];
    assert Sales.MonthTotal(m.movements, part.id, scope, Calendar.MonthNo(today)) == 1.0;
    assert series[11] == 1.0;
    Velocity.VelocityZeroIffColdStart(series);
    assert Classification.LastSale(m.movements, part.id, scope, today) == Some(today);
  }

  lemma SoldTodayIsProposed(b: Branch, part: Part, today: Date)
    requires !part.isNonStock
    ensures Propose(Shop(b, part, today, true), b, part).Some?
  {
    var m := Shop(b, part, today, true);
    SoldTodaySellsAndIsNotStale(b, part, today);
    GuardsAgree(m, b, part);
    Planning.PositiveDemandOrders(VelocityOf(m, part, b.id).velocity, TermsOf(m, part));
  }

  lemma UnsoldIsNotProposed(b: Branch, part: Part, today: Date, copy: Copy)
    requires copy.row.draft.branch == b.id && copy.row.draft.part == part.id && !b.isCenter
    ensures Refreshed(Shop(b, part, today, false), copy) == None
  {
    var m := Shop(b, part, today, false);
    var series := Sales.MonthlySeries([], part.id, Sales.OneOf({b.id}), today, WINDOW);
    assert CurrentVelocity(m, b, part) == Velocity.WeightedVelocity(series);
    Velocity.VelocityBetween(series, 0.0, 0.0);
  }

  lemma GenerateOnePart(db: Db, b: Branch, part: Part, today: Date)
    requires !part.isNonStock && db.rows == map[]
    ensures var m := Shop(b, part, today, true);
            Generate(db, BranchRun, m, b, today).db
            == Db(map[db.nextId := NewRow(b, part, today)], db.log, db.nextId + 1)
  {
    var m := Shop(b, part, today, true);
    var propose := ProposerOf(BranchRun, m, b);
    SoldTodayIsProposed(b, part, today);
    assert m.parts[..0] == [];
    assert GenerateOver(db, propose, b.id, [], today) == Generation(db, [], None);
    assert propose(part) == Propose(m, b, part);
    ProposersAreProper(BranchRun, m, b);
  }

  /** The row that the shop's first run creates. */
  function NewRow(b: Branch, part: Part, today: Date): Row
    requires !part.isNonStock
  {
    SoldTodayIsProposed(b, part, today);
    Row(Propose(Shop(b, part, today, true), b, part).value, Pending, today, None, None, "")
  }

  lemma NewRowIsConfirmed(b: Branch, part: Part, today: Date)
    requires !part.isNonStock && !b.isCenter
    ensures var row := NewRow(b, part, today);
            && row.draft.branch == b.id && row.draft.part == part.id
            && Refreshed(Shop(b, part, today, true), Copy(0, row)) == Some(row.draft)
            && Refreshed(Shop(b, part, today, false), Copy(0, row)) == None
  {
    var m, row := Shop(b, part, today, true), NewRow(b, part, today);
    SoldTodayIsProposed(b, part, today);
    ProposersAreProper(BranchRun, m, b);
    assert ProposerOf(BranchRun, m, b)(part) == Propose(m, b, part);
    GuardsAgree(m, b, part);
    UnsoldIsNotProposed(b, part, today, Copy(0, row));
  }

  /** What the five steps do, one by one. */
  ghost predicate Doubled(sold: Data, unsold: Data, b: Branch, today: Date, row: Row, rejected: Row, user: UserId,
                          now: int) {
    && Generate(EMPTY, BranchRun, sold, b, today).db == Db(map[0 := row], [], 1)
    && Recalculate(Db(map[0 := row], [], 1), unsold, Copy(0, row)) == Ok(Db(map[], [], 1))
    && Generate(Db(map[], [], 1), BranchRun, sold, b, today).db == Db(map[1 := row], [], 2)
    && Apply(Db(map[1 := row], [], 2), DirectStep(1, Rejected, user, now, "")) == Db(map[1 := rejected], [], 2)
    && Recalculate(Db(map[1 := rejected], [], 2), sold, Copy(0, row)) == Ok(Db(map[0 := row, 1 := rejected], [], 2))
  }

  lemma UnsoldIsDeleted(db: Db, b: Branch, part: Part, today: Date)
    requires !part.isNonStock && !b.isCenter && db.rows.Keys == {0}
    ensures Recalculate(db, Shop(b, part, today, false), Copy(0, NewRow(b, part, today))) == Ok(db.(rows := map[]))
  {
    NewRowIsConfirmed(b, part, today);
    assert db.rows - {0} == map[];
  }

  lemma SoldComesBack(b: Branch, part: Part, today: Date, rejected: Row)
    requires !part.isNonStock && !b.isCenter && rejected.state.Rejected?
    ensures var row := NewRow(b, part, today);
            Recalculate(Db(map[1 := rejected], [], 2), Shop(b, part, today, true), Copy(0, row))
            == Ok(Db(map[0 := row, 1 := rejected], [], 2))
  {
    var row := NewRow(b, part, today);
    NewRowIsConfirmed(b, part, today);
    assert row.(draft := row.draft) == row;
    assert map[1 := rejected][0 := row] == map[0 := row, 1 := rejected];
  }

  lemma RejectOnly(row: Row, user: UserId, now: int)
    requires row.state.Pending?
    ensures Apply(Db(map[1 := row], [], 2), DirectStep(1, Rejected, user, now, ""))
            == Db(map[1 := Decided(row, Rejected, user, now, "")], [], 2)
  {
    assert map[1 := row][1 := Decided(row, Rejected, user, now, "")] == map[1 := Decided(row, Rejected, user, now, "")];
  }

  lemma TheShopDoubles(b: Branch, part: Part, today: Date, user: UserId, now: int)
    requires !part.isNonStock && !b.isCenter
    ensures var row := NewRow(b, part, today);
            Doubled(Shop(b, part, today, true), Shop(b, part, today, false), b, today, row,
                    Decided(row, Rejected, user, now, ""), user, now)
  {
    var row := NewRow(b, part, today);
    GenerateOnePart(EMPTY, b, part, today);
    UnsoldIsDeleted(Db(map[0 := row], [], 1), b, part, today);
    GenerateOnePart(Db(map[], [], 1), b, part, today);
    RejectOnly(row, user, now);
    SoldComesBack(b, part, today, Decided(row, Rejected, user, now, ""));
  }

  /** One more step at the end of a run. */
  lemma Extend(steps: seq<Step>, s: Step) returns (longer: seq<Step>)
    requires GenuineRun(steps) && Genuine(Seen(steps), s)
    ensures steps <= longer && (ServiceRun(steps) && Service(s) ==> ServiceRun(longer))
    ensures GenuineRun(longer) && Run(longer) == Apply(Run(steps), s) && Seen(longer) == Run(longer).rows + Seen(steps)
  {
    longer := steps + [s];
    assert longer[..|steps|] == steps;
    forall i | 0 <= i < |longer|
      ensures Genuine(Seen(longer[..i]), longer[i])
    {
      assert i < |steps| ==> longer[..i] == steps[..i];
    }
  }

  lemma CreateAndDelete(sold: Data, unsold: Data, b: Branch, today: Date, row: Row) returns (steps: seq<Step>)
    requires Generate(EMPTY, BranchRun, sold, b, today).db == Db(map[0 := row], [], 1)
    requires Recalculate(Db(map[0 := row], [], 1), unsold, Copy(0, row)) == Ok(Db(map[], [], 1))
    ensures Shown(steps, row) && Run(steps) == Db(map[], [], 1)
  {
    var created := Extend([], GenerateStep(BranchRun, sold, b, today));
    steps := Extend(created, RecalculateStep(unsold, Copy(0, row)));
  }

  /** The run so far has shown the copied row. */
  ghost predicate Shown(steps: seq<Step>, row: Row) {
    GenuineRun(steps) && 0 in Seen(steps) && Seen(steps)[0] == row
  }

  lemma CreateAgain(before: seq<Step>, db: Db, sold: Data, b: Branch, today: Date, row: Row, next: Db)
    returns (steps: seq<Step>)
    requires Shown(before, row) && Run(before) == db && Generate(db, BranchRun, sold, b, today).db == next
    ensures Shown(steps, row) && Run(steps) == next
  {
    steps := Extend(before, GenerateStep(BranchRun, sold, b, today));
  }

  lemma Continue(before: seq<Step>, s: Step, row: Row, db: Db, next: Db) returns (steps: seq<Step>)
    requires Shown(before, row) && !s.RecalculateStep? && Run(before) == db && Apply(db, s) == next
    ensures Shown(steps, row) && Run(steps) == next
  {
    steps := Extend(before, s);
  }

  lemma BringBack(before: seq<Step>, sold: Data, row: Row, rejected: Row) returns (steps: seq<Step>)
    requires Shown(before, row) && Run(before) == Db(map[1 := rejected], [], 2)
    requires Recalculate(Db(map[1 := rejected], [], 2), sold, Copy(0, row))
            == Ok(Db(map[0 := row, 1 := rejected], [], 2))
    ensures GenuineRun(steps) && Run(steps) == Db(map[0 := row, 1 := rejected], [], 2)
  {
    steps := Extend(before, RecalculateStep(sold, Copy(0, row)));
  }

  lemma DoublingRun(sold: Data, unsold: Data, b: Branch, today: Date, row: Row, rejected: Row, user: UserId, now: int)
    returns (steps: seq<Step>)
    requires Doubled(sold, unsold, b, today, row, rejected, user, now)
    ensures GenuineRun(steps) && Run(steps) == Db(map[0 := row, 1 := rejected], [], 2)
  {
    steps := CreateAndDelete(sold, unsold, b, today, row);
    steps := CreateAgain(steps, Db(map[], [], 1), sold, b, today, row, Db(map[1 := row], [], 2));
    var reject := DirectStep(1, Rejected, user, now, "");
    steps := Continue(steps, reject, row, Db(map[1 := row], [], 2), Db(map[1 := rejected], [], 2));
    steps := BringBack(steps, sold, row, rejected);
  }

  /**
   Genuine copies are not enough: a row is created, deleted by a recalculation, created again,
   rejected, and brought back by its old copy, and there are two rows of one branch, part and run date.
   */
  lemma StaleRecalculationDoublesARow(b: Branch, part: Part, today: Date, user: UserId, now: int)
    requires !part.isNonStock && !b.isCenter
    ensures exists steps :: GenuineRun(steps) && !OnePerRun(Run(steps).rows)
  {
    var row := NewRow(b, part, today);
    var rejected := Decided(row, Rejected, user, now, "");
    TheShopDoubles(b, part, today, user, now);
    var steps := DoublingRun(Shop(b, part, today, true), Shop(b, part, today, false), b, today, row, rejected, user,
                             now);
    TwoOfOneRun(row, rejected);
    assert !OnePerRun(Run(steps).rows);
  }

  lemma TwoOfOneRun(row: Row, other: Row)
    requires SameKey(row, other)
    ensures !OnePerRun(map[0 := row, 1 := other])
  {
    var rows := map[0 := row, 1 := other];
    assert SamePart(rows[0], rows[1]) && rows[0].runDate == rows[1].runDate;
  }

  // ----- a decision that the table forgets

  /** A gerente of the tenant of an organisation in which nobody coordinates or manages. */
  function Office(tenant: TenantId, action: Action, now: int): Request {
    Request(Org(tenant, map[], map[]), User(0, Some(tenant), [UserRole(Gerente, [])]), action, now, "")
  }

  function OfficeEntry(action: Action, copy: Copy): Entry {
    Decision(0, action, copy.id, copy.row.state, TargetOf(action), Some(Gerente), "")
  }

  lemma OfficeDecides(db: Db, stored: Row, tenant: TenantId, action: Action, now: int, copy: Copy)
    requires db.rows == map[0 := stored] && CanTransition(stored.state, TargetOf(action)) && copy.id == 0
    ensures Decide(db, Office(tenant, action, now), copy)
            == Ok(Db(map[0 := Decided(stored, TargetOf(action), 0, now, "")], db.log + [OfficeEntry(action, copy)],
                     db.nextId))
  {
    var r := Office(tenant, action, now);
    var moved := Decided(stored, TargetOf(action), 0, now, "");
    assert r.user.roles[0].role == Gerente;
    assert map[0 := stored][0 := moved] == map[0 := moved];
  }

  /** A run of genuine copies through the services that has shown the row. */
  ghost predicate Served(steps: seq<Step>, row: Row) {
    Shown(steps, row) && ServiceRun(steps)
  }

  lemma Serve(before: seq<Step>, s: Step, row: Row, db: Db, next: Db) returns (steps: seq<Step>)
    requires Served(before, row) && Service(s) && Genuine(Seen(before), s) && Run(before) == db && Apply(db, s) == next
    ensures Served(steps, row) && Run(steps) == next && before <= steps
  {
    steps := Extend(before, s);
  }

  lemma ServeCreation(b: Branch, part: Part, today: Date) returns (steps: seq<Step>)
    requires !part.isNonStock
    ensures Served(steps, NewRow(b, part, today)) && Run(steps) == Db(map[0 := NewRow(b, part, today)], [], 1)
  {
    GenerateOnePart(EMPTY, b, part, today);
    steps := ShowCreation(Shop(b, part, today, true), b, today, NewRow(b, part, today));
  }

  lemma ShowCreation(m: Data, b: Branch, today: Date, row: Row) returns (steps: seq<Step>)
    requires Generate(EMPTY, BranchRun, m, b, today).db == Db(map[0 := row], [], 1)
    ensures Served(steps, row) && Run(steps) == Db(map[0 := row], [], 1)
  {
    steps := Extend([], GenerateStep(BranchRun, m, b, today));
  }

  lemma ServeDecision(before: seq<Step>, row: Row, db: Db, stored: Row, tenant: TenantId, action: Action, now: int)
    returns (steps: seq<Step>, next: Db)
    requires Served(before, row) && Run(before) == db && db.rows == map[0 := stored]
    requires CanTransition(stored.state, TargetOf(action))
    ensures Served(steps, row) && Run(steps) == next && before <= steps
    ensures next.rows == map[0 := Decided(stored, TargetOf(action), 0, now, "")]
    ensures next.log == db.log + [OfficeEntry(action, Copy(0, row))]
  {
    var copy := Copy(0, row);
    OfficeDecides(db, stored, tenant, action, now, copy);
    next := Decide(db, Office(tenant, action, now), copy).value;
    steps := Serve(before, DecideStep(Office(tenant, action, now), copy), row, db, next);
  }

  lemma ServeDeletion(before: seq<Step>, db: Db, b: Branch, part: Part, today: Date) returns (steps: seq<Step>)
    requires !part.isNonStock && !b.isCenter
    requires Served(before, NewRow(b, part, today)) && Run(before) == db && db.rows.Keys == {0}
    ensures Served(steps, NewRow(b, part, today)) && Run(steps) == db.(rows := map[]) && before <= steps
  {
    var copy := Copy(0, NewRow(b, part, today));
    UnsoldIsDeleted(db, b, part, today);
    steps := Serve(before, RecalculateStep(Shop(b, part, today, false), copy), copy.row, db, db.(rows := map[]));
  }

  /**
   A row is created, approved, and deleted by a recalculation that still holds the pending copy: the
   log keeps an approval of a row that is gone.
   */
  lemma StaleRecalculationErasesADecision(b: Branch, part: Part, today: Date, tenant: TenantId, now: int)
    requires !part.isNonStock && !b.isCenter
    ensures exists steps :: GenuineRun(steps) && ServiceRun(steps) && !AllTrailsFit(Run(steps))
  {
    var row := NewRow(b, part, today);
    var created := ServeCreation(b, part, today);
    var approved, db := ServeDecision(created, row, Run(created), row, tenant, Approve, now);
    var steps := ServeDeletion(approved, db, b, part, today);
    DecidedAndGone(Run(steps), [OfficeEntry(Approve, Copy(0, row))]);
    assert !TrailFits(Run(steps), 0);
  }

  lemma DecidedAndGone(db: Db, log: seq<Entry>)
    requires db.rows == map[] && db.log == log && |log| == 1 && log[0].Decision? && log[0].rec == 0
    ensures !TrailFits(db, 0)
  {
    assert AfterStates(log[..0], 0) == [];
  }

  /** The same with an order: approved, ordered, and deleted by a recalculation that still holds the pending copy. */
  lemma StaleRecalculationDeletesAnOrder(b: Branch, part: Part, today: Date, tenant: TenantId, now: int)
    requires !part.isNonStock && !b.isCenter
    ensures exists steps :: GenuineRun(steps) && ServiceRun(steps) && !OrdersStay(steps)
  {
    var row := NewRow(b, part, today);
    var created := ServeCreation(b, part, today);
    var approved, db := ServeDecision(created, row, Run(created), row, tenant, Approve, now);
    var ordered, next := ServeDecision(approved, row, db, db.rows[0], tenant, MarkOrdered, now);
    var steps := ServeDeletion(ordered, next, b, part, today);
    OrderIsLost(steps, ordered);
  }

  lemma OrderIsLost(steps: seq<Step>, ordered: seq<Step>)
    requires ordered <= steps && Run(steps).rows == map[]
    requires 0 in Run(ordered).rows && Run(ordered).rows[0].state.Ordered?
    ensures !OrdersStay(steps)
  {
    assert steps[..|ordered|] == ordered && steps[..|steps|] == steps;
    assert !OrderedKept(Run(steps[..|ordered|]), Run(steps[..|steps|]));
  }
}
