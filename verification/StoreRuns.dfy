/** Properties of the recommendation table over every run of steps from the empty table. */
module StoreRuns {
  import opened Prelude
  import opened Ids
  import opened Calendar
  import opened Classification
  import opened Market
  import opened Store

  /** Every way the table changes; a direct transition is a call past the approval service. */
  datatype Step =
    | GenerateStep(kind: RunKind, m: Data, b: Branch, runDate: Date)
    | TenantStep(m: Data, runDate: Date)
    | RecalculateStep(m: Data, copy: Copy)
    | DecideStep(r: Request, copy: Copy)
    | CrossStep(r: Request, copy: Copy)
    | BulkStep(r: Request, copies: seq<Copy>)
    | DirectStep(id: RecId, target: RecState, user: UserId, now: int, notes: string)

  function OrSame(db: Db, r: Result<Db, Error>): Db {
    if r.Ok? then r.value else db
  }

  /** A step that fails leaves the table as it was; a failed generation keeps what it created. */
  function Apply(db: Db, s: Step): Db {
    match s
    case GenerateStep(kind, m, b, runDate) => Generate(db, kind, m, b, runDate).db
    case TenantStep(m, runDate) => GenerateTenant(db, m, m.branches, runDate).db
    case RecalculateStep(m, copy) => OrSame(db, Recalculate(db, m, copy))
    case DecideStep(r, copy) => OrSame(db, Decide(db, r, copy))
    case CrossStep(r, copy) => OrSame(db, ApproveCross(db, r, copy))
    case BulkStep(r, copies) => DecideBulk(db, r, copies).db
    case DirectStep(id, target, user, now, notes) => OrSame(db, Transition(db, id, target, user, now, notes))
  }

  const EMPTY := Db(map[], [], 0)

  function Run(steps: seq<Step>): Db {
    if steps == [] then EMPTY else Apply(Run(steps[..|steps| - 1]), steps[|steps| - 1])
  }

  // ----- what the table should always look like

  ghost predicate OnePending(rows: map<RecId, Row>) {
    forall i, j :: i in rows && j in rows && i != j && rows[i].state.Pending? && rows[j].state.Pending? ==>
      !SamePart(rows[i], rows[j])
  }

  ghost predicate OnePerRun(rows: map<RecId, Row>) {
    forall i, j :: i in rows && j in rows && i != j && rows[i].runDate == rows[j].runDate ==>
        !SamePart(rows[i], rows[j])
  }

  ghost predicate Numbered(db: Db) {
    forall i :: i in db.rows ==> i < db.nextId
  }

  /** Ordered rows stay exactly as they are. */
  ghost predicate OrderedKept(a: Db, b: Db) {
    forall i :: i in a.rows && a.rows[i].state.Ordered? ==> i in b.rows && b.rows[i] == a.rows[i]
  }

  /** A row that became ordered was approved just before. */
  ghost predicate OrderedFromApproved(a: Db, b: Db) {
    forall i :: i in b.rows && b.rows[i].state.Ordered? ==>
      i in a.rows && (a.rows[i].state.Ordered? || a.rows[i].state.Approved?)
  }

  ghost predicate OnlyAdds(a: Db, b: Db) {
    forall id :: id in a.rows ==> id in b.rows && b.rows[id] == a.rows[id]
  }

  // ----- generation only adds pending rows

  ghost predicate Generated(a: Db, b: Db) {
    && a.nextId <= b.nextId
    && (forall id :: id in b.rows ==> (id in a.rows && b.rows[id] == a.rows[id])
                                      || (a.nextId <= id < b.nextId && b.rows[id].state.Pending?))
    && (OnePending(a.rows) ==> OnePending(b.rows))
    && (Numbered(a) ==> OnlyAdds(a, b) && (OnePerRun(a.rows) ==> OnePerRun(b.rows)))
  }

  /** Drafts are made for the branch and part they are asked for. */
  ghost predicate Proper(propose: Proposer, b: BranchId) {
    forall part :: propose(part).Some? ==> propose(part).value.branch == b && propose(part).value.part == part.id
  }

  lemma ProposersAreProper(kind: RunKind, m: Data, b: Branch)
    ensures Proper(ProposerOf(kind, m, b), b.id)
  {
  }

  lemma CreateGenerates(db: Db, d: Draft, runDate: Date)
    requires !ExistsForRun(db.rows, d.branch, d.part, runDate) && Create(db, d, runDate).Ok?
    ensures Generated(db, Create(db, d, runDate).value)
  {
  }

  lemma GeneratedTransitive(a: Db, b: Db, c: Db)
    requires Generated(a, b) && Generated(b, c)
    ensures Generated(a, c)
  {
  }

  lemma {:induction false} GenerateOverGenerates(db: Db, propose: Proposer, b: BranchId, parts: seq<Part>,
                                                 runDate: Date)
    requires Proper(propose, b)
    ensures Generated(db, GenerateOver(db, propose, b, parts, runDate).db)
  {
    if parts != [] {
      var g, part := GenerateOver(db, propose, b, parts[..|parts| - 1], runDate), parts[|parts| - 1];
      GenerateOverGenerates(db, propose, b, parts[..|parts| - 1], runDate);
      if !g.error.Some? && !ExistsForRun(g.db.rows, b, part.id, runDate) && propose(part).Some?
         && Create(g.db, propose(part).value, runDate).Ok? {
        CreateGenerates(g.db, propose(part).value, runDate);
        GeneratedTransitive(db, g.db, Create(g.db, propose(part).value, runDate).value);
      }
    }
  }

  lemma RunGenerates(db: Db, kind: RunKind, m: Data, b: Branch, runDate: Date)
    ensures Generated(db, Generate(db, kind, m, b, runDate).db)
  {
    ProposersAreProper(kind, m, b);
    GenerateOverGenerates(db, ProposerOf(kind, m, b), b.id, m.parts, runDate);
  }

  lemma {:induction false} TenantGenerates(db: Db, m: Data, branches: seq<Branch>, runDate: Date)
    ensures Generated(db, GenerateTenant(db, m, branches, runDate).db)
  {
    if branches != [] {
      var g, b := GenerateTenant(db, m, branches[..|branches| - 1], runDate), branches[|branches| - 1];
      TenantGenerates(db, m, branches[..|branches| - 1], runDate);
      if !g.error.Some? && b.isActive {
        RunGenerates(g.db, BranchRun, m, b, runDate);
        GeneratedTransitive(db, g.db, Generate(g.db, BranchRun, m, b, runDate).db);
      }
    }
  }

  // ----- decisions only move rows along the state machine

  /** The same row of the table, in its old state or moved to the target. */
  ghost predicate MovedRow(a: Row, b: Row, target: RecState) {
    b.draft == a.draft && b.runDate == a.runDate
    && (b == a || (b.state == target && CanTransition(a.state, target)))
  }

  ghost predicate Moved(a: Db, b: Db, target: RecState) {
    && b.nextId == a.nextId && b.rows.Keys == a.rows.Keys
    && (forall id :: id in a.rows ==> MovedRow(a.rows[id], b.rows[id], target))
    && (OnePending(a.rows) ==> OnePending(b.rows))
  }

  /** When a transition succeeds, and what it then leaves alone: every other row, the draft, the run date, the log. */
  lemma TransitionIff(db: Db, id: RecId, target: RecState, user: UserId, now: int, notes: string)
    ensures var r := Transition(db, id, target, user, now, notes);
            && (r.Ok? <==> id in db.rows && CanTransition(db.rows[id].state, target)
                           && (target.Pending? ==>
                               !PendingFor(db.rows, db.rows[id].draft.branch, db.rows[id].draft.part)))
            && (r.Ok? ==>
                  && r.value.rows.Keys == db.rows.Keys && r.value.log == db.log && r.value.nextId == db.nextId
                  && (forall o :: o in db.rows && o != id ==> r.value.rows[o] == db.rows[o])
                  && r.value.rows[id].draft == db.rows[id].draft && r.value.rows[id].runDate == db.rows[id].runDate
                  && r.value.rows[id].state == target && r.value.rows[id].decidedBy == Some(user))
            && (r == Err(AlreadyDecided) <==>
                  id in db.rows && (db.rows[id].state.Ordered? || (db.rows[id].state.Approved? && target.Pending?)))
  {
    if id in db.rows && CanTransition(db.rows[id].state, target) && target.Pending? {
      var row := Decided(db.rows[id], target, user, now, notes);
      assert OtherPending(db.rows, id, row) <==> PendingFor(db.rows, row.draft.branch, row.draft.part);
    }
  }

  lemma SaveKeepsOnePending(db: Db, id: RecId, row: Row)
    requires OnePending(db.rows) && Save(db, id, row).Ok?
    ensures OnePending(Save(db, id, row).value.rows)
  {
  }

  lemma TransitionMoves(db: Db, id: RecId, target: RecState, user: UserId, now: int, notes: string)
    ensures Moved(db, OrSame(db, Transition(db, id, target, user, now, notes)), target)
  {
    if OnePending(db.rows) && Transition(db, id, target, user, now, notes).Ok? {
      SaveKeepsOnePending(db, id, Decided(db.rows[id], target, user, now, notes));
    }
  }

  /** What a decision does to the rows, apart from the log. */
  lemma DecideIsATransition(db: Db, r: Request, copy: Copy)
    requires Decide(db, r, copy).Ok?
    ensures var next := Decide(db, r, copy).value;
            var moved := Transition(db, copy.id, TargetOf(r.action), r.user.id, r.now, r.notes);
            moved.Ok? && next.rows == moved.value.rows && next.nextId == db.nextId
            && CanApprove(r.org, r.user, copy.row)
            && |next.log| == |db.log| + 1 && db.log <= next.log
            && exists role :: next.log[|db.log|]
                 == Decision(r.user.id, r.action, copy.id, copy.row.state, TargetOf(r.action), role, r.notes)
  {
    var moved := Transition(db, copy.id, TargetOf(r.action), r.user.id, r.now, r.notes);
    assert moved.value.log == db.log;
  }

  lemma DecideMoves(db: Db, r: Request, copy: Copy)
    ensures Moved(db, OrSame(db, Decide(db, r, copy)), TargetOf(r.action))
  {
    if Decide(db, r, copy).Ok? {
      DecideIsATransition(db, r, copy);
      TransitionMoves(db, copy.id, TargetOf(r.action), r.user.id, r.now, r.notes);
    }
  }

  /** No state can be reached from itself, so moving twice to one target is moving once. */
  lemma MovedTransitive(a: Db, b: Db, c: Db, target: RecState)
    requires Moved(a, b, target) && Moved(b, c, target)
    ensures Moved(a, c, target)
  {
    forall id | id in a.rows
      ensures MovedRow(a.rows[id], c.rows[id], target)
    {
      assert MovedRow(a.rows[id], b.rows[id], target) && MovedRow(b.rows[id], c.rows[id], target);
    }
  }

  lemma {:induction false} BulkMoves(db: Db, r: Request, copies: seq<Copy>)
    ensures Moved(db, BulkSteps(db, r, copies).db, TargetOf(r.action))
  {
    if copies != [] {
      var b, copy := BulkSteps(db, r, copies[..|copies| - 1]), copies[|copies| - 1];
      BulkMoves(db, r, copies[..|copies| - 1]);
      DecideMoves(b.db, r, copy);
      MovedTransitive(db, b.db, OrSame(b.db, Decide(b.db, r, copy)), TargetOf(r.action));
    }
  }

  lemma MovedKeepsOrders(a: Db, b: Db, target: RecState)
    requires Moved(a, b, target)
    ensures OrderedKept(a, b) && OrderedFromApproved(a, b) && (OnePerRun(a.rows) ==> OnePerRun(b.rows))
  {
    assert forall id :: id in a.rows ==> MovedRow(a.rows[id], b.rows[id], target);
  }

  // ----- the three kinds of steps

  ghost predicate Generates(s: Step) {
    s.GenerateStep? || s.TenantStep?
  }

  /** Where a step moves rows to; irrelevant for the others. */
  ghost function TargetOfStep(s: Step): RecState {
    match s
    case DecideStep(r, _) => TargetOf(r.action)
    case CrossStep(_, _) => Approved
    case BulkStep(r, _) => TargetOf(r.action)
    case DirectStep(_, target, _, _, _) => target
    case _ => Pending
  }

  lemma StepShape(db: Db, s: Step)
    ensures Generates(s) ==> Generated(db, Apply(db, s))
    ensures !Generates(s) && !s.RecalculateStep? ==> Moved(db, Apply(db, s), TargetOfStep(s))
  {
    match s
    case GenerateStep(kind, m, b, runDate) => RunGenerates(db, kind, m, b, runDate);
    case TenantStep(m, runDate) => TenantGenerates(db, m, m.branches, runDate);
    case RecalculateStep(m, copy) =>
    case DecideStep(r, copy) => DecideMoves(db, r, copy);
    case CrossStep(r, copy) => DecideMoves(db, r.(action := Approve), copy);
    case BulkStep(r, copies) => BulkMoves(db, r, copies);
    case DirectStep(id, target, user, now, notes) => TransitionMoves(db, id, target, user, now, notes);
  }

  // ----- over every run, whatever copies the callers hold

  /** What recalculation leaves of its row. */
  lemma RecalculationShape(db: Db, m: Data, copy: Copy)
    requires Recalculate(db, m, copy).Ok?
    ensures var next := Recalculate(db, m, copy).value;
            && copy.row.state.Pending? && next.nextId == db.nextId && next.log == db.log
            && next.rows.Keys - {copy.id} == db.rows.Keys - {copy.id}
            && (forall id :: id in db.rows && id != copy.id ==> next.rows[id] == db.rows[id])
            && (copy.id in next.rows <==> Refreshed(m, copy).Some?)
            && (Refreshed(m, copy).Some? ==>
                  && next.rows[copy.id] == copy.row.(draft := Refreshed(m, copy).value)
                  && SamePart(next.rows[copy.id], copy.row) && !OtherPending(db.rows, copy.id, copy.row))
  {
    RefreshedIds(m, copy);
    if Refreshed(m, copy).Some? {
      var row := copy.row.(draft := Refreshed(m, copy).value);
      assert OtherPending(db.rows, copy.id, row) <==> OtherPending(db.rows, copy.id, copy.row);
    }
  }

  lemma RefreshedIds(m: Data, copy: Copy)
    ensures var d := Refreshed(m, copy);
            d.Some? ==> d.value.branch == copy.row.draft.branch && d.value.part == copy.row.draft.part
  {
  }

  /**
   What a recalculation asks: a copy that is pending, of a branch and part that exist, and no other
   pending row of that branch and part unless nothing is recommended any more.
   */
  predicate Recalculates(db: Db, m: Data, copy: Copy) {
    && copy.row.state.Pending?
    && BranchOf(m.branches, copy.row.draft.branch).Some? && PartOf(m, copy.row.draft.part).Some?
    && (Refreshed(m, copy).None? || !OtherPending(db.rows, copy.id, copy.row))
  }

  lemma RecalculatesIff(db: Db, m: Data, copy: Copy)
    ensures Recalculate(db, m, copy).Ok? <==> Recalculates(db, m, copy)
  {
    RefreshedIds(m, copy);
    if Refreshed(m, copy).Some? {
      var row := copy.row.(draft := Refreshed(m, copy).value);
      assert OtherPending(db.rows, copy.id, row) <==> OtherPending(db.rows, copy.id, copy.row);
    }
  }

  lemma RecalculationKeepsOnePending(db: Db, m: Data, copy: Copy)
    requires OnePending(db.rows) && Recalculate(db, m, copy).Ok?
    ensures OnePending(Recalculate(db, m, copy).value.rows)
  {
    if Refreshed(m, copy).Some? {
      SaveKeepsOnePending(db, copy.id, copy.row.(draft := Refreshed(m, copy).value));
    }
  }

  /** Over every run, with copies of any age: at most one pending row per branch and part. */
  lemma {:induction false} OnePendingOverEveryRun(steps: seq<Step>)
    ensures OnePending(Run(steps).rows)
  {
    if steps != [] {
      var db, s := Run(steps[..|steps| - 1]), steps[|steps| - 1];
      OnePendingOverEveryRun(steps[..|steps| - 1]);
      StepShape(db, s);
      if s.RecalculateStep? && Recalculate(db, s.m, s.copy).Ok? {
        RecalculationKeepsOnePending(db, s.m, s.copy);
      }
    }
  }

  lemma StepOrdersApproved(db: Db, s: Step)
    ensures OrderedFromApproved(db, Apply(db, s))
  {
    StepShape(db, s);
    if s.RecalculateStep? {
      if Recalculate(db, s.m, s.copy).Ok? {
        RecalculationShape(db, s.m, s.copy);
      }
    } else if !Generates(s) {
      MovedKeepsOrders(db, Apply(db, s), TargetOfStep(s));
    }
  }

  /** Over every run, with copies of any age: whatever is ordered was approved at some moment before. */
  lemma {:induction false} OrderedWasApproved(steps: seq<Step>, id: RecId)
    requires id in Run(steps).rows && Run(steps).rows[id].state.Ordered?
    ensures exists i :: 0 <= i < |steps| && id in Run(steps[..i]).rows && Run(steps[..i]).rows[id].state.Approved?
  {
    var k := |steps| - 1;
    StepOrdersApproved(Run(steps[..k]), steps[k]);
    if Run(steps[..k]).rows[id].state.Ordered? {
      OrderedWasApproved(steps[..k], id);
      var i :| 0 <= i < k && id in Run(steps[..k][..i]).rows && Run(steps[..k][..i]).rows[id].state.Approved?;
      assert steps[..k][..i] == steps[..i];
    }
  }

  // ----- copies that were once read from the table

  predicate SameKey(a: Row, b: Row) {
    SamePart(a, b) && a.runDate == b.runDate
  }

  /** Every row the table has ever held, as it first appeared. */
  ghost function Seen(steps: seq<Step>): map<RecId, Row> {
    if steps == [] then map[] else Run(steps).rows + Seen(steps[..|steps| - 1])
  }

  /** The copy given to a recalculation names branch, part and run date of a row that was once in the table. */
  ghost predicate Genuine(seen: map<RecId, Row>, s: Step) {
    s.RecalculateStep? ==> s.copy.id in seen && SameKey(s.copy.row, seen[s.copy.id])
  }

  ghost predicate GenuineRun(steps: seq<Step>) {
    forall i :: 0 <= i < |steps| ==> Genuine(Seen(steps[..i]), steps[i])
  }

  /** No id is given twice, and a row keeps its branch, part and run date even beyond its deletion. */
  ghost predicate Identified(db: Db, seen: map<RecId, Row>) {
    && (forall id :: id in seen ==> id < db.nextId)
    && (forall id :: id in db.rows ==> id in seen && SameKey(db.rows[id], seen[id]))
  }

  lemma StepKeepsIdentities(db: Db, s: Step, seen: map<RecId, Row>)
    requires Identified(db, seen) && Genuine(seen, s)
    ensures Identified(Apply(db, s), Apply(db, s).rows + seen)
  {
    StepShape(db, s);
    var next := Apply(db, s);
    if s.RecalculateStep? {
      if Recalculate(db, s.m, s.copy).Ok? {
        RecalculationShape(db, s.m, s.copy);
      }
    } else if !Generates(s) {
      assert forall id :: id in db.rows ==> MovedRow(db.rows[id], next.rows[id], TargetOfStep(s));
    }
  }

  lemma PrefixIsGenuine(steps: seq<Step>, i: nat)
    requires i <= |steps| && GenuineRun(steps)
    ensures GenuineRun(steps[..i])
  {
    forall k | 0 <= k < i
      ensures Genuine(Seen(steps[..i][..k]), steps[..i][k])
    {
      assert steps[..i][..k] == steps[..k];
    }
  }

  lemma {:induction false} RunsKeepIdentities(steps: seq<Step>)
    requires GenuineRun(steps)
    ensures Identified(Run(steps), Seen(steps))
  {
    if steps != [] {
      var k := |steps| - 1;
      PrefixIsGenuine(steps, k);
      RunsKeepIdentities(steps[..k]);
      assert Genuine(Seen(steps[..k]), steps[k]);
      StepKeepsIdentities(Run(steps[..k]), steps[k], Seen(steps[..k]));
    }
  }

  lemma PrefixIsNumbered(steps: seq<Step>, i: nat)
    requires i <= |steps| && GenuineRun(steps)
    ensures Numbered(Run(steps[..i])) && Identified(Run(steps[..i]), Seen(steps[..i]))
  {
    PrefixIsGenuine(steps, i);
    RunsKeepIdentities(steps[..i]);
  }

  lemma RunStep(steps: seq<Step>, i: nat)
    requires i < |steps|
    ensures Run(steps[..i + 1]) == Apply(Run(steps[..i]), steps[i])
  {
    assert steps[..i + 1][..i] == steps[..i];
  }

  // ----- one row per run date

  /** A recalculation that brings a deleted row back beside a decided row of the same branch, part and run date. */
  predicate Doubles(db: Db, s: Step) {
    s.RecalculateStep?
    && var copy := s.copy;
       && copy.row.state.Pending? && Refreshed(s.m, copy).Some?
       && copy.id !in db.rows && !OtherPending(db.rows, copy.id, copy.row)
       && ExistsForRun(db.rows, copy.row.draft.branch, copy.row.draft.part, copy.row.runDate)
  }

  lemma RecalculationKeepsOnePerRunIff(db: Db, m: Data, copy: Copy)
    requires OnePerRun(db.rows) && (copy.id in db.rows ==> SameKey(copy.row, db.rows[copy.id]))
    ensures OnePerRun(OrSame(db, Recalculate(db, m, copy)).rows) <==> !Doubles(db, RecalculateStep(m, copy))
  {
    var next := OrSame(db, Recalculate(db, m, copy)).rows;
    RecalculatesIff(db, m, copy);
    if Recalculate(db, m, copy).Ok? {
      RecalculationShape(db, m, copy);
      if Doubles(db, RecalculateStep(m, copy)) {
        var o :| o in db.rows && db.rows[o].draft.branch == copy.row.draft.branch
                 && db.rows[o].draft.part == copy.row.draft.part && db.rows[o].runDate == copy.row.runDate;
        assert o != copy.id && SamePart(next[o], next[copy.id]);
      }
    }
  }

  lemma StepKeepsOnePerRunIff(db: Db, s: Step, seen: map<RecId, Row>)
    requires Identified(db, seen) && Genuine(seen, s) && OnePerRun(db.rows)
    ensures OnePerRun(Apply(db, s).rows) <==> !Doubles(db, s)
  {
    StepShape(db, s);
    if s.RecalculateStep? {
      RecalculationKeepsOnePerRunIff(db, s.m, s.copy);
    } else if !Generates(s) {
      MovedKeepsOrders(db, Apply(db, s), TargetOfStep(s));
    }
  }

  ghost predicate AlwaysOnePerRun(steps: seq<Step>) {
    forall i :: 0 <= i <= |steps| ==> OnePerRun(Run(steps[..i]).rows)
  }

  ghost predicate NeverDoubles(steps: seq<Step>) {
    forall i :: 0 <= i < |steps| ==> !Doubles(Run(steps[..i]), steps[i])
  }

  /**
   Over every run of genuine copies of any age: there is always at most one row per branch, part and
   run date, exactly when no recalculation brings a deleted row back beside another of its run.
   */
  lemma OnePerRunIff(steps: seq<Step>)
    requires GenuineRun(steps)
    ensures AlwaysOnePerRun(steps) <==> NeverDoubles(steps)
  {
    if AlwaysOnePerRun(steps) {
      forall i | 0 <= i < |steps|
        ensures !Doubles(Run(steps[..i]), steps[i])
      {
        PrefixIsNumbered(steps, i);
        assert OnePerRun(Run(steps[..i]).rows) && OnePerRun(Run(steps[..i + 1]).rows);
        RunStep(steps, i);
        StepKeepsOnePerRunIff(Run(steps[..i]), steps[i], Seen(steps[..i]));
      }
    }
    if NeverDoubles(steps) {
      forall i | 0 <= i <= |steps|
        ensures OnePerRun(Run(steps[..i]).rows)
      {
        OnePerRunSoFar(steps, i);
      }
    }
  }

  lemma {:induction false} OnePerRunSoFar(steps: seq<Step>, i: nat)
    requires GenuineRun(steps) && NeverDoubles(steps) && i <= |steps|
    ensures OnePerRun(Run(steps[..i]).rows)
  {
    if i > 0 {
      OnePerRunSoFar(steps, i - 1);
      PrefixIsNumbered(steps, i - 1);
      RunStep(steps, i - 1);
      StepKeepsOnePerRunIff(Run(steps[..i - 1]), steps[i - 1], Seen(steps[..i - 1]));
    }
  }

  // ----- ordered rows

  /** A recalculation that goes through on a row which is stored as ordered. */
  predicate OverridesOrder(db: Db, s: Step) {
    s.RecalculateStep? && Recalculates(db, s.m, s.copy) && s.copy.id in db.rows && db.rows[s.copy.id].state.Ordered?
  }

  lemma RecalculationKeepsOrderedIff(db: Db, m: Data, copy: Copy)
    ensures OrderedKept(db, OrSame(db, Recalculate(db, m, copy))) <==> !OverridesOrder(db, RecalculateStep(m, copy))
  {
    RecalculatesIff(db, m, copy);
    if Recalculate(db, m, copy).Ok? {
      RecalculationShape(db, m, copy);
    }
  }

  lemma StepKeepsOrderedIff(db: Db, s: Step)
    requires Numbered(db)
    ensures OrderedKept(db, Apply(db, s)) <==> !OverridesOrder(db, s)
  {
    StepShape(db, s);
    if s.RecalculateStep? {
      RecalculationKeepsOrderedIff(db, s.m, s.copy);
    } else if !Generates(s) {
      MovedKeepsOrders(db, Apply(db, s), TargetOfStep(s));
    }
  }

  ghost predicate NeverOverridesOrder(steps: seq<Step>) {
    forall i :: 0 <= i < |steps| ==> !OverridesOrder(Run(steps[..i]), steps[i])
  }

  ghost predicate OrdersStay(steps: seq<Step>) {
    forall i, j :: 0 <= i <= j <= |steps| ==> OrderedKept(Run(steps[..i]), Run(steps[..j]))
  }

  /**
   Over every run of genuine copies of any age: an ordered row is never changed again, exactly when
   no recalculation goes through on a row stored as ordered.
   */
  lemma OrderedIsFinalIff(steps: seq<Step>)
    requires GenuineRun(steps)
    ensures OrdersStay(steps) <==> NeverOverridesOrder(steps)
  {
    if OrdersStay(steps) {
      forall i | 0 <= i < |steps|
        ensures !OverridesOrder(Run(steps[..i]), steps[i])
      {
        PrefixIsNumbered(steps, i);
        RunStep(steps, i);
        assert OrderedKept(Run(steps[..i]), Run(steps[..i + 1]));
        StepKeepsOrderedIff(Run(steps[..i]), steps[i]);
      }
    }
    if NeverOverridesOrder(steps) {
      forall i, j | 0 <= i <= j <= |steps|
        ensures OrderedKept(Run(steps[..i]), Run(steps[..j]))
      {
        OrdersStaySoFar(steps, i, j);
      }
    }
  }

  lemma OrdersStayAtStep(steps: seq<Step>, i: nat)
    requires GenuineRun(steps) && NeverOverridesOrder(steps) && i < |steps|
    ensures OrderedKept(Run(steps[..i]), Run(steps[..i + 1]))
  {
    PrefixIsNumbered(steps, i);
    RunStep(steps, i);
    StepKeepsOrderedIff(Run(steps[..i]), steps[i]);
  }

  /** What each step keeps, any stretch of steps keeps. */
  lemma {:induction false} OrdersKeptAlong(trace: seq<Db>, i: nat, j: nat)
    requires i <= j < |trace| && forall k :: 0 <= k < |trace| - 1 ==> OrderedKept(trace[k], trace[k + 1])
    ensures OrderedKept(trace[i], trace[j])
    decreases j
  {
    if i < j {
      OrdersKeptAlong(trace, i, j - 1);
      assert OrderedKept(trace[j - 1], trace[j - 1 + 1]);
    }
  }

  lemma OrdersStaySoFar(steps: seq<Step>, i: nat, j: nat)
    requires GenuineRun(steps) && NeverOverridesOrder(steps) && i <= j <= |steps|
    ensures OrderedKept(Run(steps[..i]), Run(steps[..j]))
  {
    var trace := seq(|steps| + 1, k requires 0 <= k <= |steps| => Run(steps[..k]));
    forall k | 0 <= k < |trace| - 1
      ensures OrderedKept(trace[k], trace[k + 1])
    {
      OrdersStayAtStep(steps, k);
    }
    OrdersKeptAlong(trace, i, j);
  }
}
