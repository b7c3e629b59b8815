/**
 The recommendation table and its audit log: generation, recalculation, transitions and decisions
 (apps/recommendations: models.py, transitions.py, permissions.py, services.py).
 */
module Store {
  import opened Prelude
  import opened Ids
  import opened Calendar
  import opened Classification
  import opened Market

  type RecId = nat
  type TenantId = nat

  datatype RecState = Pending | Approved | Rejected | Handled | Ordered

  /** One recommendation; its draft holds branch, part, quantity, snapshots and sources. */
  datatype Row = Row(draft: Draft, state: RecState, runDate: Date, decidedBy: Option<UserId>, decidedAt: Option<int>,
                     notes: string)

  datatype Action = Approve | Reject | Handle | MarkOrdered

  datatype Role = Administrator | Gerente | Coordinator | Manager

  datatype UserRole = UserRole(role: Role, scope: seq<BranchId>)

  datatype User = User(id: UserId, tenant: Option<TenantId>, roles: seq<UserRole>)

  /** Who coordinates and who manages each branch, at the time of a call. */
  datatype Org = Org(tenant: TenantId, coordinator: map<BranchId, UserId>, manager: map<BranchId, UserId>)

  datatype Entry =
    | Decision(user: UserId, action: Action, rec: RecId, before: RecState, after: RecState, role: Option<Role>,
               notes: string)
    | CrossNotified(user: UserId, rec: RecId)

  datatype Db = Db(rows: map<RecId, Row>, log: seq<Entry>, nextId: RecId)

  datatype Error = PermissionDenied | WrongTenant | DoesNotExist | PendingExists | NotACenter
                 | InvalidTransition | AlreadyDecided | IntegrityError

  /** The object a caller holds: the row as it was when it was read. */
  datatype Copy = Copy(id: RecId, row: Row)

  // ----- the state machine of one row

  predicate CanTransition(s: RecState, t: RecState) {
    match s
    case Pending => t.Approved? || t.Rejected? || t.Handled?
    case Approved => t.Ordered? || t.Handled?
    case Rejected => t.Pending?
    case Handled => t.Pending?
    case Ordered => false
  }

  predicate SamePart(a: Row, b: Row) {
    a.draft.branch == b.draft.branch && a.draft.part == b.draft.part
  }

  /** Some row other than id is pending for the same branch and part. */
  predicate OtherPending(rows: map<RecId, Row>, id: RecId, row: Row) {
    exists o :: o in rows && o != id && rows[o].state.Pending? && SamePart(rows[o], row)
  }

  /** A save fails when it would leave two pending rows for one branch and part. */
  function Save(db: Db, id: RecId, row: Row): Result<Db, Error> {
    if row.state.Pending? && OtherPending(db.rows, id, row) then Err(IntegrityError)
    else Ok(db.(rows := db.rows[id := row]))
  }

  function Decided(row: Row, target: RecState, user: UserId, now: int, notes: string): Row {
    row.(state := target, decidedBy := Some(user), decidedAt := Some(now), notes := notes)
  }

  /** transition_recommendation: works on the stored row, whatever copy the caller holds. */
  function Transition(db: Db, id: RecId, target: RecState, user: UserId, now: int, notes: string): Result<Db, Error> {
    if id !in db.rows then Err(DoesNotExist)
    else
      var row := db.rows[id];
      if !CanTransition(row.state, target) then
        if row.state.Ordered? || (row.state.Approved? && target.Pending?) then Err(AlreadyDecided)
        else Err(InvalidTransition)
      else Save(db, id, Decided(row, target, user, now, notes))
  }

  // ----- permissions

  predicate HasRole(user: User, role: Role) {
    exists i :: 0 <= i < |user.roles| && user.roles[i].role == role
  }

  /** The branches of a coordinator's scope; empty for a user of another tenant. */
  function CoordinatorScope(user: User, tenant: TenantId, n: nat): seq<BranchId>
    requires n <= |user.roles|
  {
    if n == 0 || (user.tenant.Some? && user.tenant.value != tenant) then []
    else
      CoordinatorScope(user, tenant, n - 1)
      + if user.roles[n - 1].role.Coordinator? then user.roles[n - 1].scope else []
  }

  method GetCoordinatorScope(user: User, tenant: TenantId) returns (scope: seq<BranchId>)
    ensures scope == CoordinatorScope(user, tenant, |user.roles|)
  {
    scope := [];
    if user.tenant.Some? && user.tenant.value != tenant {
      return;
    }
    for i := 0 to |user.roles|
      invariant scope == CoordinatorScope(user, tenant, i)
    {
      if user.roles[i].role.Coordinator? {
        var branches := user.roles[i].scope;
        ghost var before := scope;
        for j := 0 to |branches|
          invariant scope == before + branches[..j]
        {
          scope := scope + [branches[j]];
        }
      }
    }
  }

  predicate CrossesCoordinators(org: Org, row: Row) {
    CrossesBetween(org, row.draft.branch, row.draft.resolution.sourceBranch)
  }

  /** Source and destination belong to different coordinators. */
  predicate CrossesBetween(org: Org, dest: BranchId, source: Option<BranchId>) {
    source.Some? && dest in org.coordinator && source.value in org.coordinator
    && org.coordinator[dest] != org.coordinator[source.value]
  }

  predicate CanApprove(org: Org, user: User, row: Row) {
    HasRole(user, Gerente)
    || (!CrossesCoordinators(org, row)
        && ((HasRole(user, Coordinator) && row.draft.branch in CoordinatorScope(user, org.tenant, |user.roles|))
            || (row.draft.branch in org.manager && org.manager[row.draft.branch] == user.id)))
  }

  /** get_active_role: the first role; a user of another tenant is an error. */
  function ActiveRole(user: User, tenant: TenantId): Result<Option<Role>, Error> {
    if user.tenant.Some? && user.tenant.value != tenant then Err(WrongTenant)
    else if user.roles == [] then Ok(None)
    else Ok(Some(user.roles[0].role))
  }

  // ----- decisions

  function TargetOf(action: Action): RecState {
    match action
    case Approve => Approved
    case Reject => Rejected
    case Handle => Handled
    case MarkOrdered => Ordered
  }

  /** A decision as a caller makes it: with a copy, at a time, with notes. */
  datatype Request = Request(org: Org, user: User, action: Action, now: int, notes: string)

  /** Permission is judged on the caller's copy; the state on the stored row. All or nothing. */
  function TransitionAndLog(db: Db, r: Request, copy: Copy): Result<Db, Error> {
    if !CanApprove(r.org, r.user, copy.row) then Err(PermissionDenied)
    else
      match ActiveRole(r.user, r.org.tenant)
      case Err(e) => Err(e)
      case Ok(role) =>
        match Transition(db, copy.id, TargetOf(r.action), r.user.id, r.now, r.notes)
        case Err(e) => Err(e)
        case Ok(next) =>
          Ok(next.(log := next.log + [Decision(r.user.id, r.action, copy.id, copy.row.state, TargetOf(r.action), role,
                                               r.notes)]))
  }

  /** approve_recommendation checks twice before it transitions; the other actions go straight there. */
  function Decide(db: Db, r: Request, copy: Copy): Result<Db, Error> {
    if r.action.Approve? && (!CanApprove(r.org, r.user, copy.row)
                             || (CrossesCoordinators(r.org, copy.row) && !HasRole(r.user, Gerente)))
    then Err(PermissionDenied)
    else TransitionAndLog(db, r, copy)
  }

  /** approve_cross_coordinator_transfer. */
  function ApproveCross(db: Db, r: Request, copy: Copy): Result<Db, Error> {
    if !HasRole(r.user, Gerente) then Err(PermissionDenied)
    else
      match Decide(db, r.(action := Approve), copy)
      case Err(e) => Err(e)
      case Ok(next) => Ok(next.(log := next.log + [CrossNotified(r.user.id, copy.id)]))
  }

  /** A bulk action half way: the tables, the rows decided so far, and the error that ended it. */
  datatype Bulk = Bulk(db: Db, updated: seq<RecId>, error: Option<Error>)

  function BulkStep(b: Bulk, r: Request, copy: Copy): Bulk {
    if b.error.Some? || !copy.row.state.Pending? then b
    else
      match Decide(b.db, r, copy)
      case Ok(next) => Bulk(next, b.updated + [copy.id], None)
      case Err(e) => if e.PermissionDenied? then b else b.(error := Some(e))
  }

  function BulkSteps(db: Db, r: Request, copies: seq<Copy>): Bulk {
    if copies == [] then Bulk(db, [], None)
    else BulkStep(BulkSteps(db, r, copies[..|copies| - 1]), r, copies[|copies| - 1])
  }

  /** Any error but a refused permission undoes the whole bulk action. */
  function DecideBulk(db: Db, r: Request, copies: seq<Copy>): Bulk {
    var b := BulkSteps(db, r, copies);
    if b.error.Some? then Bulk(db, [], b.error) else b
  }

  // ----- generation

  predicate PendingFor(rows: map<RecId, Row>, branch: BranchId, part: PartId) {
    exists o :: o in rows && rows[o].state.Pending? && rows[o].draft.branch == branch && rows[o].draft.part == part
  }

  predicate ExistsForRun(rows: map<RecId, Row>, branch: BranchId, part: PartId, runDate: Date) {
    exists o :: o in rows && rows[o].draft.branch == branch && rows[o].draft.part == part && rows[o].runDate == runDate
  }

  function Create(db: Db, d: Draft, runDate: Date): Result<Db, Error> {
    if PendingFor(db.rows, d.branch, d.part) then Err(PendingExists)
    else Ok(db.(rows := db.rows[db.nextId := Row(d, Pending, runDate, None, None, "")], nextId := db.nextId + 1))
  }

  /** A generation half way: nothing undoes the rows already created. */
  datatype Generation = Generation(db: Db, created: seq<RecId>, error: Option<Error>)

  /** A branch run uses the branch's own sales, a center run the aggregate of its dependents. */
  datatype RunKind = BranchRun | CenterRun

  /** What a run would recommend for each part. */
  type Proposer = Part -> Option<Draft>

  function ProposerOf(kind: RunKind, m: Data, b: Branch): Proposer {
    match kind
    case BranchRun => (part: Part) => Propose(m, b, part)
    case CenterRun => (part: Part) => ProposeWith(m, b, part, CenterVelocity(m, part, b.id))
  }

  function GeneratePart(g: Generation, propose: Proposer, b: BranchId, part: Part, runDate: Date): Generation {
    if g.error.Some? || ExistsForRun(g.db.rows, b, part.id, runDate) then g
    else
      match propose(part)
      case None => g
      case Some(d) =>
        match Create(g.db, d, runDate)
        case Ok(next) => Generation(next, g.created + [g.db.nextId], None)
        case Err(e) => g.(error := Some(e))
  }

  function GenerateOver(db: Db, propose: Proposer, b: BranchId, parts: seq<Part>, runDate: Date): Generation {
    if parts == [] then Generation(db, [], None)
    else GeneratePart(GenerateOver(db, propose, b, parts[..|parts| - 1], runDate), propose, b, parts[|parts| - 1],
                      runDate)
  }

  /** generate_for_branch and generate_for_dc. */
  function Generate(db: Db, kind: RunKind, m: Data, b: Branch, runDate: Date): Generation {
    if kind.CenterRun? && !b.isCenter then Generation(db, [], Some(NotACenter))
    else GenerateOver(db, ProposerOf(kind, m, b), b.id, m.parts, runDate)
  }

  /** generate_for_tenant: every active branch by its own sales, stopping at the first error. */
  function GenerateTenant(db: Db, m: Data, branches: seq<Branch>, runDate: Date): Generation {
    if branches == [] then Generation(db, [], None)
    else
      var g, b := GenerateTenant(db, m, branches[..|branches| - 1], runDate), branches[|branches| - 1];
      if g.error.Some? || !b.isActive then g
      else
        var more := Generate(g.db, BranchRun, m, b, runDate);
        Generation(more.db, g.created + more.created, more.error)
  }

  // ----- recalculation

  /** What a recalculation of the copy would recommend now. */
  function Refreshed(m: Data, copy: Copy): Option<Draft> {
    var b, part := BranchOf(m.branches, copy.row.draft.branch), PartOf(m, copy.row.draft.part);
    if b.None? || part.None? then None
    else ProposeWith(m, b.value, part.value, CurrentVelocity(m, b.value, part.value))
  }

  /** Deletes the row when nothing is to be ordered any more; otherwise saves the caller's copy, refreshed. */
  function Recalculate(db: Db, m: Data, copy: Copy): Result<Db, Error> {
    if !copy.row.state.Pending? then Err(InvalidTransition)
    else if BranchOf(m.branches, copy.row.draft.branch).None? || PartOf(m, copy.row.draft.part).None?
        then Err(DoesNotExist)
    else
      match Refreshed(m, copy)
      case None => Ok(db.(rows := db.rows - {copy.id}))
      case Some(d) => Save(db, copy.id, copy.row.(draft := d))
  }
}
