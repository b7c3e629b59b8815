/** Who may decide, what the log says about it, and what bulk actions do, over every run. */
module AuditTrail {
  import opened Prelude
  import opened Ids
  import Calendar
  import opened Classification
  import opened Market
  import opened Store
  import opened StoreRuns

  // ----- authority, stated without the order of the checks

  ghost predicate CoordinatesWithin(user: User, tenant: TenantId, b: BranchId) {
    (user.tenant == None || user.tenant == Some(tenant))
    && exists i :: 0 <= i < |user.roles| && user.roles[i].role.Coordinator? && b in user.roles[i].scope
  }

  ghost predicate Manages(org: Org, user: User, b: BranchId) {
    b in org.manager && org.manager[b] == user.id
  }

  /** Crossing rows belong to a gerente; others also to coordinators in scope and the branch manager. */
  ghost predicate HasAuthority(org: Org, user: User, row: Row) {
    HasRole(user, Gerente)
    || (!CrossesCoordinators(org, row)
        && (CoordinatesWithin(user, org.tenant, row.draft.branch) || Manages(org, user, row.draft.branch)))
  }

  lemma {:induction false} ScopeIff(user: User, tenant: TenantId, n: nat, b: BranchId)
    requires n <= |user.roles|
    ensures b in CoordinatorScope(user, tenant, n)
            <==> (user.tenant == None || user.tenant == Some(tenant))
                 && exists i :: 0 <= i < n && user.roles[i].role.Coordinator? && b in user.roles[i].scope
  {
    if n > 0 {
      ScopeIff(user, tenant, n - 1, b);
    }
  }

  lemma CanApproveIffAuthority(org: Org, user: User, row: Row)
    ensures CanApprove(org, user, row) <==> HasAuthority(org, user, row)
  {
    ScopeIff(user, org.tenant, |user.roles|, row.draft.branch);
    if row.draft.branch in CoordinatorScope(user, org.tenant, |user.roles|) {
      var i :| 0 <= i < |user.roles| && user.roles[i].role.Coordinator? && row.draft.branch in user.roles[i].scope;
      assert HasRole(user, Coordinator);
    }
  }

  /** The caller's copy is of the row's branch, and crosses coordinators if the row does. */
  ghost predicate ShowsCrossing(org: Org, copy: Copy, row: Row) {
    copy.row.draft.branch == row.draft.branch && (CrossesCoordinators(org, row) ==> CrossesCoordinators(org, copy.row))
  }

  /** A logged decision of a request on a copy, against the row it was made on. */
  ghost predicate Justified(e: Entry, r: Request, copy: Copy, rows: map<RecId, Row>) {
    && e.Decision? && e.rec == copy.id && e.user == r.user.id && e.action == r.action
    && HasAuthority(r.org, r.user, copy.row)
    && copy.id in rows
    && (ShowsCrossing(r.org, copy, rows[copy.id]) ==> HasAuthority(r.org, r.user, rows[copy.id]))
  }

  lemma DecisionIsJustified(db: Db, r: Request, copy: Copy)
    requires Decide(db, r, copy).Ok?
    ensures var next := Decide(db, r, copy).value;
            |next.log| == |db.log| + 1 && db.log <= next.log && Justified(next.log[|db.log|], r, copy, db.rows)
  {
    DecideIsATransition(db, r, copy);
    CanApproveIffAuthority(r.org, r.user, copy.row);
  }

  ghost predicate DecidableWithoutGerente(db: Db, org: Org, action: Action, copy: Copy) {
    exists user: User :: !HasRole(user, Gerente) && Decide(db, Request(org, user, action, 0, ""), copy).Ok?
  }

  /** The row is stored in a state that the action may leave. */
  predicate Decidable(db: Db, action: Action, copy: Copy) {
    copy.id in db.rows && CanTransition(db.rows[copy.id].state, TargetOf(action))
  }

  lemma CoordinatorDecides(db: Db, org: Org, action: Action, copy: Copy, user: User)
    requires Decidable(db, action, copy) && !CrossesCoordinators(org, copy.row)
    requires user == User(0, Some(org.tenant), [UserRole(Coordinator, [copy.row.draft.branch])])
    ensures !HasRole(user, Gerente) && Decide(db, Request(org, user, action, 0, ""), copy).Ok?
  {
    assert CoordinatesWithin(user, org.tenant, copy.row.draft.branch) by {
      assert user.roles[0].role.Coordinator? && copy.row.draft.branch in user.roles[0].scope;
    }
    CanApproveIffAuthority(org, user, copy.row);
  }

  /**
   A row can be decided without a gerente exactly when the caller's copy does not cross coordinators,
   whatever the row itself does.
   */
  lemma GerenteIsBypassedIff(db: Db, org: Org, action: Action, copy: Copy)
    requires Decidable(db, action, copy)
    ensures DecidableWithoutGerente(db, org, action, copy) <==> !CrossesCoordinators(org, copy.row)
  {
    if !CrossesCoordinators(org, copy.row) {
      CoordinatorDecides(db, org, action, copy,
                         User(0, Some(org.tenant), [UserRole(Coordinator, [copy.row.draft.branch])]));
    }
  }

  /**
   A crossing row decided without a gerente means that the caller's copy did not show the row's
   source: it was read before the sources were resolved anew.
   */
  lemma OnlyStaleCopiesBypassTheGerente(db: Db, r: Request, copy: Copy)
    requires Decide(db, r, copy).Ok? && copy.row.draft.branch == db.rows[copy.id].draft.branch
    requires CrossesCoordinators(r.org, db.rows[copy.id]) && !HasRole(r.user, Gerente)
    ensures !CrossesCoordinators(r.org, copy.row)
    ensures copy.row.draft.resolution.sourceBranch != db.rows[copy.id].draft.resolution.sourceBranch
  {
    DecisionIsJustified(db, r, copy);
  }

  /** And a copy without source is enough: the branch's manager then approves a crossing row. */
  lemma StaleCopyIsDecidedByTheManager(db: Db, id: RecId, manager: User, org: Org, now: int, copy: Row)
    requires id in db.rows && db.rows[id].state.Pending? && CrossesCoordinators(org, db.rows[id])
    requires org.manager == map[db.rows[id].draft.branch := manager.id] && manager.tenant == Some(org.tenant)
    requires var d := db.rows[id].draft;
             copy == db.rows[id].(draft := d.(resolution := d.resolution.(sourceBranch := None)))
    ensures Decide(db, Request(org, manager, Approve, now, ""), Copy(id, copy)).Ok?
  {
  }

  // ----- the entries of every run

  ghost function RequestOf(s: Step): Option<(Request, seq<Copy>)> {
    match s
    case DecideStep(r, copy) => Some((r, [copy]))
    case CrossStep(r, copy) => Some((r.(action := Approve), [copy]))
    case BulkStep(r, copies) => Some((r, copies))
    case _ => None
  }

  /** The log grows by notices and by justified decisions of the request on its copies. */
  ghost predicate AddsJustified(db: Db, r: Request, copies: seq<Copy>, next: Db) {
    db.log <= next.log
    && forall k :: |db.log| <= k < |next.log| && next.log[k].Decision? ==>
         exists copy :: copy in copies && Justified(next.log[k], r, copy, db.rows)
  }

  lemma {:induction false} GenerationKeepsLog(db: Db, propose: Proposer, b: BranchId, parts: seq<Part>,
                                              runDate: Calendar.Date)
    ensures GenerateOver(db, propose, b, parts, runDate).db.log == db.log
  {
    if parts != [] {
      GenerationKeepsLog(db, propose, b, parts[..|parts| - 1], runDate);
    }
  }

  lemma {:induction false} TenantRunKeepsLog(db: Db, m: Data, branches: seq<Branch>, runDate: Calendar.Date)
    ensures GenerateTenant(db, m, branches, runDate).db.log == db.log
  {
    if branches != [] {
      var g, b := GenerateTenant(db, m, branches[..|branches| - 1], runDate), branches[|branches| - 1];
      TenantRunKeepsLog(db, m, branches[..|branches| - 1], runDate);
      GenerationKeepsLog(g.db, ProposerOf(BranchRun, m, b), b.id, m.parts, runDate);
    }
  }

  /** Transitions leave every draft, so sources and authority do not move under a bulk action. */
  lemma DecideKeepsDrafts(db: Db, r: Request, copy: Copy)
    requires Decide(db, r, copy).Ok?
    ensures var next := Decide(db, r, copy).value;
            next.rows.Keys == db.rows.Keys && forall id :: id in db.rows ==> next.rows[id].draft == db.rows[id].draft
  {
    DecideIsATransition(db, r, copy);
  }

  lemma {:induction false} BulkKeepsDrafts(db: Db, r: Request, copies: seq<Copy>)
    ensures var b := BulkSteps(db, r, copies);
            b.db.rows.Keys == db.rows.Keys && forall id :: id in db.rows ==> b.db.rows[id].draft == db.rows[id].draft
  {
    if copies != [] {
      var b, copy := BulkSteps(db, r, copies[..|copies| - 1]), copies[|copies| - 1];
      BulkKeepsDrafts(db, r, copies[..|copies| - 1]);
      if Decide(b.db, r, copy).Ok? {
        DecideKeepsDrafts(b.db, r, copy);
      }
    }
  }

  /** One entry per decided row, in the order of the result. */
  lemma {:induction false} BulkLogsItsResult(db: Db, r: Request, copies: seq<Copy>)
    ensures var b := BulkSteps(db, r, copies);
            && db.log <= b.db.log && |b.db.log| == |db.log| + |b.updated|
            && forall k :: |db.log| <= k < |b.db.log| ==>
               b.db.log[k].Decision? && b.db.log[k].rec == b.updated[k - |db.log|]
  {
    if copies != [] {
      var b, copy := BulkSteps(db, r, copies[..|copies| - 1]), copies[|copies| - 1];
      BulkLogsItsResult(db, r, copies[..|copies| - 1]);
      if Decide(b.db, r, copy).Ok? {
        DecideIsATransition(b.db, r, copy);
      }
    }
  }

  lemma JustifiedBySameDrafts(e: Entry, r: Request, copy: Copy, a: map<RecId, Row>, b: map<RecId, Row>)
    requires Justified(e, r, copy, a) && a.Keys == b.Keys && forall id :: id in a ==> a[id].draft == b[id].draft
    ensures Justified(e, r, copy, b)
  {
  }

  lemma {:induction false} BulkIsJustified(db: Db, r: Request, copies: seq<Copy>)
    ensures AddsJustified(db, r, copies, BulkSteps(db, r, copies).db)
  {
    if copies != [] {
      var n := |copies| - 1;
      var b, copy := BulkSteps(db, r, copies[..n]), copies[n];
      var next := BulkSteps(db, r, copies).db;
      BulkIsJustified(db, r, copies[..n]);
      forall k | |db.log| <= k < |b.db.log| && b.db.log[k].Decision?
        ensures exists c :: c in copies && Justified(b.db.log[k], r, c, db.rows)
      {
        var c :| c in copies[..n] && Justified(b.db.log[k], r, c, db.rows);
        assert c in copies;
      }
      if next != b.db {
        DecisionIsJustified(b.db, r, copy);
        BulkKeepsDrafts(db, r, copies[..n]);
        JustifiedBySameDrafts(next.log[|b.db.log|], r, copy, b.db.rows, db.rows);
        assert copy in copies;
      }
    }
  }

  lemma CrossIsJustified(db: Db, r: Request, copy: Copy)
    requires ApproveCross(db, r, copy).Ok?
    ensures AddsJustified(db, r.(action := Approve), [copy], ApproveCross(db, r, copy).value)
  {
    var d, next := Decide(db, r.(action := Approve), copy).value, ApproveCross(db, r, copy).value;
    DecisionIsJustified(db, r.(action := Approve), copy);
    assert next.log == d.log + [CrossNotified(r.user.id, copy.id)];
    assert copy in [copy];
  }

  /** Without a request a step logs nothing. */
  lemma StepAddsJustified(db: Db, s: Step)
    ensures if RequestOf(s).None? then Apply(db, s).log == db.log
            else AddsJustified(db, RequestOf(s).value.0, RequestOf(s).value.1, Apply(db, s))
  {
    match s
    case GenerateStep(kind, m, b, runDate) => GenerationKeepsLog(db, ProposerOf(kind, m, b), b.id, m.parts, runDate);
    case TenantStep(m, runDate) => TenantRunKeepsLog(db, m, m.branches, runDate);
    case RecalculateStep(m, copy) =>
    case DecideStep(r, copy) =>
      if Decide(db, r, copy).Ok? {
        DecisionIsJustified(db, r, copy);
        assert copy in [copy];
      }
    case CrossStep(r, copy) =>
      if ApproveCross(db, r, copy).Ok? {
        CrossIsJustified(db, r, copy);
      }
    case BulkStep(r, copies) => BulkIsJustified(db, r, copies);
    case DirectStep(id, target, user, now, notes) =>
  }

  /** Over every run: the log only grows, and every decision in it was made with authority. */
  lemma {:induction false} EveryDecisionIsJustified(steps: seq<Step>, k: nat)
    requires k < |Run(steps).log| && Run(steps).log[k].Decision?
    ensures exists i :: 0 <= i < |steps| && RequestOf(steps[i]).Some?
              && exists copy :: copy in RequestOf(steps[i]).value.1
                   && Justified(Run(steps).log[k], RequestOf(steps[i]).value.0, copy, Run(steps[..i]).rows)
  {
    var n := |steps| - 1;
    var before := Run(steps[..n]);
    StepAddsJustified(before, steps[n]);
    if k < |before.log| {
      EveryDecisionIsJustified(steps[..n], k);
      var i :| 0 <= i < n && RequestOf(steps[..n][i]).Some?
               && exists copy :: copy in RequestOf(steps[..n][i]).value.1
                    && Justified(before.log[k], RequestOf(steps[..n][i]).value.0, copy, Run(steps[..n][..i]).rows);
      assert steps[..n][..i] == steps[..i];
    }
  }

  // ----- the logged states of a row

  function AfterStates(log: seq<Entry>, id: RecId): seq<RecState> {
    if log == [] then []
    else
      var e := log[|log| - 1];
      AfterStates(log[..|log| - 1], id) + if e.Decision? && e.rec == id then [e.after] else []
  }

  ghost predicate LegalPath(path: seq<RecState>) {
    forall i :: 0 <= i < |path| - 1 ==> CanTransition(path[i], path[i + 1])
  }

  /** From Pending through the logged states to the state the row has. */
  ghost predicate TrailFits(db: Db, id: RecId) {
    var path := [Pending] + AfterStates(db.log, id);
    && LegalPath(path) && Pending !in AfterStates(db.log, id)
    && (id in db.rows ==> path[|path| - 1] == db.rows[id].state)
    && (id !in db.rows ==> AfterStates(db.log, id) == [])
  }

  ghost predicate Service(s: Step) {
    !s.DirectStep?
  }

  lemma DecideKeepsTrail(db: Db, r: Request, copy: Copy, id: RecId)
    requires TrailFits(db, id) && Decide(db, r, copy).Ok?
    ensures TrailFits(Decide(db, r, copy).value, id)
  {
    DecideIsATransition(db, r, copy);
    var next := Decide(db, r, copy).value;
    assert next.log[..|db.log|] == db.log;
    var before, after := AfterStates(db.log, id), AfterStates(next.log, id);
    if id == copy.id {
      assert after == before + [TargetOf(r.action)];
      var path := [Pending] + before;
      assert [Pending] + after == path + [TargetOf(r.action)];
    } else {
      assert after == before;
    }
  }

  lemma {:induction false} BulkKeepsTrail(db: Db, r: Request, copies: seq<Copy>, id: RecId)
    requires TrailFits(db, id)
    ensures TrailFits(BulkSteps(db, r, copies).db, id)
  {
    if copies != [] {
      var b, copy := BulkSteps(db, r, copies[..|copies| - 1]), copies[|copies| - 1];
      BulkKeepsTrail(db, r, copies[..|copies| - 1], id);
      if !b.error.Some? && copy.row.state.Pending? && Decide(b.db, r, copy).Ok? {
        DecideKeepsTrail(b.db, r, copy, id);
      }
    }
  }

  lemma CreateKeepsTrail(db: Db, d: Draft, runDate: Calendar.Date, id: RecId)
    requires Numbered(db) && TrailFits(db, id)
    ensures TrailFits(OrSame(db, Create(db, d, runDate)), id)
  {
    if id == db.nextId {
      assert id !in db.rows;
    }
  }

  lemma {:induction false} GenerationKeepsTrail(db: Db, propose: Proposer, b: BranchId, parts: seq<Part>,
                                                runDate: Calendar.Date, id: RecId)
    requires Numbered(db) && Proper(propose, b) && TrailFits(db, id)
    ensures TrailFits(GenerateOver(db, propose, b, parts, runDate).db, id)
  {
    if parts != [] {
      var g, part := GenerateOver(db, propose, b, parts[..|parts| - 1], runDate), parts[|parts| - 1];
      GenerationKeepsTrail(db, propose, b, parts[..|parts| - 1], runDate, id);
      GenerateOverGenerates(db, propose, b, parts[..|parts| - 1], runDate);
      if propose(part).Some? {
        CreateKeepsTrail(g.db, propose(part).value, runDate, id);
      }
    }
  }

  lemma {:induction false} TenantRunKeepsTrail(db: Db, m: Data, branches: seq<Branch>, runDate: Calendar.Date,
                                               id: RecId)
    requires Numbered(db) && TrailFits(db, id)
    ensures TrailFits(GenerateTenant(db, m, branches, runDate).db, id)
  {
    if branches != [] {
      var g, b := GenerateTenant(db, m, branches[..|branches| - 1], runDate), branches[|branches| - 1];
      TenantRunKeepsTrail(db, m, branches[..|branches| - 1], runDate, id);
      TenantGenerates(db, m, branches[..|branches| - 1], runDate);
      ProposersAreProper(BranchRun, m, b);
      GenerationKeepsTrail(g.db, ProposerOf(BranchRun, m, b), b.id, m.parts, runDate, id);
    }
  }

  lemma NoticeKeepsTrail(db: Db, user: UserId, rec: RecId, id: RecId)
    requires TrailFits(db, id)
    ensures TrailFits(db.(log := db.log + [CrossNotified(user, rec)]), id)
  {
    assert (db.log + [CrossNotified(user, rec)])[..|db.log|] == db.log;
    assert AfterStates(db.log, id) + [] == AfterStates(db.log, id);
  }

  /** A path that never returns to Pending ends there only if it never left. */
  lemma StillPending(states: seq<RecState>)
    ensures Pending !in states && ([Pending] + states)[|states|] == Pending ==> states == []
  {
    if states != [] {
      assert ([Pending] + states)[|states|] in states;
    }
  }

  /** A recalculation that goes through on a row which is stored as decided. */
  predicate OverridesDecision(db: Db, s: Step) {
    s.RecalculateStep? && Recalculates(db, s.m, s.copy) && s.copy.id in db.rows && !db.rows[s.copy.id].state.Pending?
  }

  /** The path ends in the stored state, so a row that has left Pending has logged states. */
  lemma RecalculateKeepsTrailIff(db: Db, m: Data, copy: Copy)
    requires TrailFits(db, copy.id)
    ensures TrailFits(OrSame(db, Recalculate(db, m, copy)), copy.id)
            <==> !OverridesDecision(db, RecalculateStep(m, copy))
  {
    StillPending(AfterStates(db.log, copy.id));
    RecalculatesIff(db, m, copy);
    if Recalculate(db, m, copy).Ok? {
      RecalculationShape(db, m, copy);
    }
  }

  lemma RecalculateKeepsOtherTrails(db: Db, m: Data, copy: Copy, id: RecId)
    requires TrailFits(db, id) && id != copy.id
    ensures TrailFits(OrSame(db, Recalculate(db, m, copy)), id)
  {
    if Recalculate(db, m, copy).Ok? {
      RecalculationShape(db, m, copy);
    }
  }

  ghost predicate AllTrailsFit(db: Db) {
    forall id :: TrailFits(db, id)
  }

  lemma StepKeepsTrail(db: Db, s: Step, id: RecId)
    requires Numbered(db) && TrailFits(db, id) && Service(s) && !s.RecalculateStep?
    ensures TrailFits(Apply(db, s), id)
  {
    match s
    case GenerateStep(kind, m, b, runDate) =>
      ProposersAreProper(kind, m, b);
      GenerationKeepsTrail(db, ProposerOf(kind, m, b), b.id, m.parts, runDate, id);
    case TenantStep(m, runDate) => TenantRunKeepsTrail(db, m, m.branches, runDate, id);
    case DecideStep(r, copy) =>
      if Decide(db, r, copy).Ok? {
        DecideKeepsTrail(db, r, copy, id);
      }
    case CrossStep(r, copy) =>
      var d := Decide(db, r.(action := Approve), copy);
      if d.Ok? {
        DecideKeepsTrail(db, r.(action := Approve), copy, id);
        NoticeKeepsTrail(d.value, r.user.id, copy.id, id);
      }
    case BulkStep(r, copies) => BulkKeepsTrail(db, r, copies, id);
  }

  lemma StepKeepsTrailsIff(db: Db, s: Step)
    requires Numbered(db) && AllTrailsFit(db) && Service(s)
    ensures AllTrailsFit(Apply(db, s)) <==> !OverridesDecision(db, s)
  {
    if s.RecalculateStep? {
      assert TrailFits(db, s.copy.id);
      RecalculateKeepsTrailIff(db, s.m, s.copy);
      forall id | id != s.copy.id
        ensures TrailFits(Apply(db, s), id)
      {
        assert TrailFits(db, id);
        RecalculateKeepsOtherTrails(db, s.m, s.copy, id);
      }
    } else {
      forall id
        ensures TrailFits(Apply(db, s), id)
      {
        assert TrailFits(db, id);
        StepKeepsTrail(db, s, id);
      }
    }
  }

  ghost predicate TrailsAlwaysFit(steps: seq<Step>) {
    forall i :: 0 <= i <= |steps| ==> AllTrailsFit(Run(steps[..i]))
  }

  ghost predicate NeverOverridesDecision(steps: seq<Step>) {
    forall i :: 0 <= i < |steps| ==> !OverridesDecision(Run(steps[..i]), steps[i])
  }

  ghost predicate ServiceRun(steps: seq<Step>) {
    forall i :: 0 <= i < |steps| ==> Service(steps[i])
  }

  /**
   Over every run through the services with genuine copies of any age: the states logged for each row
   always form a legal path from Pending to its present state, and none are logged for a row that is
   gone, exactly when no recalculation goes through on a row stored as decided.
   */
  lemma LoggedStatesFormAPathIff(steps: seq<Step>)
    requires GenuineRun(steps) && ServiceRun(steps)
    ensures TrailsAlwaysFit(steps) <==> NeverOverridesDecision(steps)
  {
    if TrailsAlwaysFit(steps) {
      forall i | 0 <= i < |steps|
        ensures !OverridesDecision(Run(steps[..i]), steps[i])
      {
        PrefixIsNumbered(steps, i);
        assert AllTrailsFit(Run(steps[..i])) && AllTrailsFit(Run(steps[..i + 1]));
        RunStep(steps, i);
        StepKeepsTrailsIff(Run(steps[..i]), steps[i]);
      }
    }
    if NeverOverridesDecision(steps) {
      forall i | 0 <= i <= |steps|
        ensures AllTrailsFit(Run(steps[..i]))
      {
        TrailsFitSoFar(steps, i);
      }
    }
  }

  lemma {:induction false} TrailsFitSoFar(steps: seq<Step>, i: nat)
    requires GenuineRun(steps) && ServiceRun(steps) && NeverOverridesDecision(steps) && i <= |steps|
    ensures AllTrailsFit(Run(steps[..i]))
  {
    if i > 0 {
      TrailsFitSoFar(steps, i - 1);
      PrefixIsNumbered(steps, i - 1);
      RunStep(steps, i - 1);
      StepKeepsTrailsIff(Run(steps[..i - 1]), steps[i - 1]);
    }
  }
}
