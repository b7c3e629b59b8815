/** What each approval action does, state by state (apps/recommendations/services.py, permissions.py, models.py). */
module Decisions {
  import opened Prelude
  import opened Ids
  import opened Classification
  import opened Market
  import opened Store
  import opened StoreRuns
  import opened AuditTrail
  import opened BulkProperties

  /** The state that a successful action ends in. */
  ghost predicate EndsIn(action: Action, state: RecState) {
    || (action == Approve && state == Approved)
    || (action == Reject && state == Rejected)
    || (action == Handle && state == Handled)
    || (action == MarkOrdered && state == Ordered)
  }

  /** The states an action is accepted in: only what is pending, but handling and ordering also what is approved. */
  ghost predicate AcceptedIn(action: Action, state: RecState) {
    || (action in {Approve, Reject} && state == Pending)
    || (action == Handle && state in {Pending, Approved})
    || (action == MarkOrdered && state == Approved)
  }

  /** The whole state machine: seven moves, none of them out of Ordered. */
  lemma LegalMoves(s: RecState, t: RecState)
    ensures CanTransition(s, t)
            <==> (s, t) in {(Pending, Approved), (Pending, Rejected), (Pending, Handled), (Approved, Ordered),
                            (Approved, Handled), (Rejected, Pending), (Handled, Pending)}
  {
  }

  lemma ActionsAsStates(action: Action, s: RecState)
    ensures EndsIn(action, TargetOf(action)) && !TargetOf(action).Pending?
    ensures CanTransition(s, TargetOf(action)) <==> AcceptedIn(action, s)
  {
  }

  lemma OneEndState(action: Action, s: RecState)
    requires EndsIn(action, s)
    ensures s == TargetOf(action)
  {
  }

  ghost predicate OfTenant(user: User, tenant: TenantId) {
    user.tenant == None || user.tenant == Some(tenant)
  }

  /** The role recorded with a decision is the user's first. */
  ghost predicate RecordsRole(user: User, role: Option<Role>) {
    if user.roles == [] then role == None else role == Some(user.roles[0].role)
  }

  /** The entry that a decision on a copy adds. */
  ghost predicate EntryOf(e: Entry, r: Request, copy: Copy) {
    && e.Decision? && e.user == r.user.id && e.action == r.action && e.rec == copy.id && e.before == copy.row.state
    && EndsIn(r.action, e.after) && RecordsRole(r.user, e.role) && e.notes == r.notes
  }

  /** The stored row as a decision leaves it. */
  ghost predicate RowAfter(before: Row, after: Row, r: Request) {
    && EndsIn(r.action, after.state) && after.draft == before.draft && after.runDate == before.runDate
    && after.decidedBy == Some(r.user.id) && after.decidedAt == Some(r.now) && after.notes == r.notes
  }

  /** One row decided, one entry logged, nothing else touched. */
  ghost predicate OneDecided(db: Db, next: Db, r: Request, copy: Copy) {
    && copy.id in db.rows && next.rows.Keys == db.rows.Keys && next.nextId == db.nextId
    && RowAfter(db.rows[copy.id], next.rows[copy.id], r)
    && (forall o :: o in db.rows && o != copy.id ==> next.rows[o] == db.rows[o])
    && |next.log| == |db.log| + 1 && db.log <= next.log && EntryOf(next.log[|db.log|], r, copy)
  }

  /** Why a decision is refused, first reason first. */
  ghost predicate RefusedBecause(db: Db, r: Request, copy: Copy, e: Error) {
    if !HasAuthority(r.org, r.user, copy.row) then e == PermissionDenied
    else if !OfTenant(r.user, r.org.tenant) then e == WrongTenant
    else if copy.id !in db.rows then e == DoesNotExist
    else if db.rows[copy.id].state == Ordered then e == AlreadyDecided
    else e == InvalidTransition
  }

  /**
   A decision succeeds exactly when the user has authority over the copy, is of the tenant, and the
   stored row exists in a state that accepts the action; then it does what the action says.
   */
  lemma DecisionIsExact(db: Db, r: Request, copy: Copy)
    ensures Decide(db, r, copy).Ok?
            <==> HasAuthority(r.org, r.user, copy.row) && OfTenant(r.user, r.org.tenant)
                 && copy.id in db.rows && AcceptedIn(r.action, db.rows[copy.id].state)
    ensures Decide(db, r, copy).Ok? ==> OneDecided(db, Decide(db, r, copy).value, r, copy)
    ensures Decide(db, r, copy).Err? ==> RefusedBecause(db, r, copy, Decide(db, r, copy).error)
  {
    CanApproveIffAuthority(r.org, r.user, copy.row);
    if copy.id in db.rows {
      ActionsAsStates(r.action, db.rows[copy.id].state);
    }
    ActionsAsStates(r.action, Pending);
  }

  /** The cross-coordinator approval is an approval by a gerente, followed by a notice to both coordinators. */
  lemma CrossApprovalIsExact(db: Db, r: Request, copy: Copy)
    ensures ApproveCross(db, r, copy).Ok?
            <==> HasRole(r.user, Gerente) && OfTenant(r.user, r.org.tenant)
                 && copy.id in db.rows && db.rows[copy.id].state == Pending
    ensures ApproveCross(db, r, copy).Ok? ==>
              var next := ApproveCross(db, r, copy).value;
              && next.log != [] && next.log[|next.log| - 1] == CrossNotified(r.user.id, copy.id)
              && OneDecided(db, next.(log := next.log[..|next.log| - 1]), r.(action := Approve), copy)
  {
    DecisionIsExact(db, r.(action := Approve), copy);
    if ApproveCross(db, r, copy).Ok? {
      var d := Decide(db, r.(action := Approve), copy).value;
      assert (d.log + [CrossNotified(r.user.id, copy.id)])[..|d.log|] == d.log;
    }
  }

  // ----- bulk actions, on copies of any age

  /** The entry is that of a decision on a copy of the row. */
  ghost predicate EntryFor(e: Entry, r: Request, copies: seq<Copy>, id: RecId) {
    exists copy :: copy in copies && copy.id == id && EntryOf(e, r, copy)
  }

  ghost predicate BulkSays(db: Db, r: Request, copies: seq<Copy>, b: Bulk) {
    && (forall id :: id in b.updated ==> id in b.db.rows && EndsIn(r.action, b.db.rows[id].state)
                                         && b.db.rows[id].decidedBy == Some(r.user.id))
    && db.log <= b.db.log && |b.db.log| == |db.log| + |b.updated|
    && (forall k :: 0 <= k < |b.updated| ==> EntryFor(b.db.log[|db.log| + k], r, copies, b.updated[k]))
  }

  lemma MoreCopies(e: Entry, r: Request, copies: seq<Copy>, wider: seq<Copy>, id: RecId)
    requires EntryFor(e, r, copies, id) && copies <= wider
    ensures EntryFor(e, r, wider, id)
  {
    var copy :| copy in copies && copy.id == id && EntryOf(e, r, copy);
    assert copy in wider;
  }

  lemma MoreCopiesInBulk(db: Db, r: Request, copies: seq<Copy>, wider: seq<Copy>, b: Bulk)
    requires BulkSays(db, r, copies, b) && copies <= wider
    ensures BulkSays(db, r, wider, b)
  {
    forall k | 0 <= k < |b.updated|
      ensures EntryFor(b.db.log[|db.log| + k], r, wider, b.updated[k])
    {
      MoreCopies(b.db.log[|db.log| + k], r, copies, wider, b.updated[k]);
    }
  }

  lemma OneMoreDecided(db: Db, r: Request, copies: seq<Copy>, b: Bulk, copy: Copy, next: Db)
    requires BulkSays(db, r, copies, b) && copy in copies && OneDecided(b.db, next, r, copy)
    ensures BulkSays(db, r, copies, Bulk(next, b.updated + [copy.id], None))
  {
    var updated := b.updated + [copy.id];
    forall k | 0 <= k < |updated|
      ensures EntryFor(next.log[|db.log| + k], r, copies, updated[k])
    {
      if k < |b.updated| {
        assert next.log[|db.log| + k] == b.db.log[|db.log| + k];
      }
    }
  }

  /** Every row a bulk action returns is in the action's end state, and has its entry, in the same order. */
  lemma {:induction false} BulkStepsSay(db: Db, r: Request, copies: seq<Copy>)
    ensures BulkSays(db, r, copies, BulkSteps(db, r, copies))
  {
    if copies != [] {
      var k := |copies| - 1;
      var b, copy := BulkSteps(db, r, copies[..k]), copies[k];
      BulkStepsSay(db, r, copies[..k]);
      MoreCopiesInBulk(db, r, copies[..k], copies, b);
      if b.error == None && copy.row.state.Pending? && Decide(b.db, r, copy).Ok? {
        DecisionIsExact(b.db, r, copy);
        OneMoreDecided(db, r, copies, b, copy, Decide(b.db, r, copy).value);
      }
    }
  }

  lemma BulkDecisionsAreExact(db: Db, r: Request, copies: seq<Copy>)
    ensures BulkSays(db, r, copies, DecideBulk(db, r, copies))
  {
    BulkStepsSay(db, r, copies);
  }

  // ----- who decides, by the coordinators of both ends

  /** Source and destination have coordinators, and they are two people. */
  ghost predicate TwoCoordinators(org: Org, source: Option<BranchId>, dest: BranchId) {
    exists x: UserId, y: UserId ::
      x != y && source.Some? && (source.value, x) in org.coordinator.Items && (dest, y) in org.coordinator.Items
  }

  lemma CrossingIff(org: Org, row: Row)
    ensures CrossesCoordinators(org, row) <==> TwoCoordinators(org, row.draft.resolution.sourceBranch, row.draft.branch)
  {
    CrossingBetweenIff(org, row.draft.branch, row.draft.resolution.sourceBranch);
  }

  lemma CrossingBetweenIff(org: Org, dest: BranchId, source: Option<BranchId>)
    ensures CrossesBetween(org, dest, source) <==> TwoCoordinators(org, source, dest)
  {
    if CrossesBetween(org, dest, source) {
      assert (source.value, org.coordinator[source.value]) in org.coordinator.Items;
      assert (dest, org.coordinator[dest]) in org.coordinator.Items;
    }
  }

  /** On a current copy: between two coordinators only a gerente decides; otherwise the branch manager does, too. */
  lemma WhoDecides(db: Db, r: Request, id: RecId)
    requires id in db.rows && AcceptedIn(r.action, db.rows[id].state) && OfTenant(r.user, r.org.tenant)
    ensures var row := db.rows[id];
            var two := TwoCoordinators(r.org, row.draft.resolution.sourceBranch, row.draft.branch);
            && (two ==> (Decide(db, r, Copy(id, row)).Ok? <==> HasRole(r.user, Gerente)))
            && (!two && (row.draft.branch, r.user.id) in r.org.manager.Items ==> Decide(db, r, Copy(id, row)).Ok?)
  {
    CrossingIff(r.org, db.rows[id]);
    DecisionIsExact(db, r, Copy(id, db.rows[id]));
  }
}
