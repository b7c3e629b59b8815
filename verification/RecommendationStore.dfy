/** The table and the log as the services change them, row by row. */
module RecommendationStore {
  import opened Prelude
  import opened Ids
  import opened Calendar
  import opened Classification
  import opened Market
  import opened Store

  class Recommendations {
    var rows: map<RecId, Row>
    var log: seq<Entry>
    var nextId: RecId

    ghost function Contents(): Db
      reads this
    {
      Db(rows, log, nextId)
    }

    constructor ()
      ensures Contents() == Db(map[], [], 0)
    {
      rows, log, nextId := map[], [], 0;
    }

    method SaveRow(id: RecId, row: Row) returns (error: Option<Error>)
      modifies this
      ensures match Save(old(Contents()), id, row)
              case Ok(next) => Contents() == next && error == None
              case Err(e) => Contents() == old(Contents()) && error == Some(e)
    {
      if row.state.Pending? && OtherPending(rows, id, row) {
        return Some(IntegrityError);
      }
      rows := rows[id := row];
      return None;
    }

    method TransitionRecommendation(id: RecId, target: RecState, user: UserId, now: int, notes: string)
      returns (error: Option<Error>)
      modifies this
      ensures match Transition(old(Contents()), id, target, user, now, notes)
              case Ok(next) => Contents() == next && error == None
              case Err(e) => Contents() == old(Contents()) && error == Some(e)
    {
      if id !in rows {
        return Some(DoesNotExist);
      }
      var locked := rows[id];
      if !CanTransition(locked.state, target) {
        if locked.state.Ordered? {
          return Some(AlreadyDecided);
        }
        if locked.state.Approved? && target.Pending? {
          return Some(AlreadyDecided);
        }
        return Some(InvalidTransition);
      }
      locked := locked.(state := target);
      locked := locked.(decidedBy := Some(user), decidedAt := Some(now));
      locked := locked.(notes := notes);
      error := SaveRow(id, locked);
    }

    method TransitionAndLogEntry(r: Request, copy: Copy) returns (error: Option<Error>)
      modifies this
      ensures match TransitionAndLog(old(Contents()), r, copy)
              case Ok(next) => Contents() == next && error == None
              case Err(e) => Contents() == old(Contents()) && error == Some(e)
    {
      if !CanApprove(r.org, r.user, copy.row) {
        return Some(PermissionDenied);
      }
      var role := ActiveRole(r.user, r.org.tenant);
      if role.Err? {
        return Some(role.error);
      }
      error := TransitionRecommendation(copy.id, TargetOf(r.action), r.user.id, r.now, r.notes);
      if error == None {
        log := log + [Decision(r.user.id, r.action, copy.id, copy.row.state, TargetOf(r.action), role.value, r.notes)];
      }
    }

    method DecideOne(r: Request, copy: Copy) returns (error: Option<Error>)
      modifies this
      ensures match Decide(old(Contents()), r, copy)
              case Ok(next) => Contents() == next && error == None
              case Err(e) => Contents() == old(Contents()) && error == Some(e)
    {
      if r.action.Approve? {
        if !CanApprove(r.org, r.user, copy.row) {
          return Some(PermissionDenied);
        }
        if CrossesCoordinators(r.org, copy.row) && !HasRole(r.user, Gerente) {
          return Some(PermissionDenied);
        }
      }
      error := TransitionAndLogEntry(r, copy);
    }

    method ApproveCrossCoordinatorTransfer(r: Request, copy: Copy) returns (error: Option<Error>)
      modifies this
      ensures match ApproveCross(old(Contents()), r, copy)
              case Ok(next) => Contents() == next && error == None
              case Err(e) => Contents() == old(Contents()) && error == Some(e)
    {
      if !HasRole(r.user, Gerente) {
        return Some(PermissionDenied);
      }
      error := DecideOne(r.(action := Approve), copy);
      if error == None {
        log := log + [CrossNotified(r.user.id, copy.id)];
      }
    }

    /** Skips rows that are not pending in the copy or not permitted; any other error undoes everything. */
    method BulkTransition(r: Request, copies: seq<Copy>) returns (updated: seq<RecId>, error: Option<Error>)
      modifies this
      ensures Store.Bulk(Contents(), updated, error) == DecideBulk(old(Contents()), r, copies)
    {
      var savedRows, savedLog, savedNext := rows, log, nextId;
      updated, error := [], None;
      for i := 0 to |copies|
        invariant Store.Bulk(Contents(), updated, None) == BulkSteps(old(Contents()), r, copies[..i])
      {
        assert copies[..i + 1][..i] == copies[..i];
        if !copies[i].row.state.Pending? {
          continue;
        }
        var refused := DecideOne(r, copies[i]);
        if refused == None {
          updated := updated + [copies[i].id];
        } else if refused != Some(PermissionDenied) {
          FailedBulkStaysFailed(old(Contents()), r, copies, i + 1);
          rows, log, nextId := savedRows, savedLog, savedNext;
          return [], refused;
        }
      }
      assert copies[..|copies|] == copies;
    }

    method CreateRecommendation(d: Draft, runDate: Date) returns (r: Result<RecId, Error>)
      modifies this
      ensures match Create(old(Contents()), d, runDate)
              case Ok(next) => Contents() == next && r == Ok(old(nextId))
              case Err(e) => Contents() == old(Contents()) && r == Err(e)
    {
      if PendingFor(rows, d.branch, d.part) {
        return Err(PendingExists);
      }
      r := Ok(nextId);
      rows := rows[nextId := Row(d, Pending, runDate, None, None, "")];
      nextId := nextId + 1;
    }

    method MaybeGenerateForPart(propose: Proposer, b: BranchId, part: Part, runDate: Date, before: seq<RecId>)
      returns (created: seq<RecId>, error: Option<Error>)
      modifies this
      ensures Generation(Contents(), created, error)
              == GeneratePart(Generation(old(Contents()), before, None), propose, b, part, runDate)
    {
      created, error := before, None;
      if ExistsForRun(rows, b, part.id, runDate) {
        return;
      }
      var draft := propose(part);
      if draft.None? {
        return;
      }
      var r := CreateRecommendation(draft.value, runDate);
      if r.Err? {
        return created, Some(r.error);
      }
      created := created + [r.value];
    }

    /** Part by part; an error stops the run and keeps what was created. */
    method GenerateForParts(propose: Proposer, b: BranchId, parts: seq<Part>, runDate: Date)
      returns (created: seq<RecId>, error: Option<Error>)
      modifies this
      ensures Generation(Contents(), created, error) == GenerateOver(old(Contents()), propose, b, parts, runDate)
    {
      created, error := [], None;
      for i := 0 to |parts|
        invariant error == None
        invariant Generation(Contents(), created, None)
                == GenerateOver(old(Contents()), propose, b, parts[..i], runDate)
      {
        assert parts[..i + 1][..i] == parts[..i];
        created, error := MaybeGenerateForPart(propose, b, parts[i], runDate, created);
        if error.Some? {
          FailedGenerationStaysFailed(old(Contents()), propose, b, parts, runDate, i + 1);
          return;
        }
      }
      assert parts[..|parts|] == parts;
    }

    method GenerateForBranch(m: Data, b: Branch, runDate: Date) returns (created: seq<RecId>, error: Option<Error>)
      modifies this
      ensures Generation(Contents(), created, error) == Generate(old(Contents()), BranchRun, m, b, runDate)
    {
      created, error := GenerateForParts(ProposerOf(BranchRun, m, b), b.id, m.parts, runDate);
    }

    method GenerateForDc(m: Data, b: Branch, runDate: Date) returns (created: seq<RecId>, error: Option<Error>)
      modifies this
      ensures Generation(Contents(), created, error) == Generate(old(Contents()), CenterRun, m, b, runDate)
    {
      if !b.isCenter {
        return [], Some(NotACenter);
      }
      created, error := GenerateForParts(ProposerOf(CenterRun, m, b), b.id, m.parts, runDate);
    }

    method GenerateForTenant(m: Data, runDate: Date) returns (created: seq<RecId>, error: Option<Error>)
      modifies this
      ensures Generation(Contents(), created, error) == GenerateTenant(old(Contents()), m, m.branches, runDate)
    {
      created, error := [], None;
      for i := 0 to |m.branches|
        invariant Generation(Contents(), created, None) == GenerateTenant(old(Contents()), m, m.branches[..i], runDate)
      {
        assert m.branches[..i + 1][..i] == m.branches[..i];
        if m.branches[i].isActive {
          var more, stopped := GenerateForBranch(m, m.branches[i], runDate);
          created := created + more;
          if stopped.Some? {
            FailedTenantRunStaysFailed(old(Contents()), m, m.branches, runDate, i + 1);
            return created, stopped;
          }
        }
      }
      assert m.branches[..|m.branches|] == m.branches;
    }

    method RecalculateRecommendation(m: Data, copy: Copy) returns (error: Option<Error>)
      modifies this
      ensures match Recalculate(old(Contents()), m, copy)
              case Ok(next) => Contents() == next && error == None
              case Err(e) => Contents() == old(Contents()) && error == Some(e)
    {
      if !copy.row.state.Pending? {
        return Some(InvalidTransition);
      }
      var b, part := BranchOf(m.branches, copy.row.draft.branch), PartOf(m, copy.row.draft.part);
      if b.None? || part.None? {
        return Some(DoesNotExist);
      }
      var draft := ProposeWith(m, b.value, part.value, CurrentVelocity(m, b.value, part.value));
      if draft.None? {
        rows := rows - {copy.id};
        return None;
      }
      error := SaveRow(copy.id, copy.row.(draft := draft.value));
    }
  }

  // ----- once stopped, stopped

  lemma {:induction false} FailedBulkStaysFailed(db: Db, r: Request, copies: seq<Copy>, i: nat)
    requires i <= |copies| && BulkSteps(db, r, copies[..i]).error.Some?
    ensures BulkSteps(db, r, copies) == BulkSteps(db, r, copies[..i])
    decreases |copies|
  {
    if i == |copies| {
      assert copies[..i] == copies;
    } else {
      assert copies[..|copies| - 1][..i] == copies[..i];
      FailedBulkStaysFailed(db, r, copies[..|copies| - 1], i);
    }
  }

  lemma {:induction false} FailedGenerationStaysFailed(db: Db, propose: Proposer, b: BranchId, parts: seq<Part>,
                                                       runDate: Date, i: nat)
    requires i <= |parts| && GenerateOver(db, propose, b, parts[..i], runDate).error.Some?
    ensures GenerateOver(db, propose, b, parts, runDate) == GenerateOver(db, propose, b, parts[..i], runDate)
    decreases |parts|
  {
    if i == |parts| {
      assert parts[..i] == parts;
    } else {
      assert parts[..|parts| - 1][..i] == parts[..i];
      FailedGenerationStaysFailed(db, propose, b, parts[..|parts| - 1], runDate, i);
    }
  }

  lemma {:induction false} FailedTenantRunStaysFailed(db: Db, m: Data, branches: seq<Branch>, runDate: Date, i: nat)
    requires i <= |branches| && GenerateTenant(db, m, branches[..i], runDate).error.Some?
    ensures GenerateTenant(db, m, branches, runDate) == GenerateTenant(db, m, branches[..i], runDate)
    decreases |branches|
  {
    if i == |branches| {
      assert branches[..i] == branches;
    } else {
      assert branches[..|branches| - 1][..i] == branches[..i];
      FailedTenantRunStaysFailed(db, m, branches[..|branches| - 1], runDate, i);
    }
  }
}
