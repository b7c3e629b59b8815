/** Exactly what a generation creates (apps/recommendations/services.py, apps/scheduling/jobs.py). */
module Creations {
  import opened Prelude
  import opened Ids
  import opened Calendar
  import opened Classification
  import opened Market
  import opened Proposals
  import opened Store
  import opened StoreRuns
  import opened Repeats
  import Scheduling

  /** Something is recommended, and the table has no row of the branch, part and run date. */
  ghost predicate Due(rows: map<RecId, Row>, propose: Proposer, b: BranchId, part: Part, runDate: Date) {
    propose(part).Some?
    && forall o :: o in rows ==>
         !(rows[o].draft.branch == b && rows[o].draft.part == part.id && rows[o].runDate == runDate)
  }

  /** The drafts of the parts that are due, in the order of the parts. */
  ghost function DueDrafts(rows: map<RecId, Row>, propose: Proposer, b: BranchId, parts: seq<Part>, runDate: Date)
    : seq<Draft>
  {
    if parts == [] then []
    else
      var part := parts[|parts| - 1];
      DueDrafts(rows, propose, b, parts[..|parts| - 1], runDate)
      + if Due(rows, propose, b, part, runDate) then [propose(part).value] else []
  }

  /** The table with one new pending row for each draft, numbered on, and the list of their ids. */
  ghost predicate AddsDrafts(db: Db, g: Generation, drafts: seq<Draft>, runDate: Date) {
    && |g.created| == |drafts| && g.db.nextId == db.nextId + |drafts| && g.db.log == db.log
    && (forall i :: 0 <= i < |drafts| ==> g.created[i] == db.nextId + i)
    && (forall id :: id in g.db.rows <==> id in db.rows || db.nextId <= id < db.nextId + |drafts|)
    && (forall id :: id in db.rows ==> g.db.rows[id] == db.rows[id])
    && (forall i :: 0 <= i < |drafts| ==> g.db.rows[db.nextId + i] == Row(drafts[i], Pending, runDate, None, None, ""))
  }

  lemma AddOneDraft(db: Db, g: Generation, drafts: seq<Draft>, d: Draft, runDate: Date)
    requires Numbered(db) && AddsDrafts(db, g, drafts, runDate) && Create(g.db, d, runDate).Ok?
    ensures AddsDrafts(db, Generation(Create(g.db, d, runDate).value, g.created + [g.db.nextId], None), drafts + [d],
                       runDate)
  {
  }

  lemma DueIffMissing(rows: map<RecId, Row>, propose: Proposer, b: BranchId, part: Part, runDate: Date)
    ensures Due(rows, propose, b, part, runDate) <==> propose(part).Some? && !ExistsForRun(rows, b, part.id, runDate)
  {
  }

  /** A run that finishes creates the drafts of the parts that were due before it, and nothing else. */
  lemma {:induction false} RunCreatesExactly(db: Db, propose: Proposer, b: BranchId, parts: seq<Part>, runDate: Date)
    requires Numbered(db) && Proper(propose, b) && DistinctParts(parts)
    requires GenerateOver(db, propose, b, parts, runDate).error == None
    ensures AddsDrafts(db, GenerateOver(db, propose, b, parts, runDate), DueDrafts(db.rows, propose, b, parts, runDate),
                       runDate)
  {
    if parts != [] {
      var k := |parts| - 1;
      var g, part := GenerateOver(db, propose, b, parts[..k], runDate), parts[k];
      var drafts := DueDrafts(db.rows, propose, b, parts[..k], runDate);
      RunCreatesExactly(db, propose, b, parts[..k], runDate);
      RunLeavesOthers(db, propose, b, parts[..k], runDate, b, part.id, runDate);
      DueIffMissing(db.rows, propose, b, part, runDate);
      if Due(db.rows, propose, b, part, runDate) {
        AddOneDraft(db, g, drafts, propose(part).value, runDate);
      } else {
        assert drafts + [] == drafts;
      }
    }
  }

  /** A run that stops has done the parts before a blocked one, and those alone. */
  lemma {:induction false} StoppedRunIsAPrefix(db: Db, propose: Proposer, b: BranchId, parts: seq<Part>, runDate: Date)
    returns (n: nat)
    requires GenerateOver(db, propose, b, parts, runDate).error.Some? && Proper(propose, b)
    ensures n < |parts| && GenerateOver(db, propose, b, parts[..n], runDate).error == None
    ensures Blocked(GenerateOver(db, propose, b, parts[..n], runDate).db.rows, propose, b, parts[n], runDate)
    ensures GenerateOver(db, propose, b, parts, runDate)
            == GenerateOver(db, propose, b, parts[..n], runDate).(error := Some(PendingExists))
  {
    var k := |parts| - 1;
    var g := GenerateOver(db, propose, b, parts[..k], runDate);
    if g.error.Some? {
      n := StoppedRunIsAPrefix(db, propose, b, parts[..k], runDate);
      assert parts[..k][..n] == parts[..n];
    } else {
      n := k;
      StepFailsIff(g, propose, b, parts[k], runDate);
    }
  }

  /** The same for a branch or center run that finishes. */
  lemma GenerationCreatesExactly(db: Db, kind: RunKind, m: Data, b: Branch, runDate: Date)
    requires Numbered(db) && DistinctParts(m.parts) && Generate(db, kind, m, b, runDate).error == None
    ensures AddsDrafts(db, Generate(db, kind, m, b, runDate),
                       DueDrafts(db.rows, ProposerOf(kind, m, b), b.id, m.parts, runDate), runDate)
  {
    ProposersAreProper(kind, m, b);
    RunCreatesExactly(db, ProposerOf(kind, m, b), b.id, m.parts, runDate);
  }

  /** What one of the drafts says: a branch run plans by the branch's own sales, a center run by those below it, too. */
  ghost predicate SaysFor(kind: RunKind, m: Data, b: Branch, part: Part, d: Draft) {
    match kind
    case BranchRun => SoldInWindow(m, part, b.id) && DraftSays(m, b, part, VelocityOf(m, part, b.id).velocity, d)
    case CenterRun => d.velocity > 0.0 && DraftSays(m, b, part, CenterVelocity(m, part, b.id), d)
  }

  lemma {:induction false} DueDraftsSay(rows: map<RecId, Row>, kind: RunKind, m: Data, b: Branch, parts: seq<Part>,
                                        runDate: Date, d: Draft)
    requires d in DueDrafts(rows, ProposerOf(kind, m, b), b.id, parts, runDate)
    ensures exists part :: part in parts && SaysFor(kind, m, b, part, d)
  {
    var k := |parts| - 1;
    var before := DueDrafts(rows, ProposerOf(kind, m, b), b.id, parts[..k], runDate);
    if d in before {
      DueDraftsSay(rows, kind, m, b, parts[..k], runDate, d);
      var part :| part in parts[..k] && SaysFor(kind, m, b, part, d);
      assert part in parts;
    } else {
      assert ProposerOf(kind, m, b)(parts[k]) == Some(d);
      ProposalsAreExact(m, b, parts[k]);
      ProposalsWithAreExact(m, b, parts[k], CenterVelocity(m, parts[k], b.id));
      assert parts[k] in parts;
    }
  }

  lemma DraftOfCreated(db: Db, g: Generation, drafts: seq<Draft>, runDate: Date, id: RecId)
    requires AddsDrafts(db, g, drafts, runDate) && id in g.created
    ensures id in g.db.rows && g.db.rows[id].state == Pending && g.db.rows[id].runDate == runDate
            && g.db.rows[id].draft in drafts
  {
    var i :| 0 <= i < |g.created| && g.created[i] == id;
    assert g.db.rows[db.nextId + i] == Row(drafts[i], Pending, runDate, None, None, "");
  }

  /** Every row that a finished run creates orders the gap of its plan and draws on the branches that can give. */
  lemma CreatedRowsSay(db: Db, kind: RunKind, m: Data, b: Branch, runDate: Date, id: RecId)
    requires Numbered(db) && DistinctParts(m.parts) && Generate(db, kind, m, b, runDate).error == None
    requires id in Generate(db, kind, m, b, runDate).created
    ensures var rows := Generate(db, kind, m, b, runDate).db.rows;
            id in rows && rows[id].state == Pending && rows[id].runDate == runDate
            && exists part :: part in m.parts && SaysFor(kind, m, b, part, rows[id].draft)
  {
    var g := Generate(db, kind, m, b, runDate);
    var drafts := DueDrafts(db.rows, ProposerOf(kind, m, b), b.id, m.parts, runDate);
    GenerationCreatesExactly(db, kind, m, b, runDate);
    DraftOfCreated(db, g, drafts, runDate, id);
    DueDraftsSay(db.rows, kind, m, b, m.parts, runDate, g.db.rows[id].draft);
  }

  lemma {:induction false} DueDraftsHold(rows: map<RecId, Row>, propose: Proposer, b: BranchId, parts: seq<Part>,
                                         runDate: Date, part: Part)
    requires part in parts && Due(rows, propose, b, part, runDate)
    ensures propose(part).value in DueDrafts(rows, propose, b, parts, runDate)
  {
    var k := |parts| - 1;
    if part != parts[k] {
      DueDraftsHold(rows, propose, b, parts[..k], runDate, part);
    }
  }

  // ----- the tenant-wide run

  /** One of the created rows is a new pending row with the draft. */
  ghost predicate HasCreated(g: Generation, d: Draft, runDate: Date) {
    exists id :: id in g.created && id in g.db.rows && g.db.rows[id] == Row(d, Pending, runDate, None, None, "")
  }

  lemma AddedDraftsAreCreated(db: Db, g: Generation, drafts: seq<Draft>, runDate: Date, d: Draft)
    requires AddsDrafts(db, g, drafts, runDate) && d in drafts
    ensures HasCreated(g, d, runDate)
  {
    var i :| 0 <= i < |drafts| && drafts[i] == d;
    assert g.created[i] == db.nextId + i;
    assert g.db.rows[db.nextId + i] == Row(drafts[i], Pending, runDate, None, None, "");
  }

  lemma FinishedBranchRunCreates(db: Db, m: Data, b: Branch, part: Part, runDate: Date)
    requires Numbered(db) && DistinctParts(m.parts) && Generate(db, BranchRun, m, b, runDate).error == None
    requires part in m.parts && Due(db.rows, ProposerOf(BranchRun, m, b), b.id, part, runDate)
    ensures HasCreated(Generate(db, BranchRun, m, b, runDate), Propose(m, b, part).value, runDate)
  {
    var propose := ProposerOf(BranchRun, m, b);
    GenerationCreatesExactly(db, BranchRun, m, b, runDate);
    DueDraftsHold(db.rows, propose, b.id, m.parts, runDate, part);
    AddedDraftsAreCreated(db, Generate(db, BranchRun, m, b, runDate),
                          DueDrafts(db.rows, propose, b.id, m.parts, runDate),
                          runDate, propose(part).value);
  }

  lemma HasCreatedStays(before: Generation, more: Generation, d: Draft, runDate: Date)
    requires HasCreated(before, d, runDate) && OnlyAdds(before.db, more.db)
    ensures HasCreated(Generation(more.db, before.created + more.created, more.error), d, runDate)
  {
    var id :| id in before.created && id in before.db.rows
        && before.db.rows[id] == Row(d, Pending, runDate, None, None, "");
    assert id in before.created + more.created;
  }

  lemma HasCreatedNow(before: Generation, more: Generation, d: Draft, runDate: Date)
    requires HasCreated(more, d, runDate)
    ensures HasCreated(Generation(more.db, before.created + more.created, more.error), d, runDate)
  {
    var id :| id in more.created && id in more.db.rows && more.db.rows[id] == Row(d, Pending, runDate, None, None, "");
    assert id in before.created + more.created;
  }

  lemma LastBranchCreates(db: Db, m: Data, branches: seq<Branch>, runDate: Date, part: Part)
    requires Numbered(db) && DistinctParts(m.parts) && DistinctIds(branches) && branches != []
    requires GenerateTenant(db, m, branches, runDate).error == None
    requires var b := branches[|branches| - 1];
             b.isActive && part in m.parts && Due(db.rows, ProposerOf(BranchRun, m, b), b.id, part, runDate)
    ensures HasCreated(GenerateTenant(db, m, branches, runDate), Propose(m, branches[|branches| - 1], part).value,
                       runDate)
  {
    var k := |branches| - 1;
    var before, b := GenerateTenant(db, m, branches[..k], runDate), branches[k];
    TenantGenerates(db, m, branches[..k], runDate);
    TenantLeavesOthers(db, m, branches[..k], runDate, b.id, part.id);
    DueIffMissing(db.rows, ProposerOf(BranchRun, m, b), b.id, part, runDate);
    DueIffMissing(before.db.rows, ProposerOf(BranchRun, m, b), b.id, part, runDate);
    FinishedBranchRunCreates(before.db, m, b, part, runDate);
    HasCreatedNow(before, Generate(before.db, BranchRun, m, b, runDate), Propose(m, b, part).value, runDate);
  }

  lemma LastBranchKeeps(db: Db, m: Data, branches: seq<Branch>, runDate: Date, d: Draft)
    requires Numbered(db) && branches != [] && GenerateTenant(db, m, branches, runDate).error == None
    requires HasCreated(GenerateTenant(db, m, branches[..|branches| - 1], runDate), d, runDate)
    ensures HasCreated(GenerateTenant(db, m, branches, runDate), d, runDate)
  {
    var k := |branches| - 1;
    var before, b := GenerateTenant(db, m, branches[..k], runDate), branches[k];
    if b.isActive {
      TenantGenerates(db, m, branches[..k], runDate);
      RunGenerates(before.db, BranchRun, m, b, runDate);
      HasCreatedStays(before, Generate(before.db, BranchRun, m, b, runDate), d, runDate);
    }
  }

  /** A tenant-wide run that finishes creates a row for every part that was due at an active branch before it. */
  lemma {:induction false} TenantRunCreates(db: Db, m: Data, branches: seq<Branch>, runDate: Date, b: Branch,
                                            part: Part)
    requires Numbered(db) && DistinctParts(m.parts) && DistinctIds(branches)
    requires GenerateTenant(db, m, branches, runDate).error == None
    requires b in branches && b.isActive && part in m.parts
            && Due(db.rows, ProposerOf(BranchRun, m, b), b.id, part, runDate)
    ensures HasCreated(GenerateTenant(db, m, branches, runDate), Propose(m, b, part).value, runDate)
  {
    var k := |branches| - 1;
    if b == branches[k] {
      LastBranchCreates(db, m, branches, runDate, part);
    } else {
      TenantRunCreates(db, m, branches[..k], runDate, b, part);
      LastBranchKeeps(db, m, branches, runDate, Propose(m, b, part).value);
    }
  }

  // ----- recalculation

  /** The velocity a branch is planned with when it is looked at again: a center by the aggregate. */
  ghost predicate PlannedBy(m: Data, b: Branch, part: Part, velocity: real) {
    velocity == if b.isCenter then CenterVelocity(m, part, b.id) else VelocityOf(m, part, b.id).velocity
  }

  /** The copy with a draft that says what its branch now needs of its part. */
  ghost predicate RefreshedRow(m: Data, b: Branch, part: Part, copy: Copy, row: Row) {
    && row.state == copy.row.state && row.runDate == copy.row.runDate && row.decidedBy == copy.row.decidedBy
    && row.decidedAt == copy.row.decidedAt && row.notes == copy.row.notes
    && exists velocity :: PlannedBy(m, b, part, velocity) && DraftSays(m, b, part, velocity, row.draft)
  }

  ghost predicate StillNeeded(m: Data, b: Branch, part: Part) {
    exists velocity :: PlannedBy(m, b, part, velocity) && velocity > 0.0 && InNeed(m, b, part, velocity)
  }

  /** A recalculation that goes through deletes a row that is no longer needed, and refreshes any other. */
  lemma RecalculationIsExact(db: Db, m: Data, copy: Copy, b: Branch, part: Part)
    requires Recalculate(db, m, copy).Ok?
    requires BranchOf(m.branches, copy.row.draft.branch) == Some(b) && PartOf(m, copy.row.draft.part) == Some(part)
    ensures var next := Recalculate(db, m, copy).value;
            && (copy.id in next.rows <==> StillNeeded(m, b, part))
            && (copy.id in next.rows ==> RefreshedRow(m, b, part, copy, next.rows[copy.id]))
            && (forall id :: id != copy.id ==> (id in next.rows <==> id in db.rows))
            && (forall id :: id in db.rows && id != copy.id ==> next.rows[id] == db.rows[id])
  {
    var next, velocity := Recalculate(db, m, copy).value, CurrentVelocity(m, b, part);
    assert PlannedBy(m, b, part, velocity);
    ProposalsWithAreExact(m, b, part, velocity);
    RecalculationShape(db, m, copy);
    assert next.rows.Keys - {copy.id} == db.rows.Keys - {copy.id};
    forall id | id != copy.id
      ensures id in next.rows <==> id in db.rows
    {
      assert id in next.rows.Keys - {copy.id} <==> id in db.rows.Keys - {copy.id};
    }
  }

  // ----- the first job of a day

  /**
   A job without a record generates: if the run finishes, it creates exactly what was due, answers with
   the number of rows created, and records that number.
   */
  lemma FirstJobGenerates(db: Db, runs: Scheduling.Runs, m: Data, branch: BranchId, runDate: Date)
    requires Numbered(db) && DistinctParts(m.parts) && (branch, runDate) !in runs && BranchOf(m.branches, branch).Some?
    requires var b := BranchOf(m.branches, branch).value;
             NoneBlocked(db.rows, ProposerOf(BranchRun, m, b), b.id, m.parts, runDate)
    ensures var b := BranchOf(m.branches, branch).value;
            var drafts := DueDrafts(db.rows, ProposerOf(BranchRun, m, b), branch, m.parts, runDate);
            var job := Scheduling.ReplenishmentRun(db, runs, m, branch, runDate);
            && job.outcome == Ok(|drafts|) && job.runs == runs[(branch, runDate) := |drafts|]
            && exists g :: AddsDrafts(db, g, drafts, runDate) && g.db == job.db
  {
    var b := BranchOf(m.branches, branch).value;
    GenerationFinishesIff(db, BranchRun, m, b, runDate);
    GenerationCreatesExactly(db, BranchRun, m, b, runDate);
  }
}
