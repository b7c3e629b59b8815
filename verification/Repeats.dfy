/** Running a generation again, and what one tenant-wide run can create. */
module Repeats {
  import opened Prelude
  import opened Ids
  import opened Calendar
  import opened Classification
  import opened Market
  import opened Store
  import opened StoreRuns

  /** Nothing is left to do for the part: it has a row of this run, or nothing is proposed. */
  ghost predicate Settles(rows: map<RecId, Row>, propose: Proposer, b: BranchId, part: Part, runDate: Date) {
    ExistsForRun(rows, b, part.id, runDate) || propose(part) == None
  }

  lemma SettledStays(a: Db, b: Db, propose: Proposer, branch: BranchId, part: Part, runDate: Date)
    requires OnlyAdds(a, b) && Settles(a.rows, propose, branch, part, runDate)
    ensures Settles(b.rows, propose, branch, part, runDate)
  {
    if ExistsForRun(a.rows, branch, part.id, runDate) {
      var o :| o in a.rows && a.rows[o].draft.branch == branch && a.rows[o].draft.part == part.id
               && a.rows[o].runDate == runDate;
      assert o in b.rows && b.rows[o] == a.rows[o];
    }
  }

  lemma StepOnlyAdds(g: Generation, propose: Proposer, b: BranchId, part: Part, runDate: Date)
    requires Numbered(g.db)
    ensures var next := GeneratePart(g, propose, b, part, runDate);
            OnlyAdds(g.db, next.db)
  {
  }

  lemma SettlesStays(g: Generation, propose: Proposer, b: BranchId, part: Part, runDate: Date, other: Part)
    requires Numbered(g.db) && Settles(g.db.rows, propose, b, other, runDate)
    ensures Settles(GeneratePart(g, propose, b, part, runDate).db.rows, propose, b, other, runDate)
  {
    StepOnlyAdds(g, propose, b, part, runDate);
    SettledStays(g.db, GeneratePart(g, propose, b, part, runDate).db, propose, b, other, runDate);
  }

  lemma StepSettles(g: Generation, propose: Proposer, b: BranchId, part: Part, runDate: Date)
    requires Numbered(g.db) && Proper(propose, b) && g.error == None
    ensures var next := GeneratePart(g, propose, b, part, runDate);
            next.error == None ==> Settles(next.db.rows, propose, b, part, runDate)
  {
    if !ExistsForRun(g.db.rows, b, part.id, runDate) && propose(part).Some?
        && Create(g.db, propose(part).value, runDate).Ok? {
      var next := GeneratePart(g, propose, b, part, runDate).db;
      assert next.rows[g.db.nextId].runDate == runDate;
    }
  }

  lemma {:induction false} FinishedRunSettles(db: Db, propose: Proposer, b: BranchId, parts: seq<Part>, runDate: Date)
    requires Numbered(db) && Proper(propose, b) && GenerateOver(db, propose, b, parts, runDate).error == None
    ensures forall part :: part in parts ==>
              Settles(GenerateOver(db, propose, b, parts, runDate).db.rows, propose, b, part, runDate)
  {
    if parts != [] {
      var k := |parts| - 1;
      var g := GenerateOver(db, propose, b, parts[..k], runDate);
      GenerateOverGenerates(db, propose, b, parts[..k], runDate);
      FinishedRunSettles(db, propose, b, parts[..k], runDate);
      StepSettles(g, propose, b, parts[k], runDate);
      forall part | part in parts
        ensures Settles(GenerateOver(db, propose, b, parts, runDate).db.rows, propose, b, part, runDate)
      {
        if part in parts[..k] {
          SettlesStays(g, propose, b, parts[k], runDate, part);
        }
      }
    }
  }

  lemma {:induction false} NothingLeftToGenerate(db: Db, propose: Proposer, b: BranchId, parts: seq<Part>,
                                                 runDate: Date)
    requires forall part :: part in parts ==> Settles(db.rows, propose, b, part, runDate)
    ensures GenerateOver(db, propose, b, parts, runDate) == Generation(db, [], None)
  {
    if parts != [] {
      NothingLeftToGenerate(db, propose, b, parts[..|parts| - 1], runDate);
      assert parts[|parts| - 1] in parts;
    }
  }

  lemma {:induction false} SecondPassOver(db: Db, propose: Proposer, b: BranchId, parts: seq<Part>, runDate: Date)
    requires Numbered(db) && Proper(propose, b)
    ensures var g := GenerateOver(db, propose, b, parts, runDate);
            GenerateOver(g.db, propose, b, parts, runDate) == Generation(g.db, [], g.error)
  {
    if parts != [] {
      var k := |parts| - 1;
      var before, g := GenerateOver(db, propose, b, parts[..k], runDate), GenerateOver(db, propose, b, parts, runDate);
      GenerateOverGenerates(db, propose, b, parts[..k], runDate);
      if before.error.Some? {
        SecondPassOver(db, propose, b, parts[..k], runDate);
      } else {
        FinishedRunSettles(db, propose, b, parts[..k], runDate);
        forall part | part in parts[..k]
          ensures Settles(g.db.rows, propose, b, part, runDate)
        {
          SettlesStays(before, propose, b, parts[k], runDate, part);
        }
        NothingLeftToGenerate(g.db, propose, b, parts[..k], runDate);
        StepSettles(before, propose, b, parts[k], runDate);
      }
    }
  }

  /**
   Generating again for the same run date over unchanged data creates nothing and changes no row: it
   returns an empty list if the first call finished, and raises the same error if it did not.
   */
  lemma SecondGenerationChangesNothing(db: Db, kind: RunKind, m: Data, b: Branch, runDate: Date)
    requires Numbered(db)
    ensures var g := Generate(db, kind, m, b, runDate);
            Generate(g.db, kind, m, b, runDate) == Generation(g.db, [], g.error)
  {
    ProposersAreProper(kind, m, b);
    SecondPassOver(db, ProposerOf(kind, m, b), b.id, m.parts, runDate);
  }

  // ----- the tenant-wide run

  ghost predicate BranchSettled(rows: map<RecId, Row>, m: Data, b: Branch, runDate: Date) {
    forall part :: part in m.parts ==> Settles(rows, ProposerOf(BranchRun, m, b), b.id, part, runDate)
  }

  lemma BranchStaysSettled(a: Db, b: Db, m: Data, branch: Branch, runDate: Date)
    requires OnlyAdds(a, b) && BranchSettled(a.rows, m, branch, runDate)
    ensures BranchSettled(b.rows, m, branch, runDate)
  {
    forall part | part in m.parts
      ensures Settles(b.rows, ProposerOf(BranchRun, m, branch), branch.id, part, runDate)
    {
      SettledStays(a, b, ProposerOf(BranchRun, m, branch), branch.id, part, runDate);
    }
  }

  ghost predicate ActiveSettled(rows: map<RecId, Row>, m: Data, branches: seq<Branch>, runDate: Date) {
    forall b :: b in branches && b.isActive ==> BranchSettled(rows, m, b, runDate)
  }

  lemma AllStaySettled(a: Db, b: Db, m: Data, branches: seq<Branch>, runDate: Date)
    requires OnlyAdds(a, b) && ActiveSettled(a.rows, m, branches, runDate)
    ensures ActiveSettled(b.rows, m, branches, runDate)
  {
    forall x | x in branches && x.isActive
      ensures BranchSettled(b.rows, m, x, runDate)
    {
      BranchStaysSettled(a, b, m, x, runDate);
    }
  }

  /** A branch run that finished, on top of settled branches. */
  lemma FinishedBranchRunSettles(db: Db, m: Data, branches: seq<Branch>, b: Branch, runDate: Date)
    requires Numbered(db) && ActiveSettled(db.rows, m, branches, runDate)
    requires Generate(db, BranchRun, m, b, runDate).error == None
    ensures var after := Generate(db, BranchRun, m, b, runDate).db.rows;
            ActiveSettled(after, m, branches, runDate) && BranchSettled(after, m, b, runDate)
  {
    var propose := ProposerOf(BranchRun, m, b);
    ProposersAreProper(BranchRun, m, b);
    GenerateOverGenerates(db, propose, b.id, m.parts, runDate);
    AllStaySettled(db, GenerateOver(db, propose, b.id, m.parts, runDate).db, m, branches, runDate);
    FinishedRunSettles(db, propose, b.id, m.parts, runDate);
  }

  lemma OneMoreSettled(rows: map<RecId, Row>, m: Data, branches: seq<Branch>, runDate: Date)
    requires branches != [] && ActiveSettled(rows, m, branches[..|branches| - 1], runDate)
    requires var b := branches[|branches| - 1]; b.isActive ==> BranchSettled(rows, m, b, runDate)
    ensures ActiveSettled(rows, m, branches, runDate)
  {
    var k := |branches| - 1;
    assert branches == branches[..k] + [branches[k]];
  }

  lemma {:induction false} FinishedTenantRunSettles(db: Db, m: Data, branches: seq<Branch>, runDate: Date)
    requires Numbered(db) && GenerateTenant(db, m, branches, runDate).error == None
    ensures ActiveSettled(GenerateTenant(db, m, branches, runDate).db.rows, m, branches, runDate)
  {
    if branches != [] {
      var k := |branches| - 1;
      var before, b := GenerateTenant(db, m, branches[..k], runDate), branches[k];
      FinishedTenantRunSettles(db, m, branches[..k], runDate);
      TenantGenerates(db, m, branches[..k], runDate);
      if b.isActive {
        FinishedBranchRunSettles(before.db, m, branches[..k], b, runDate);
      }
      OneMoreSettled(GenerateTenant(db, m, branches, runDate).db.rows, m, branches, runDate);
    }
  }

  lemma {:induction false} NothingLeftForTenant(db: Db, m: Data, branches: seq<Branch>, runDate: Date)
    requires ActiveSettled(db.rows, m, branches, runDate)
    ensures GenerateTenant(db, m, branches, runDate) == Generation(db, [], None)
  {
    if branches != [] {
      var k := |branches| - 1;
      NothingLeftForTenant(db, m, branches[..k], runDate);
      assert branches[k] in branches;
      if branches[k].isActive {
        NothingLeftToGenerate(db, ProposerOf(BranchRun, m, branches[k]), branches[k].id, m.parts, runDate);
      }
    }
  }

  /** The same for a tenant-wide run: repeated, it creates nothing, and a run that stopped stops at the same error. */
  lemma {:induction false} SecondTenantRunChangesNothing(db: Db, m: Data, branches: seq<Branch>, runDate: Date)
    requires Numbered(db)
    ensures var g := GenerateTenant(db, m, branches, runDate);
            GenerateTenant(g.db, m, branches, runDate) == Generation(g.db, [], g.error)
  {
    if branches != [] {
      var k := |branches| - 1;
      var before, b := GenerateTenant(db, m, branches[..k], runDate), branches[k];
      SecondTenantRunChangesNothing(db, m, branches[..k], runDate);
      if !before.error.Some? && b.isActive {
        var after := GenerateTenant(db, m, branches, runDate).db;
        TenantGenerates(db, m, branches[..k], runDate);
        FinishedTenantRunSettles(db, m, branches[..k], runDate);
        ProposersAreProper(BranchRun, m, b);
        GenerateOverGenerates(before.db, ProposerOf(BranchRun, m, b), b.id, m.parts, runDate);
        AllStaySettled(before.db, after, m, branches[..k], runDate);
        NothingLeftForTenant(after, m, branches[..k], runDate);
        SecondGenerationChangesNothing(before.db, BranchRun, m, b, runDate);
      }
    }
  }

  // ----- when a run finishes

  ghost predicate DistinctParts(parts: seq<Part>) {
    forall i, j :: 0 <= i < j < |parts| ==> parts[i].id != parts[j].id
  }

  /** A proposal that cannot be created: no row of this run, but one left pending from another. */
  ghost predicate Blocked(rows: map<RecId, Row>, propose: Proposer, b: BranchId, part: Part, runDate: Date) {
    propose(part).Some? && !ExistsForRun(rows, b, part.id, runDate) && PendingFor(rows, b, part.id)
  }

  ghost predicate NoneBlocked(rows: map<RecId, Row>, propose: Proposer, b: BranchId, parts: seq<Part>, runDate: Date) {
    forall part :: part in parts ==> !Blocked(rows, propose, b, part, runDate)
  }

  /** The rows of a branch and part are the same in both tables, as far as generation asks. */
  ghost predicate SameFor(a: map<RecId, Row>, c: map<RecId, Row>, b: BranchId, part: PartId, runDate: Date) {
    (ExistsForRun(a, b, part, runDate) <==> ExistsForRun(c, b, part, runDate))
    && (PendingFor(a, b, part) <==> PendingFor(c, b, part))
  }

  lemma CreateLeavesOthers(db: Db, d: Draft, runDate: Date, b: BranchId, part: PartId, asked: Date)
    requires Numbered(db) && (d.branch != b || d.part != part) && Create(db, d, runDate).Ok?
    ensures SameFor(db.rows, Create(db, d, runDate).value.rows, b, part, asked)
  {
    var next := Create(db, d, runDate).value.rows;
    assert forall o :: o in db.rows ==> o in next && next[o] == db.rows[o];
  }

  lemma {:induction false} RunLeavesOthers(db: Db, propose: Proposer, b: BranchId, parts: seq<Part>, runDate: Date,
                                           other: BranchId, part: PartId, asked: Date)
    requires Numbered(db) && Proper(propose, b)
    requires b != other || forall p :: p in parts ==> p.id != part
    ensures SameFor(db.rows, GenerateOver(db, propose, b, parts, runDate).db.rows, other, part, asked)
  {
    if parts != [] {
      var k := |parts| - 1;
      var g := GenerateOver(db, propose, b, parts[..k], runDate);
      RunLeavesOthers(db, propose, b, parts[..k], runDate, other, part, asked);
      GenerateOverGenerates(db, propose, b, parts[..k], runDate);
      assert parts[k] in parts;
      if !g.error.Some? && !ExistsForRun(g.db.rows, b, parts[k].id, runDate) && propose(parts[k]).Some?
         && Create(g.db, propose(parts[k]).value, runDate).Ok? {
        CreateLeavesOthers(g.db, propose(parts[k]).value, runDate, other, part, asked);
      }
    }
  }

  lemma StepFailsIff(g: Generation, propose: Proposer, b: BranchId, part: Part, runDate: Date)
    requires g.error == None && Proper(propose, b)
    ensures GeneratePart(g, propose, b, part, runDate).error
            == if Blocked(g.db.rows, propose, b, part, runDate) then Some(PendingExists) else None
  {
  }

  lemma NoneBlockedStep(rows: map<RecId, Row>, propose: Proposer, b: BranchId, parts: seq<Part>, runDate: Date)
    requires parts != []
    ensures NoneBlocked(rows, propose, b, parts, runDate)
            <==> NoneBlocked(rows, propose, b, parts[..|parts| - 1], runDate)
                 && !Blocked(rows, propose, b, parts[|parts| - 1], runDate)
  {
    assert forall p :: p in parts <==> p in parts[..|parts| - 1] || p == parts[|parts| - 1];
  }

  /** Whether a run over distinct parts finishes can be told from the table before it. */
  lemma {:induction false} RunFinishesIff(db: Db, propose: Proposer, b: BranchId, parts: seq<Part>, runDate: Date)
    requires Numbered(db) && Proper(propose, b) && DistinctParts(parts)
    ensures GenerateOver(db, propose, b, parts, runDate).error
            == if NoneBlocked(db.rows, propose, b, parts, runDate) then None else Some(PendingExists)
  {
    if parts != [] {
      var k := |parts| - 1;
      var g, part := GenerateOver(db, propose, b, parts[..k], runDate), parts[k];
      RunFinishesIff(db, propose, b, parts[..k], runDate);
      RunLeavesOthers(db, propose, b, parts[..k], runDate, b, part.id, runDate);
      NoneBlockedStep(db.rows, propose, b, parts, runDate);
      if g.error == None {
        StepFailsIff(g, propose, b, part, runDate);
        assert SameFor(db.rows, g.db.rows, b, part.id, runDate);
      }
    }
  }

  /**
   A branch or center run finishes exactly when no part it would recommend is without a row of this run
   while a row of an earlier one is still pending.
   */
  lemma GenerationFinishesIff(db: Db, kind: RunKind, m: Data, b: Branch, runDate: Date)
    requires Numbered(db) && DistinctParts(m.parts)
    ensures Generate(db, kind, m, b, runDate).error == None
            <==> (kind.CenterRun? ==> b.isCenter)
                 && NoneBlocked(db.rows, ProposerOf(kind, m, b), b.id, m.parts, runDate)
  {
    ProposersAreProper(kind, m, b);
    RunFinishesIff(db, ProposerOf(kind, m, b), b.id, m.parts, runDate);
  }

  lemma {:induction false} TenantLeavesOthers(db: Db, m: Data, branches: seq<Branch>, runDate: Date, other: BranchId,
                                              part: PartId)
    requires Numbered(db) && forall b :: b in branches ==> b.id != other
    ensures SameFor(db.rows, GenerateTenant(db, m, branches, runDate).db.rows, other, part, runDate)
  {
    if branches != [] {
      var k := |branches| - 1;
      var g, b := GenerateTenant(db, m, branches[..k], runDate), branches[k];
      TenantLeavesOthers(db, m, branches[..k], runDate, other, part);
      TenantGenerates(db, m, branches[..k], runDate);
      ProposersAreProper(BranchRun, m, b);
      assert b in branches;
      RunLeavesOthers(g.db, ProposerOf(BranchRun, m, b), b.id, m.parts, runDate, other, part, runDate);
    }
  }

  /** No part is blocked at an active branch of the list. */
  ghost predicate NoBranchBlocked(rows: map<RecId, Row>, m: Data, branches: seq<Branch>, runDate: Date) {
    forall b :: b in branches && b.isActive ==> NoneBlocked(rows, ProposerOf(BranchRun, m, b), b.id, m.parts, runDate)
  }

  lemma NoBranchBlockedStep(rows: map<RecId, Row>, m: Data, branches: seq<Branch>, runDate: Date)
    requires branches != []
    ensures var b := branches[|branches| - 1];
            NoBranchBlocked(rows, m, branches, runDate)
            <==> NoBranchBlocked(rows, m, branches[..|branches| - 1], runDate)
                 && (b.isActive ==> NoneBlocked(rows, ProposerOf(BranchRun, m, b), b.id, m.parts, runDate))
  {
    assert forall b :: b in branches <==> b in branches[..|branches| - 1] || b == branches[|branches| - 1];
  }

  lemma SameBlocked(a: map<RecId, Row>, c: map<RecId, Row>, propose: Proposer, b: BranchId, parts: seq<Part>,
                    runDate: Date)
    requires forall part: PartId :: SameFor(a, c, b, part, runDate)
    ensures NoneBlocked(a, propose, b, parts, runDate) <==> NoneBlocked(c, propose, b, parts, runDate)
  {
    forall part | part in parts
      ensures Blocked(a, propose, b, part, runDate) <==> Blocked(c, propose, b, part, runDate)
    {
      assert SameFor(a, c, b, part.id, runDate);
    }
  }

  /** A tenant-wide run finishes exactly when no part is blocked at an active branch in the table before it. */
  lemma {:induction false} TenantRunFinishesIff(db: Db, m: Data, branches: seq<Branch>, runDate: Date)
    requires Numbered(db) && DistinctParts(m.parts) && DistinctIds(branches)
    ensures GenerateTenant(db, m, branches, runDate).error == None <==> NoBranchBlocked(db.rows, m, branches, runDate)
  {
    if branches != [] {
      var k := |branches| - 1;
      var g, b := GenerateTenant(db, m, branches[..k], runDate), branches[k];
      TenantRunFinishesIff(db, m, branches[..k], runDate);
      NoBranchBlockedStep(db.rows, m, branches, runDate);
      if g.error == None && b.isActive {
        forall part: PartId
          ensures SameFor(db.rows, g.db.rows, b.id, part, runDate)
        {
          TenantLeavesOthers(db, m, branches[..k], runDate, b.id, part);
        }
        SameBlocked(db.rows, g.db.rows, ProposerOf(BranchRun, m, b), b.id, m.parts, runDate);
        TenantGenerates(db, m, branches[..k], runDate);
        GenerationFinishesIff(g.db, BranchRun, m, b, runDate);
      }
    }
  }

  // ----- recalculating over unchanged data

  lemma DraftIds(m: Data, b: Branch, part: Part, velocity: real)
    ensures var d := ProposeWith(m, b, part, velocity);
            d.Some? ==> d.value.branch == b.id && d.value.part == part.id
  {
  }

  /** Recalculating a current row twice is recalculating it once. */
  lemma RecalculationIsIdempotent(db: Db, m: Data, id: RecId)
    requires id in db.rows
    ensures var first := Recalculate(db, m, Copy(id, db.rows[id]));
            first.Ok? && id in first.value.rows ==>
              Recalculate(first.value, m, Copy(id, first.value.rows[id])) == first
  {
    var first := Recalculate(db, m, Copy(id, db.rows[id]));
    if first.Ok? && id in first.value.rows {
      var b, part := BranchOf(m.branches, db.rows[id].draft.branch), PartOf(m, db.rows[id].draft.part);
      var velocity := CurrentVelocity(m, b.value, part.value);
      DraftIds(m, b.value, part.value, velocity);
      assert first.value.rows[id] == db.rows[id].(draft := ProposeWith(m, b.value, part.value, velocity).value);
      assert first.value.rows[id := first.value.rows[id]] == first.value.rows;
    }
  }

  /**
   Over unchanged data recalculation confirms what generation made, when a center was planned by a
   center run and any other branch by a branch run; a tenant-wide run plans centers by their own
   sales alone, and recalculation then replaces that velocity by the aggregate.
   */
  lemma RecalculationConfirmsGeneration(db: Db, kind: RunKind, m: Data, b: Branch, part: Part, id: RecId)
    requires OnePending(db.rows) && id in db.rows && db.rows[id].state.Pending? && kind.CenterRun? == b.isCenter
    requires BranchOf(m.branches, b.id) == Some(b) && PartOf(m, part.id) == Some(part)
    ensures ProposerOf(kind, m, b)(part) == Some(db.rows[id].draft) ==>
            Recalculate(db, m, Copy(id, db.rows[id])) == Ok(db)
  {
    if ProposerOf(kind, m, b)(part) == Some(db.rows[id].draft) {
      GuardsAgree(m, b, part);
      ProposersAreProper(kind, m, b);
      assert ProposeWith(m, b, part, CurrentVelocity(m, b, part)) == Some(db.rows[id].draft);
      assert db.rows[id := db.rows[id]] == db.rows;
    }
  }

  // ----- one tenant-wide run

  /** Every created row is what the branch was proposed for one of the parts. */
  ghost predicate MadeFor(m: Data, b: Branch, parts: seq<Part>, g: Generation) {
    forall id :: id in g.created ==> id in g.db.rows && ProposedTo(m, b, parts, g.db.rows[id].draft)
  }

  ghost predicate ProposedTo(m: Data, b: Branch, parts: seq<Part>, d: Draft) {
    exists part :: part in parts && Propose(m, b, part) == Some(d)
  }

  /** Every created row is what some active branch was proposed. */
  ghost predicate FromProposals(m: Data, branches: seq<Branch>, g: Generation) {
    forall id :: id in g.created ==>
      id in g.db.rows && exists b :: b in branches && b.isActive && ProposedTo(m, b, m.parts, g.db.rows[id].draft)
  }

  lemma {:induction false} CreatedByBranchRun(db: Db, m: Data, b: Branch, parts: seq<Part>, runDate: Date)
    requires Numbered(db)
    ensures var g := GenerateOver(db, ProposerOf(BranchRun, m, b), b.id, parts, runDate);
            OnlyAdds(db, g.db) && MadeFor(m, b, parts, g)
  {
    if parts != [] {
      var k := |parts| - 1;
      var propose := ProposerOf(BranchRun, m, b);
      var before := GenerateOver(db, propose, b.id, parts[..k], runDate);
      var g := GenerateOver(db, propose, b.id, parts, runDate);
      ProposersAreProper(BranchRun, m, b);
      CreatedByBranchRun(db, m, b, parts[..k], runDate);
      GenerateOverGenerates(db, propose, b.id, parts[..k], runDate);
      StepOnlyAdds(before, propose, b.id, parts[k], runDate);
      forall id | id in g.created
        ensures id in g.db.rows && ProposedTo(m, b, parts, g.db.rows[id].draft)
      {
        if id in before.created {
          var part :| part in parts[..k] && Propose(m, b, part) == Some(before.db.rows[id].draft);
          assert part in parts;
        } else {
          assert propose(parts[k]) == Some(g.db.rows[id].draft);
          assert parts[k] in parts;
        }
      }
    }
  }

  /** No sale is dated after today. */
  ghost predicate NoSalesAhead(m: Data) {
    forall s :: s in m.movements && s.kind.Sale? ==> s.date <= m.today
  }

  ghost predicate Live(stage: Stage) {
    stage.New? || stage.Active? || stage.SpecialCampaign?
  }

  lemma ProposedIsLive(m: Data, b: Branch, parts: seq<Part>, d: Draft)
    requires NoSalesAhead(m) && ProposedTo(m, b, parts, d)
    ensures Live(d.stage)
  {
    var part :| part in parts && Propose(m, b, part) == Some(d);
    OnlyLiveParts(m, b, part);
  }

  /** Every row a branch run creates is for a New, Active or Campaign part. */
  lemma BranchRunsAreForLiveParts(db: Db, m: Data, b: Branch, runDate: Date, id: RecId)
    requires Numbered(db) && NoSalesAhead(m) && id in Generate(db, BranchRun, m, b, runDate).created
    ensures var rows := Generate(db, BranchRun, m, b, runDate).db.rows; id in rows && Live(rows[id].draft.stage)
  {
    CreatedByBranchRun(db, m, b, m.parts, runDate);
    ProposedIsLive(m, b, m.parts, Generate(db, BranchRun, m, b, runDate).db.rows[id].draft);
  }

  /** And so is every row of a tenant-wide run. */
  lemma TenantRunsAreForLiveParts(db: Db, m: Data, runDate: Date, id: RecId)
    requires Numbered(db) && NoSalesAhead(m) && id in GenerateTenant(db, m, m.branches, runDate).created
    ensures var rows := GenerateTenant(db, m, m.branches, runDate).db.rows; id in rows && Live(rows[id].draft.stage)
  {
    CreatedByTenantRun(db, m, m.branches, runDate);
    var d := GenerateTenant(db, m, m.branches, runDate).db.rows[id].draft;
    var b :| b in m.branches && ProposedTo(m, b, m.parts, d);
    ProposedIsLive(m, b, m.parts, d);
  }

  lemma WiderBranches(m: Data, branches: seq<Branch>, wider: seq<Branch>, g: Generation)
    requires FromProposals(m, branches, g) && forall b :: b in branches ==> b in wider
    ensures FromProposals(m, wider, g)
  {
    forall id | id in g.created
      ensures exists b :: b in wider && b.isActive && ProposedTo(m, b, m.parts, g.db.rows[id].draft)
    {
      var b :| b in branches && b.isActive && ProposedTo(m, b, m.parts, g.db.rows[id].draft);
      assert b in wider;
    }
  }

  /** One branch run more, on top of what the earlier branches created. */
  lemma AddBranchRun(m: Data, branches: seq<Branch>, b: Branch, before: Generation, more: Generation)
    requires FromProposals(m, branches, before) && b in branches && b.isActive
    requires OnlyAdds(before.db, more.db) && MadeFor(m, b, m.parts, more)
    ensures FromProposals(m, branches, Generation(more.db, before.created + more.created, more.error))
  {
    forall id | id in before.created + more.created
      ensures id in more.db.rows
      ensures exists o :: o in branches && o.isActive && ProposedTo(m, o, m.parts, more.db.rows[id].draft)
    {
      if id in before.created {
        var o :| o in branches && o.isActive && ProposedTo(m, o, m.parts, before.db.rows[id].draft);
        assert ProposedTo(m, o, m.parts, more.db.rows[id].draft);
      } else {
        assert ProposedTo(m, b, m.parts, more.db.rows[id].draft);
      }
    }
  }

  lemma {:induction false} CreatedByTenantRun(db: Db, m: Data, branches: seq<Branch>, runDate: Date)
    requires Numbered(db)
    ensures FromProposals(m, branches, GenerateTenant(db, m, branches, runDate))
  {
    if branches != [] {
      var k := |branches| - 1;
      var before, b := GenerateTenant(db, m, branches[..k], runDate), branches[k];
      CreatedByTenantRun(db, m, branches[..k], runDate);
      WiderBranches(m, branches[..k], branches, before);
      if !before.error.Some? && b.isActive {
        TenantGenerates(db, m, branches[..k], runDate);
        CreatedByBranchRun(before.db, m, b, m.parts, runDate);
        AddBranchRun(m, branches, b, before, Generate(before.db, BranchRun, m, b, runDate));
      }
    }
  }

  /** Two proposals for one part: the branch of the second does not send to the first. */
  lemma ProposalsAreDisjoint(m: Data, dest: Branch, taker: Branch, p: Part, q: Part, d: Draft, e: Draft)
    requires DistinctParts(m.parts) && p in m.parts && q in m.parts && p.id == q.id
    ensures Propose(m, dest, p) == Some(d) && Propose(m, taker, q) == Some(e) ==> !Sends(d, taker.id)
  {
    SamePartObject(m.parts, p, q);
    SourcesAreNotRecipients(m, dest, p, taker);
  }

  lemma ProposalIds(m: Data, b: Branch, part: Part)
    ensures Propose(m, b, part).Some? ==>
            Propose(m, b, part).value.branch == b.id && Propose(m, b, part).value.part == part.id
  {
  }

  lemma CreatedIsProposed(db: Db, m: Data, runDate: Date, id: RecId) returns (dest: Branch, p: Part)
    requires Numbered(db) && id in GenerateTenant(db, m, m.branches, runDate).created
    ensures var rows := GenerateTenant(db, m, m.branches, runDate).db.rows;
            id in rows && p in m.parts && Propose(m, dest, p) == Some(rows[id].draft)
            && rows[id].draft.branch == dest.id && rows[id].draft.part == p.id
  {
    CreatedByTenantRun(db, m, m.branches, runDate);
    var d := GenerateTenant(db, m, m.branches, runDate).db.rows[id].draft;
    dest :| dest in m.branches && dest.isActive && ProposedTo(m, dest, m.parts, d);
    p :| p in m.parts && Propose(m, dest, p) == Some(d);
    ProposalIds(m, dest, p);
  }

  /** In one tenant-wide run no branch is recommended a part that it is to send to another branch. */
  lemma SourcesAndRecipientsAreDisjoint(db: Db, m: Data, runDate: Date, x: RecId, y: RecId)
    requires Numbered(db) && DistinctParts(m.parts)
    requires var g := GenerateTenant(db, m, m.branches, runDate); x in g.created && y in g.created
    ensures var rows := GenerateTenant(db, m, m.branches, runDate).db.rows;
            x in rows && y in rows
            && (rows[x].draft.part == rows[y].draft.part ==> !Sends(rows[x].draft, rows[y].draft.branch))
  {
    var rows := GenerateTenant(db, m, m.branches, runDate).db.rows;
    var dest, p := CreatedIsProposed(db, m, runDate, x);
    var taker, q := CreatedIsProposed(db, m, runDate, y);
    if rows[x].draft.part == rows[y].draft.part {
      ProposalsAreDisjoint(m, dest, taker, p, q, rows[x].draft, rows[y].draft);
    }
  }

  lemma SamePartObject(parts: seq<Part>, a: Part, b: Part)
    requires DistinctParts(parts) && a in parts && b in parts && a.id == b.id
    ensures a == b
  {
    var i :| 0 <= i < |parts| && parts[i] == a;
    var j :| 0 <= j < |parts| && parts[j] == b;
    assert i == j;
  }
}
