/** resolve_sources, writing its result to the recommendation (apps/recommendations/source_resolution.py). */
module SourceService {
  import opened Prelude
  import opened Ids
  import opened Classification
  import opened Market
  import opened SourceResolution
  import opened Proposals
  import Store
  import Decisions

  /** What approvers are told once the sources are known. */
  datatype Notice = PartialFulfillment | CrossCoordinatorPending

  function Notices(org: Store.Org, dest: BranchId, r: Resolution): seq<Notice> {
    (if r.isPartial then [PartialFulfillment] else [])
    + if Store.CrossesBetween(org, dest, r.sourceBranch) then [CrossCoordinatorPending] else []
  }

  lemma NoticesAreExact(org: Store.Org, dest: BranchId, r: Resolution)
    ensures PartialFulfillment in Notices(org, dest, r) <==> r.isPartial
    ensures CrossCoordinatorPending in Notices(org, dest, r) <==> Decisions.TwoCoordinators(org, r.sourceBranch, dest)
  {
    Decisions.CrossingBetweenIff(org, dest, r.sourceBranch);
  }

  /** The source fields of a recommendation object. */
  class Recommendation {
    const quantity: real
    var internal: bool
    var sourceBranch: Option<BranchId>
    var breakdown: seq<Line>
    var isPartial: bool
    var partialGap: real

    /** As created: the external supplier is the placeholder. */
    constructor (quantity: real)
      ensures this.quantity == quantity && Written() == Resolution(false, None, [], false, 0.0)
    {
      this.quantity := quantity;
      internal, sourceBranch, breakdown, isPartial, partialGap := false, None, [], false, 0.0;
    }

    ghost function Written(): Resolution
      reads this
    {
      Resolution(internal, sourceBranch, breakdown, isPartial, partialGap)
    }

    method ResolveSources(m: Data, org: Store.Org, part: Part, dest: Branch) returns (notices: seq<Notice>)
      modifies this
      ensures notices == Notices(org, dest.id, Written())
      ensures PartialFulfillment in notices <==> isPartial
      ensures CrossCoordinatorPending in notices <==> Decisions.TwoCoordinators(org, sourceBranch, dest.id)
      ensures Written() == Resolve(quantity, Allocations(m, part, dest, quantity))
      ensures quantity > 0.0 ==>
                DrawsOnBranches(m, part, dest.id, quantity, Written()) && DrawsInOrder(m, part, dest, breakdown)
    {
      var candidates := FindCandidates(m, part, dest);
      candidates := SortByPriority(dest.parent, candidates);
      var allocations := GreedyAllocate(quantity, candidates);
      WriteResolution(allocations);
      SourcesAreExact(m, part, dest, quantity);
      NoticesAreExact(org, dest.id, Written());
      notices := [];
      if isPartial {
        notices := notices + [PartialFulfillment];
      }
      if Store.CrossesBetween(org, dest.id, sourceBranch) {
        notices := notices + [CrossCoordinatorPending];
      }
    }

    /** The external supplier fills what the branches leave open, or everything when there is no branch. */
    method WriteResolution(allocations: seq<Allocation>)
      modifies this
      ensures Written() == Resolve(quantity, allocations)
    {
      if allocations == [] {
        internal, sourceBranch, isPartial, partialGap := false, None, false, 0.0;
        breakdown := [FromSupplier(quantity)];
        return;
      }
      var total := SumQuantities(allocations);
      var lines := BranchLinesOf(allocations);
      isPartial, partialGap := total < quantity, Max(0.0, quantity - total);
      if partialGap > 0.0 {
        lines := lines + [FromSupplier(partialGap)];
      } else {
        assert lines + [] == lines;
      }
      internal, sourceBranch, breakdown := true, Some(allocations[0].branch), lines;
    }
  }

  /** What is written, in terms of the branches and their excess. */
  lemma SourcesAreExact(m: Data, part: Part, dest: Branch, needed: real)
    ensures var r := Resolve(needed, Allocations(m, part, dest, needed));
            needed > 0.0 ==> DrawsOnBranches(m, part, dest.id, needed, r) && DrawsInOrder(m, part, dest, r.breakdown)
  {
    if needed > 0.0 {
      ResolutionDrawsOnBranches(m, part, dest, needed);
      ResolutionDrawsInOrder(m, part, dest, needed);
    }
  }

  method BranchLinesOf(allocations: seq<Allocation>) returns (lines: seq<Line>)
    ensures lines == BranchLines(allocations)
  {
    lines := [];
    for i := 0 to |allocations|
      invariant lines == BranchLines(allocations)[..i]
    {
      lines := lines + [FromBranch(allocations[i].branch, allocations[i].quantity)];
    }
  }

  /** What one branch adds to the candidates. */
  ghost function CandidateAt(m: Data, part: Part, dest: BranchId, b: Branch): seq<Candidate> {
    if IsSource(m, part, dest, b) then [Candidate(b.id, ExcessOf(m, part, b.id))] else []
  }

  lemma CandidatesStep(m: Data, part: Part, dest: BranchId, branches: seq<Branch>, i: nat)
    requires i < |branches|
    ensures CandidatesAmong(m, part, dest, branches[i..])
            == CandidateAt(m, part, dest, branches[i]) + CandidatesAmong(m, part, dest, branches[i + 1..])
  {
    assert branches[i..][0] == branches[i] && branches[i..][1..] == branches[i + 1..];
  }

  method ConsiderBranch(m: Data, part: Part, dest: BranchId, b: Branch) returns (found: seq<Candidate>)
    ensures found == CandidateAt(m, part, dest, b)
  {
    found := [];
    if b.isActive && b.id != dest && HoldsStock(m, part, b.id) {
      var excess := ExcessOf(m, part, b.id);
      if excess > 0.0 {
        found := [Candidate(b.id, excess)];
      }
    }
  }

  /** Active branches with stock, other than the destination, whose excess is positive. */
  method FindCandidates(m: Data, part: Part, dest: Branch) returns (candidates: seq<Candidate>)
    ensures candidates == CandidatesAmong(m, part, dest.id, m.branches)
  {
    candidates := [];
    assert m.branches[0..] == m.branches;
    for i := 0 to |m.branches|
      invariant candidates + CandidatesAmong(m, part, dest.id, m.branches[i..])
              == CandidatesAmong(m, part, dest.id, m.branches)
    {
      CandidatesStep(m, part, dest.id, m.branches, i);
      var found := ConsiderBranch(m, part, dest.id, m.branches[i]);
      candidates := candidates + found;
    }
  }

  method SumQuantities(allocations: seq<Allocation>) returns (total: real)
    ensures total == Total(allocations)
  {
    total := 0.0;
    assert allocations[0..] == allocations;
    for i := 0 to |allocations|
      invariant total + Total(allocations[i..]) == Total(allocations)
    {
      assert allocations[i..][1..] == allocations[i + 1..];
      total := total + allocations[i].quantity;
    }
  }
}
