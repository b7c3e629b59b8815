/** Splitting a needed quantity over branches with excess (apps/recommendations/source_resolution.py). */
module SourceResolution {
  import opened Prelude
  import opened Ids
  import opened StableSort

  datatype Candidate = Candidate(branch: BranchId, excess: real)

  datatype Allocation = Allocation(branch: BranchId, quantity: real)

  // ----- order of the candidates

  function Rank(parent: Option<BranchId>, c: Candidate): int {
    if parent == Some(c.branch) then 1 else 0
  }

  /** Parent center first, then by excess, both descending. */
  function ByPriority(parent: Option<BranchId>): (Candidate, Candidate) -> bool {
    (a: Candidate, b: Candidate) =>
      Rank(parent, a) > Rank(parent, b) || (Rank(parent, a) == Rank(parent, b) && a.excess >= b.excess)
  }

  function SortByPriority(parent: Option<BranchId>, candidates: seq<Candidate>): seq<Candidate> {
    SortBy(ByPriority(parent), candidates)
  }

  // ----- greedy allocation

  function Greedy(needed: real, candidates: seq<Candidate>): seq<Allocation>
    decreases |candidates|
  {
    if candidates == [] || needed <= 0.0 then []
    else
      var take := Min(candidates[0].excess, needed);
      if take > 0.0 then [Allocation(candidates[0].branch, take)] + Greedy(needed - take, candidates[1..])
      else Greedy(needed, candidates[1..])
  }

  method GreedyAllocate(needed: real, candidates: seq<Candidate>) returns (allocations: seq<Allocation>)
    ensures allocations == Greedy(needed, candidates)
  {
    allocations := [];
    var remaining := needed;
    var i := 0;
    assert candidates[0..] == candidates;
    while i < |candidates|
      invariant 0 <= i <= |candidates|
      invariant allocations + Greedy(remaining, candidates[i..]) == Greedy(needed, candidates)
    {
      if remaining <= 0.0 {
        break;
      }
      assert candidates[i..][1..] == candidates[i + 1..];
      var take := Min(candidates[i].excess, remaining);
      if take > 0.0 {
        allocations := allocations + [Allocation(candidates[i].branch, take)];
        remaining := remaining - take;
      }
      i := i + 1;
    }
  }

  function Total(allocations: seq<Allocation>): real {
    if allocations == [] then 0.0 else allocations[0].quantity + Total(allocations[1..])
  }

  // ----- sums over candidates

  function Weigh(f: Candidate -> real, candidates: seq<Candidate>): real {
    if candidates == [] then 0.0 else f(candidates[0]) + Weigh(f, candidates[1..])
  }

  function Excess(): Candidate -> real {
    (c: Candidate) => c.excess
  }

  function TotalExcess(candidates: seq<Candidate>): real {
    Weigh(Excess(), candidates)
  }

  lemma {:induction false} WeighConcat(f: Candidate -> real, a: seq<Candidate>, b: seq<Candidate>)
    ensures Weigh(f, a + b) == Weigh(f, a) + Weigh(f, b)
  {
    if a == [] {
      assert a + b == b;
    } else {
      WeighConcat(f, a[1..], b);
      assert (a + b)[1..] == a[1..] + b;
    }
  }

  lemma WeighSingle(f: Candidate -> real, c: Candidate)
    ensures Weigh(f, [c]) == f(c)
  {
    assert [c][1..] == [];
  }

  lemma {:induction false} WeighIgnoresOrder(f: Candidate -> real, a: seq<Candidate>, b: seq<Candidate>)
    requires multiset(a) == multiset(b)
    ensures Weigh(f, a) == Weigh(f, b)
  {
    if a == [] {
      assert |multiset(b)| == 0;
    } else {
      assert a[0] in multiset(b);
      var i :| 0 <= i < |b| && b[i] == a[0];
      var left, right := b[..i], b[i + 1..];
      assert a == [a[0]] + a[1..];
      assert b == left + ([b[i]] + right);
      assert multiset(left + right) == multiset(b) - multiset{b[i]};
      WeighIgnoresOrder(f, a[1..], left + right);
      WeighConcat(f, left, right);
      WeighConcat(f, left, [b[i]] + right);
      WeighConcat(f, [b[i]], right);
      WeighSingle(f, b[i]);
    }
  }

  ghost predicate AllPositive(candidates: seq<Candidate>) {
    forall i :: 0 <= i < |candidates| ==> candidates[i].excess > 0.0
  }

  // ----- what the plan delivers, and how

  /** The plan delivers what is needed, or everything there is. */
  lemma {:induction false} GreedyDelivers(needed: real, candidates: seq<Candidate>)
    requires AllPositive(candidates)
    ensures Total(Greedy(needed, candidates)) == Max(0.0, Min(needed, TotalExcess(candidates)))
    ensures TotalExcess(candidates) >= 0.0
    decreases |candidates|
  {
    if candidates != [] {
      var rest := candidates[1..];
      var take := Min(candidates[0].excess, needed);
      GreedyDelivers(needed - take, rest);
      if needed > 0.0 {
        assert ([Allocation(candidates[0].branch, take)] + Greedy(needed - take, rest))[1..]
            == Greedy(needed - take, rest);
      } else {
        assert Greedy(needed, candidates) == [];
      }
    }
  }

  /** It follows the candidates in order, drains every one but the last, and stops only when done. */
  lemma {:induction false} GreedyShape(needed: real, candidates: seq<Candidate>)
    requires AllPositive(candidates)
    ensures var g := Greedy(needed, candidates);
            && |g| <= |candidates|
            && (forall i :: 0 <= i < |g| ==>
                g[i].branch == candidates[i].branch && 0.0 < g[i].quantity <= candidates[i].excess)
            && (forall i :: 0 <= i < |g| - 1 ==> g[i].quantity == candidates[i].excess)
            && (needed > 0.0 && candidates != [] ==> g != [])
            && (|g| < |candidates| ==> Total(g) == Max(0.0, needed))
    decreases |candidates|
  {
    var g := Greedy(needed, candidates);
    if candidates != [] && needed > 0.0 {
      var take := Min(candidates[0].excess, needed);
      var rest := Greedy(needed - take, candidates[1..]);
      GreedyShape(needed - take, candidates[1..]);
      assert g == [Allocation(candidates[0].branch, take)] + rest && g[1..] == rest;
      forall i | 0 < i < |g|
        ensures g[i] == rest[i - 1] && candidates[i] == candidates[1..][i - 1]
      {
      }
    }
  }

  /** Whatever the order of the candidates, the delivered total is the same. */
  lemma DeliveryIgnoresOrder(needed: real, a: seq<Candidate>, b: seq<Candidate>)
    requires AllPositive(a) && multiset(a) == multiset(b)
    ensures Total(Greedy(needed, a)) == Total(Greedy(needed, b))
  {
    PositiveInAnyOrder(a, b);
    WeighIgnoresOrder(Excess(), a, b);
    GreedyDelivers(needed, a);
    GreedyDelivers(needed, b);
  }

  lemma PositiveInAnyOrder(a: seq<Candidate>, b: seq<Candidate>)
    requires AllPositive(a) && multiset(a) == multiset(b)
    ensures AllPositive(b)
  {
    forall i | 0 <= i < |b|
      ensures b[i].excess > 0.0
    {
      assert b[i] in multiset(a);
    }
  }

  // ----- fewest sources

  /** Any other way to share the need out: what each branch gives. */
  type Shares = map<BranchId, real>

  function Given(shares: Shares, b: BranchId): real {
    if b in shares then shares[b] else 0.0
  }

  function GivenBy(shares: Shares): Candidate -> real {
    (c: Candidate) => Given(shares, c.branch)
  }

  /** 1 for a branch that gives anything. */
  function UsedBy(shares: Shares): Candidate -> real {
    (c: Candidate) => if Given(shares, c.branch) > 0.0 then 1.0 else 0.0
  }

  function Delivered(shares: Shares, candidates: seq<Candidate>): real {
    Weigh(GivenBy(shares), candidates)
  }

  function Sources(shares: Shares, candidates: seq<Candidate>): real {
    Weigh(UsedBy(shares), candidates)
  }

  ghost predicate Feasible(shares: Shares, candidates: seq<Candidate>) {
    forall c :: c in candidates ==> 0.0 <= Given(shares, c.branch) <= c.excess
  }

  ghost predicate Descending(candidates: seq<Candidate>) {
    forall i, j :: 0 <= i < j < |candidates| ==> candidates[i].excess >= candidates[j].excess
  }

  lemma {:induction false} PrefixGrows(candidates: seq<Candidate>, i: nat, j: nat)
    requires AllPositive(candidates) && i <= j <= |candidates|
    ensures TotalExcess(candidates[..i]) <= TotalExcess(candidates[..j])
    decreases j
  {
    if i < j {
      PrefixGrows(candidates, i, j - 1);
      PrefixStep(candidates, j);
    }
  }

  lemma PrefixStep(candidates: seq<Candidate>, j: nat)
    requires 0 < j <= |candidates|
    ensures TotalExcess(candidates[..j]) == TotalExcess(candidates[..j - 1]) + candidates[j - 1].excess
  {
    assert candidates[..j] == candidates[..j - 1] + [candidates[j - 1]];
    WeighConcat(Excess(), candidates[..j - 1], [candidates[j - 1]]);
    WeighSingle(Excess(), candidates[j - 1]);
  }

  lemma WeighLast(f: Candidate -> real, s: seq<Candidate>)
    requires s != []
    ensures Weigh(f, s) == Weigh(f, s[..|s| - 1]) + f(s[|s| - 1])
  {
    assert s == s[..|s| - 1] + [s[|s| - 1]];
    WeighConcat(f, s[..|s| - 1], [s[|s| - 1]]);
    WeighSingle(f, s[|s| - 1]);
  }

  /** With n givers nobody delivers more than the n branches of greatest excess. */
  lemma {:induction false} TopBranchesDeliverMost(shares: Shares, candidates: seq<Candidate>) returns (n: nat)
    requires Feasible(shares, candidates) && Descending(candidates)
    ensures n <= |candidates| && Sources(shares, candidates) == n as real
    ensures Delivered(shares, candidates) <= TotalExcess(candidates[..n])
  {
    if candidates == [] {
      n := 0;
    } else {
      var k := |candidates| - 1;
      var rest, last := candidates[..k], candidates[k];
      var m := TopBranchesDeliverMost(shares, rest);
      assert last in candidates;
      WeighLast(GivenBy(shares), candidates);
      WeighLast(UsedBy(shares), candidates);
      assert rest[..m] == candidates[..m];
      if Given(shares, last.branch) > 0.0 {
        n := m + 1;
        PrefixStep(candidates, n);
        assert candidates[m].excess >= last.excess;
      } else {
        n := m;
      }
    }
  }

  /** All branches before the last one would not have been enough. */
  lemma {:induction false} LastSourceIsNeeded(needed: real, candidates: seq<Candidate>)
    requires AllPositive(candidates) && Greedy(needed, candidates) != []
    ensures var g := Greedy(needed, candidates);
            |g| <= |candidates| && TotalExcess(candidates[..|g| - 1]) < Total(g)
    decreases |candidates|
  {
    var g := Greedy(needed, candidates);
    var take := Min(candidates[0].excess, needed);
    var rest := Greedy(needed - take, candidates[1..]);
    assert g == [Allocation(candidates[0].branch, take)] + rest && g[1..] == rest;
    if rest != [] {
      LastSourceIsNeeded(needed - take, candidates[1..]);
      assert candidates[..|g| - 1][1..] == candidates[1..][..|rest| - 1];
    }
  }

  /** Over candidates in descending order, no feasible way to deliver the same uses fewer branches. */
  lemma GreedyUsesFewest(needed: real, candidates: seq<Candidate>, shares: Shares)
    requires AllPositive(candidates) && Descending(candidates) && Feasible(shares, candidates)
    requires Delivered(shares, candidates) >= Total(Greedy(needed, candidates))
    ensures |Greedy(needed, candidates)| as real <= Sources(shares, candidates)
  {
    var g := Greedy(needed, candidates);
    var n := TopBranchesDeliverMost(shares, candidates);
    if g != [] && n < |g| {
      LastSourceIsNeeded(needed, candidates);
      PrefixGrows(candidates, n, |g| - 1);
      assert false;
    }
  }

  // ----- the same over the priority order

  ghost predicate DistinctBranches(candidates: seq<Candidate>) {
    forall i, j :: 0 <= i < j < |candidates| ==> candidates[i].branch != candidates[j].branch
  }

  lemma PriorityIsTotal(parent: Option<BranchId>)
    ensures TotalPreorder(ByPriority(parent))
  {
  }

  lemma SortedIsPermutation(parent: Option<BranchId>, candidates: seq<Candidate>)
    ensures multiset(SortByPriority(parent, candidates)) == multiset(candidates)
    ensures Sorted(ByPriority(parent), SortByPriority(parent, candidates))
    ensures |SortByPriority(parent, candidates)| == |candidates|
    ensures forall c :: c in SortByPriority(parent, candidates) <==> c in candidates
  {
    var sorted := SortByPriority(parent, candidates);
    PriorityIsTotal(parent);
    SortKeepsElements(ByPriority(parent), candidates);
    SortSorts(ByPriority(parent), candidates);
    assert |multiset(sorted)| == |sorted| && |multiset(candidates)| == |candidates|;
    assert forall c :: c in sorted <==> c in multiset(sorted);
    assert forall c :: c in candidates <==> c in multiset(candidates);
  }

  lemma DistinctSurvivesReordering(a: seq<Candidate>, b: seq<Candidate>)
    requires DistinctBranches(a) && multiset(a) == multiset(b)
    ensures DistinctBranches(b)
  {
    forall i, j | 0 <= i < j < |b|
      ensures b[i].branch != b[j].branch
    {
      assert b[i] in multiset(a) && b[j] in multiset(a);
      if b[i] == b[j] {
        assert b == b[..i] + [b[i]] + b[i + 1..j] + [b[j]] + b[j + 1..];
        assert multiset(b)[b[i]] >= 2;
        OccursOnce(a, b[i]);
      }
    }
  }

  lemma {:induction false} OccursOnce(a: seq<Candidate>, c: Candidate)
    requires DistinctBranches(a)
    ensures multiset(a)[c] <= 1
  {
    if a != [] {
      assert a == [a[0]] + a[1..];
      OccursOnce(a[1..], c);
      if c == a[0] {
        assert c !in a[1..];
      }
    }
  }

  /** Position of the first candidate that is not the parent center. */
  function Head(parent: Option<BranchId>, sorted: seq<Candidate>): nat {
    if sorted != [] && parent == Some(sorted[0].branch) then 1 else 0
  }

  /** The center, if it is a candidate, comes first; the others follow by descending excess. */
  lemma PriorityShape(parent: Option<BranchId>, sorted: seq<Candidate>)
    requires Sorted(ByPriority(parent), sorted) && DistinctBranches(sorted)
    ensures Descending(sorted[Head(parent, sorted)..])
    ensures forall i :: Head(parent, sorted) <= i < |sorted| ==> parent != Some(sorted[i].branch)
  {
    var h := Head(parent, sorted);
    forall i | h <= i < |sorted|
      ensures Rank(parent, sorted[i]) == 0
    {
      if i > 0 {
        assert ByPriority(parent)(sorted[0], sorted[i]);
        assert sorted[0].branch != sorted[i].branch;
      }
    }
    forall i, j | h <= i < j < |sorted|
      ensures sorted[i].excess >= sorted[j].excess
    {
      assert ByPriority(parent)(sorted[i], sorted[j]);
    }
  }

  /** The parent center gives as much of the need as it can. */
  ghost predicate CenterFirst(shares: Shares, parent: Option<BranchId>, candidates: seq<Candidate>, needed: real) {
    forall c :: c in candidates && parent == Some(c.branch) ==> Given(shares, c.branch) == Min(c.excess, needed)
  }

  lemma FewestAfterSorting(needed: real, parent: Option<BranchId>, sorted: seq<Candidate>, shares: Shares)
    requires needed > 0.0 && AllPositive(sorted) && Sorted(ByPriority(parent), sorted) && DistinctBranches(sorted)
    requires Feasible(shares, sorted) && CenterFirst(shares, parent, sorted, needed)
    requires Delivered(shares, sorted) >= Total(Greedy(needed, sorted))
    ensures |Greedy(needed, sorted)| as real <= Sources(shares, sorted)
  {
    PriorityShape(parent, sorted);
    if Head(parent, sorted) == 0 {
      assert sorted[0..] == sorted;
      GreedyUsesFewest(needed, sorted, shares);
    } else {
      var rest, take := sorted[1..], Min(sorted[0].excess, needed);
      assert sorted[0] in sorted && Given(shares, sorted[0].branch) == take;
      assert Greedy(needed, sorted) == [Allocation(sorted[0].branch, take)] + Greedy(needed - take, rest);
      assert Greedy(needed, sorted)[1..] == Greedy(needed - take, rest);
      assert forall c :: c in rest ==> c in sorted;
      GreedyUsesFewest(needed - take, rest, shares);
    }
  }

  /**
   Fewest sources: among all ways to deliver at least as much within the excesses, drawing on the
   parent center first if it is a candidate, none uses fewer branches than the greedy plan.
   */
  lemma PlanUsesFewestSources(needed: real, parent: Option<BranchId>, candidates: seq<Candidate>, shares: Shares)
    requires needed > 0.0 && AllPositive(candidates) && DistinctBranches(candidates)
    requires Feasible(shares, candidates) && CenterFirst(shares, parent, candidates, needed)
    requires Delivered(shares, candidates) >= Total(Greedy(needed, SortByPriority(parent, candidates)))
    ensures |Greedy(needed, SortByPriority(parent, candidates))| as real <= Sources(shares, candidates)
  {
    var sorted := SortByPriority(parent, candidates);
    SortedIsPermutation(parent, candidates);
    PositiveInAnyOrder(candidates, sorted);
    DistinctSurvivesReordering(candidates, sorted);
    WeighIgnoresOrder(GivenBy(shares), candidates, sorted);
    WeighIgnoresOrder(UsedBy(shares), candidates, sorted);
    FewestAfterSorting(needed, parent, sorted, shares);
  }

  /** Drawing on the center first can cost a source: a center with 1 and a branch with all that is needed. */
  lemma CenterFirstCanCostASource(center: BranchId, other: BranchId, needed: real)
    requires center != other && needed > 1.0
    ensures var candidates := [Candidate(center, 1.0), Candidate(other, needed)];
            var shares: Shares := map[other := needed];
            && Feasible(shares, candidates) && Delivered(shares, candidates) == needed
               && Sources(shares, candidates) == 1.0
            && |Greedy(needed, SortByPriority(Some(center), candidates))| == 2
  {
    var first, second := Candidate(center, 1.0), Candidate(other, needed);
    var candidates, shares: Shares := [first, second], map[other := needed];
    PriorityIsTotal(Some(center));
    assert Rank(Some(center), first) == 1 && Rank(Some(center), second) == 0;
    assert ByPriority(Some(center))(first, second);
    SortOfSorted(ByPriority(Some(center)), candidates);
    WeighLast(GivenBy(shares), candidates);
    WeighLast(UsedBy(shares), candidates);
    assert candidates[..1] == [first];
    WeighSingle(GivenBy(shares), first);
    WeighSingle(UsedBy(shares), first);
    assert candidates[1..] == [second];
    assert Greedy(needed - 1.0, [second]) == [Allocation(other, needed - 1.0)] + Greedy(0.0, [second][1..]);
  }

  // ----- the primary source

  /** Without the parent center among them, the sources give less and less. */
  lemma AmountsDescend(needed: real, candidates: seq<Candidate>)
    requires AllPositive(candidates) && Descending(candidates)
    ensures var g := Greedy(needed, candidates);
            forall i, j :: 0 <= i < j < |g| ==> g[i].quantity >= g[j].quantity
  {
    GreedyShape(needed, candidates);
  }

  ghost predicate FirstIsLargest(g: seq<Allocation>) {
    forall i :: 0 <= i < |g| ==> g[0].quantity >= g[i].quantity
  }

  /** Caller-side condition: one candidate, or a first one that matches the second or covers half the need. */
  predicate FirstDominates(needed: real, sorted: seq<Candidate>)
    requires sorted != []
  {
    |sorted| == 1 || sorted[0].excess >= sorted[1].excess || 2.0 * sorted[0].excess >= needed
  }

  lemma SecondAmount(needed: real, candidates: seq<Candidate>)
    requires needed > 0.0 && AllPositive(candidates) && |candidates| >= 2
    ensures var g := Greedy(needed, candidates);
            if candidates[0].excess >= needed then |g| == 1
            else |g| >= 2 && g[1].quantity == Min(candidates[1].excess, needed - candidates[0].excess)
  {
    var g, rest := Greedy(needed, candidates), candidates[1..];
    var take := Min(candidates[0].excess, needed);
    assert g == [Allocation(candidates[0].branch, take)] + Greedy(needed - take, rest);
    if candidates[0].excess < needed {
      var second := Min(rest[0].excess, needed - take);
      assert Greedy(needed - take, rest)
          == [Allocation(rest[0].branch, second)] + Greedy(needed - take - second, rest[1..]);
    }
  }

  /** The primary source, first of the plan, is the largest one exactly under that condition. */
  lemma PrimaryIsLargestIff(needed: real, parent: Option<BranchId>, sorted: seq<Candidate>)
    requires needed > 0.0 && sorted != [] && AllPositive(sorted)
    requires Sorted(ByPriority(parent), sorted) && DistinctBranches(sorted)
    ensures FirstIsLargest(Greedy(needed, sorted)) <==> FirstDominates(needed, sorted)
  {
    var g := Greedy(needed, sorted);
    GreedyShape(needed, sorted);
    if |sorted| >= 2 {
      SecondAmount(needed, sorted);
      PriorityShape(parent, sorted);
      var h := Head(parent, sorted);
      forall i | 1 <= i < |g|
        ensures g[i].quantity <= sorted[1].excess
      {
        assert sorted[h..][1 - h] == sorted[1] && sorted[h..][i - h] == sorted[i];
      }
      RestOfNeed(needed, sorted);
    }
  }

  /** No source after the first gives more than the first leaves open. */
  lemma RestOfNeed(needed: real, candidates: seq<Candidate>)
    requires needed > 0.0 && AllPositive(candidates) && candidates != []
    ensures var g := Greedy(needed, candidates);
            forall i :: 1 <= i < |g| ==> g[i].quantity <= needed - g[0].quantity
  {
    var g := Greedy(needed, candidates);
    var take := Min(candidates[0].excess, needed);
    assert g == [Allocation(candidates[0].branch, take)] + Greedy(needed - take, candidates[1..]);
    EachWithinNeed(needed - take, candidates[1..]);
  }

  lemma {:induction false} EachWithinNeed(needed: real, candidates: seq<Candidate>)
    requires AllPositive(candidates)
    ensures forall i :: 0 <= i < |Greedy(needed, candidates)| ==> Greedy(needed, candidates)[i].quantity <= needed
    decreases |candidates|
  {
    if candidates != [] && needed > 0.0 {
      EachWithinNeed(needed - Min(candidates[0].excess, needed), candidates[1..]);
    }
  }

  // ----- the resolution written to the recommendation

  datatype Line = FromBranch(branch: BranchId, quantity: real) | FromSupplier(quantity: real)

  datatype Resolution = Resolution(internal: bool, sourceBranch: Option<BranchId>, breakdown: seq<Line>,
                                   isPartial: bool, partialGap: real)

  function BranchLines(allocations: seq<Allocation>): (lines: seq<Line>)
    ensures |lines| == |allocations|
  {
    seq(|allocations|, i requires 0 <= i < |allocations| => FromBranch(allocations[i].branch, allocations[i].quantity))
  }

  function Resolve(needed: real, allocations: seq<Allocation>): Resolution {
    if allocations == [] then Resolution(false, None, [FromSupplier(needed)], false, 0.0)
    else
      var gap := Max(0.0, needed - Total(allocations));
      Resolution(true, Some(allocations[0].branch),
                 BranchLines(allocations) + if gap > 0.0 then [FromSupplier(gap)] else [],
                 Total(allocations) < needed, gap)
  }

  function LineTotal(lines: seq<Line>): real {
    if lines == [] then 0.0 else lines[0].quantity + LineTotal(lines[1..])
  }

  lemma {:induction false} LineTotalOfBranches(allocations: seq<Allocation>, last: seq<Line>)
    ensures LineTotal(BranchLines(allocations) + last) == Total(allocations) + LineTotal(last)
  {
    var lines := BranchLines(allocations);
    if allocations == [] {
      assert lines + last == last;
    } else {
      LineTotalOfBranches(allocations[1..], last);
      assert (lines + last)[1..] == BranchLines(allocations[1..]) + last;
    }
  }

  /** In every case the breakdown adds up to the recommended quantity. */
  lemma BreakdownConservesQuantity(needed: real, candidates: seq<Candidate>)
    requires AllPositive(candidates)
    ensures LineTotal(Resolve(needed, Greedy(needed, candidates)).breakdown) == needed
  {
    var g := Greedy(needed, candidates);
    GreedyDelivers(needed, candidates);
    assert [FromSupplier(needed)][1..] == [];
    if g != [] {
      var gap := Max(0.0, needed - Total(g));
      assert [FromSupplier(gap)][1..] == [];
      LineTotalOfBranches(g, if gap > 0.0 then [FromSupplier(gap)] else []);
    }
  }

  /** What the flags mean, in terms of the candidates alone. */
  lemma ResolutionReportsTheGap(needed: real, candidates: seq<Candidate>)
    requires needed > 0.0 && AllPositive(candidates)
    ensures var r := Resolve(needed, Greedy(needed, candidates));
            && (r.internal <==> candidates != [])
            && r.sourceBranch == (if candidates != [] then Some(candidates[0].branch) else None)
            && (r.isPartial <==> candidates != [] && TotalExcess(candidates) < needed)
            && r.partialGap == if r.isPartial then needed - TotalExcess(candidates) else 0.0
  {
    GreedyDelivers(needed, candidates);
    GreedyShape(needed, candidates);
  }
}
