/**
 When drawing on the parent center first costs a source, and how many
 (apps/recommendations/source_resolution.py).
 */
module FewestSources {
  import opened Prelude
  import opened Ids
  import opened StableSort
  import opened SourceResolution

  // ----- the least number of branches that cover an amount

  /** How many of the first candidates it takes to cover the target. */
  function LeastCover(target: real, candidates: seq<Candidate>): nat
    decreases |candidates|
  {
    if candidates == [] || target <= 0.0 then 0 else 1 + LeastCover(target - candidates[0].excess, candidates[1..])
  }

  lemma {:induction false} LeastCoverIsLeast(target: real, candidates: seq<Candidate>)
    requires AllPositive(candidates) && target <= TotalExcess(candidates)
    ensures var k := LeastCover(target, candidates);
            && k <= |candidates| && TotalExcess(candidates[..k]) >= target
            && forall n :: 0 <= n < k ==> TotalExcess(candidates[..n]) < target
    decreases |candidates|
  {
    if candidates != [] && target > 0.0 {
      var rest := candidates[1..];
      LeastCoverIsLeast(target - candidates[0].excess, rest);
      var k := LeastCover(target, candidates);
      forall n | 1 <= n <= |candidates|
        ensures TotalExcess(candidates[..n]) == candidates[0].excess + TotalExcess(rest[..n - 1])
      {
        assert candidates[..n][1..] == rest[..n - 1];
      }
      assert candidates[..0] == [];
    }
  }

  /** What a plan is to deliver. */
  function Target(needed: real, candidates: seq<Candidate>): real {
    Min(needed, TotalExcess(candidates))
  }

  /** The first n candidates cover the target exactly when the plan draws on no more than n. */
  lemma PrefixCoversIff(needed: real, candidates: seq<Candidate>, n: nat)
    requires needed > 0.0 && AllPositive(candidates) && n <= |candidates|
    ensures TotalExcess(candidates[..n]) >= Target(needed, candidates) <==> n >= |Greedy(needed, candidates)|
  {
    var g := Greedy(needed, candidates);
    GreedyDelivers(needed, candidates);
    GreedyShape(needed, candidates);
    if n < |g| {
      LastSourceIsNeeded(needed, candidates);
      PrefixGrows(candidates, n, |g| - 1);
    } else {
      PlanWithinItsBranches(g, candidates);
      PrefixGrows(candidates, |g|, n);
    }
  }

  lemma {:induction false} PlanWithinItsBranches(g: seq<Allocation>, candidates: seq<Candidate>)
    requires |g| <= |candidates| && forall i :: 0 <= i < |g| ==> g[i].quantity <= candidates[i].excess
    ensures Total(g) <= TotalExcess(candidates[..|g|])
    decreases |g|
  {
    if g != [] {
      PlanWithinItsBranches(g[1..], candidates[1..]);
      assert candidates[..|g|][1..] == candidates[1..][..|g| - 1];
    }
  }

  lemma LeastCoverIsThePlan(needed: real, candidates: seq<Candidate>)
    requires needed > 0.0 && AllPositive(candidates)
    ensures LeastCover(Target(needed, candidates), candidates) == |Greedy(needed, candidates)|
  {
    var k, n := LeastCover(Target(needed, candidates), candidates), |Greedy(needed, candidates)|;
    LeastCoverIsLeast(Target(needed, candidates), candidates);
    GreedyShape(needed, candidates);
    PrefixCoversIff(needed, candidates, k);
    PrefixCoversIff(needed, candidates, n);
  }

  // ----- a plan as a way to share out

  function SharesOf(g: seq<Allocation>): Shares {
    if g == [] then map[] else SharesOf(g[1..])[g[0].branch := g[0].quantity]
  }

  lemma {:induction false} SharesOfGives(g: seq<Allocation>, b: BranchId)
    requires forall i, j :: 0 <= i < j < |g| ==> g[i].branch != g[j].branch
    ensures forall i :: 0 <= i < |g| && g[i].branch == b ==> Given(SharesOf(g), b) == g[i].quantity
    ensures (forall i :: 0 <= i < |g| ==> g[i].branch != b) ==> Given(SharesOf(g), b) == 0.0
  {
    if g != [] {
      SharesOfGives(g[1..], b);
      assert forall i :: 1 <= i < |g| ==> g[i] == g[1..][i - 1];
    }
  }

  /** The candidates give what the plan says, in its order, and nothing after it. */
  ghost predicate GivesPlan(shares: Shares, g: seq<Allocation>, candidates: seq<Candidate>) {
    forall i :: 0 <= i < |candidates| ==>
      Given(shares, candidates[i].branch) == if i < |g| then g[i].quantity else 0.0
  }

  lemma {:induction false} PlanWeighs(shares: Shares, g: seq<Allocation>, candidates: seq<Candidate>)
    requires |g| <= |candidates| && GivesPlan(shares, g, candidates)
    requires forall i :: 0 <= i < |g| ==> g[i].quantity > 0.0
    ensures Delivered(shares, candidates) == Total(g) && Sources(shares, candidates) == |g| as real
    decreases |candidates|
  {
    if candidates != [] {
      var left := if g == [] then [] else g[1..];
      forall i | 0 <= i < |candidates| - 1
        ensures Given(shares, candidates[1..][i].branch) == if i < |left| then left[i].quantity else 0.0
      {
        assert candidates[1..][i] == candidates[i + 1];
      }
      PlanWeighs(shares, left, candidates[1..]);
      assert Given(shares, candidates[0].branch) == if g == [] then 0.0 else g[0].quantity;
    }
  }

  lemma GreedyIsFeasible(needed: real, candidates: seq<Candidate>)
    requires AllPositive(candidates) && DistinctBranches(candidates)
    ensures var g := Greedy(needed, candidates);
            && Feasible(SharesOf(g), candidates) && Delivered(SharesOf(g), candidates) == Total(g)
            && Sources(SharesOf(g), candidates) == |g| as real
  {
    var g := Greedy(needed, candidates);
    GreedyShape(needed, candidates);
    forall i | 0 <= i < |candidates|
      ensures Given(SharesOf(g), candidates[i].branch) == if i < |g| then g[i].quantity else 0.0
    {
      SharesOfGives(g, candidates[i].branch);
    }
    PlanWeighs(SharesOf(g), g, candidates);
  }

  // ----- the plan against all plans

  /** No feasible way to deliver as much draws on fewer branches. */
  ghost predicate UsesFewest(plan: seq<Allocation>, candidates: seq<Candidate>) {
    forall shares: Shares :: Feasible(shares, candidates) && Delivered(shares, candidates) >= Total(plan) ==>
      |plan| as real <= Sources(shares, candidates)
  }

  /**
   With k the least number of largest candidates that cover the target: the center together with its
   k - 1 largest companions, or the k largest when the center is no candidate, covers the target too.
   */
  predicate CenterFits(needed: real, parent: Option<BranchId>, candidates: seq<Candidate>) {
    var target := Target(needed, candidates);
    var k := LeastCover(target, SortByPriority(None, candidates));
    k <= |candidates| && TotalExcess(Take(SortByPriority(parent, candidates), k)) >= target
  }

  function Take(candidates: seq<Candidate>, n: nat): seq<Candidate> {
    if n <= |candidates| then candidates[..n] else candidates
  }

  lemma ReorderingKeepsSums(parent: Option<BranchId>, candidates: seq<Candidate>, shares: Shares)
    requires AllPositive(candidates) && DistinctBranches(candidates)
    ensures var sorted := SortByPriority(parent, candidates);
            && AllPositive(sorted) && DistinctBranches(sorted) && |sorted| == |candidates|
            && TotalExcess(sorted) == TotalExcess(candidates)
            && (Feasible(shares, sorted) <==> Feasible(shares, candidates))
            && Delivered(shares, sorted) == Delivered(shares, candidates)
            && Sources(shares, sorted) == Sources(shares, candidates)
  {
    var sorted := SortByPriority(parent, candidates);
    SortedIsPermutation(parent, candidates);
    PositiveInAnyOrder(candidates, sorted);
    DistinctSurvivesReordering(candidates, sorted);
    WeighIgnoresOrder(Excess(), candidates, sorted);
    WeighIgnoresOrder(GivenBy(shares), candidates, sorted);
    WeighIgnoresOrder(UsedBy(shares), candidates, sorted);
  }

  lemma BySizeDescends(candidates: seq<Candidate>)
    requires AllPositive(candidates) && DistinctBranches(candidates)
    ensures Descending(SortByPriority(None, candidates))
  {
    var best := SortByPriority(None, candidates);
    SortedIsPermutation(None, candidates);
    ReorderingKeepsSums(None, candidates, map[]);
    PriorityShape(None, best);
    assert best[0..] == best;
  }

  /** The candidates by size give a plan that no other undercuts, and that some way of sharing attains. */
  lemma BySizeUsesFewest(needed: real, candidates: seq<Candidate>, shares: Shares)
    requires needed > 0.0 && AllPositive(candidates) && DistinctBranches(candidates)
    requires Feasible(shares, candidates) && Delivered(shares, candidates) >= Target(needed, candidates)
    ensures |Greedy(needed, SortByPriority(None, candidates))| as real <= Sources(shares, candidates)
  {
    var best := SortByPriority(None, candidates);
    ReorderingKeepsSums(None, candidates, shares);
    BySizeDescends(candidates);
    GreedyDelivers(needed, best);
    GreedyUsesFewest(needed, best, shares);
  }

  lemma PlanDeliversTarget(needed: real, parent: Option<BranchId>, candidates: seq<Candidate>)
    requires needed > 0.0 && AllPositive(candidates) && DistinctBranches(candidates)
    ensures Total(Greedy(needed, SortByPriority(parent, candidates))) == Target(needed, candidates)
  {
    ReorderingKeepsSums(parent, candidates, map[]);
    GreedyDelivers(needed, SortByPriority(parent, candidates));
    GreedyDelivers(needed, candidates);
  }

  lemma CenterFitsIffNoLonger(needed: real, parent: Option<BranchId>, candidates: seq<Candidate>)
    requires needed > 0.0 && AllPositive(candidates) && DistinctBranches(candidates)
    ensures CenterFits(needed, parent, candidates)
            <==> |Greedy(needed, SortByPriority(None, candidates))|
                 >= |Greedy(needed, SortByPriority(parent, candidates))|
  {
    var best, sorted := SortByPriority(None, candidates), SortByPriority(parent, candidates);
    ReorderingKeepsSums(None, candidates, map[]);
    ReorderingKeepsSums(parent, candidates, map[]);
    LeastCoverIsThePlan(needed, best);
    GreedyShape(needed, best);
    PrefixCoversIff(needed, sorted, |Greedy(needed, best)|);
  }

  /**
   The plan uses the fewest branches of all feasible plans exactly when the center fits among the
   least number of branches that can cover the target.
   */
  lemma PlanUsesFewestIff(needed: real, parent: Option<BranchId>, candidates: seq<Candidate>)
    requires needed > 0.0 && AllPositive(candidates) && DistinctBranches(candidates)
    ensures UsesFewest(Greedy(needed, SortByPriority(parent, candidates)), candidates)
            <==> CenterFits(needed, parent, candidates)
  {
    var best := Greedy(needed, SortByPriority(None, candidates));
    var plan := Greedy(needed, SortByPriority(parent, candidates));
    CenterFitsIffNoLonger(needed, parent, candidates);
    PlanDeliversTarget(needed, parent, candidates);
    PlanDeliversTarget(needed, None, candidates);
    ReorderingKeepsSums(None, candidates, SharesOf(best));
    GreedyIsFeasible(needed, SortByPriority(None, candidates));
    assert UsesFewest(plan, candidates) ==> |plan| as real <= Sources(SharesOf(best), candidates);
    if |plan| <= |best| {
      forall shares: Shares | Feasible(shares, candidates) && Delivered(shares, candidates) >= Total(plan)
        ensures |plan| as real <= Sources(shares, candidates)
      {
        BySizeUsesFewest(needed, candidates, shares);
      }
    }
  }

  // ----- the price of the center

  /** Without the first candidate's share, the others still deliver what the plan takes from them. */
  lemma RestDelivers(needed: real, sorted: seq<Candidate>, shares: Shares)
    requires sorted != [] && 0.0 < sorted[0].excess < needed && Feasible(shares, sorted)
    requires Delivered(shares, sorted) >= Total(Greedy(needed, sorted))
    ensures var rest := sorted[1..];
            && |Greedy(needed, sorted)| == 1 + |Greedy(needed - sorted[0].excess, rest)|
            && Delivered(shares, rest) >= Total(Greedy(needed - sorted[0].excess, rest))
            && Sources(shares, sorted) >= Sources(shares, rest)
  {
    var rest, take := sorted[1..], sorted[0].excess;
    assert Greedy(needed, sorted) == [Allocation(sorted[0].branch, take)] + Greedy(needed - take, rest);
    assert Greedy(needed, sorted)[1..] == Greedy(needed - take, rest);
    assert sorted[0] in sorted;
  }

  lemma CenterCostsAtMostOneSorted(needed: real, parent: Option<BranchId>, sorted: seq<Candidate>, shares: Shares)
    requires needed > 0.0 && AllPositive(sorted) && Sorted(ByPriority(parent), sorted) && DistinctBranches(sorted)
    requires Feasible(shares, sorted) && Delivered(shares, sorted) >= Total(Greedy(needed, sorted))
    ensures |Greedy(needed, sorted)| as real <= Sources(shares, sorted) + 1.0
  {
    PriorityShape(parent, sorted);
    if Head(parent, sorted) == 0 {
      assert sorted[0..] == sorted;
      GreedyUsesFewest(needed, sorted, shares);
    } else {
      var rest := sorted[1..];
      assert forall c :: c in rest ==> c in sorted;
      if sorted[0].excess < needed {
        RestDelivers(needed, sorted, shares);
        GreedyUsesFewest(needed - sorted[0].excess, rest, shares);
      } else {
        var n := TopBranchesDeliverMost(shares, rest);
        assert Greedy(needed, sorted) == [Allocation(sorted[0].branch, needed)] + Greedy(0.0, rest);
      }
    }
  }

  /** Whatever the center's excess, putting it first costs at most one source more than any feasible plan. */
  lemma CenterCostsAtMostOne(needed: real, parent: Option<BranchId>, candidates: seq<Candidate>, shares: Shares)
    requires needed > 0.0 && AllPositive(candidates) && DistinctBranches(candidates)
    requires Feasible(shares, candidates) && Delivered(shares, candidates) >= Target(needed, candidates)
    ensures |Greedy(needed, SortByPriority(parent, candidates))| as real <= Sources(shares, candidates) + 1.0
  {
    SortedIsPermutation(parent, candidates);
    ReorderingKeepsSums(parent, candidates, shares);
    PlanDeliversTarget(needed, parent, candidates);
    CenterCostsAtMostOneSorted(needed, parent, SortByPriority(parent, candidates), shares);
  }
}
