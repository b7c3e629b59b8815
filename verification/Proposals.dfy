/**
 What is recommended, and what a recommendation carries: the part's sales, its plan, and the branches
 and the supplier it is drawn from (apps/recommendations/services.py, source_resolution.py).
 */
module Proposals {
  import opened Prelude
  import opened Ids
  import opened Calendar
  import opened Sales
  import opened Velocity
  import opened DcVelocity
  import opened Classification
  import opened Planning
  import opened SourceResolution
  import opened Market
  import Overrides
  import Transit

  // ----- sources, in terms of the branches and their excess

  /** An active other branch that holds stock of the part and has excess. */
  ghost predicate CanGive(m: Data, part: Part, dest: BranchId, b: Branch) {
    && b.isActive && b.id != dest
    && Transit.LevelAt(m.stock, (b.id, part.id)).available > 0.0 && ExcessOf(m, part, b.id) > 0.0
  }

  /** Excess of those of the branches that can give. */
  ghost function ExcessToGive(m: Data, part: Part, dest: BranchId, branches: seq<Branch>): real {
    if branches == [] then 0.0
    else
      var b := branches[0];
      (if CanGive(m, part, dest, b) then ExcessOf(m, part, b.id) else 0.0) + ExcessToGive(m, part, dest, branches[1..])
  }

  /** Units drawn from branches. */
  ghost function FromBranches(lines: seq<Line>): real {
    if lines == [] then 0.0 else (if lines[0].FromBranch? then lines[0].quantity else 0.0) + FromBranches(lines[1..])
  }

  /** Units bought from the supplier. */
  ghost function FromSuppliers(lines: seq<Line>): real {
    if lines == [] then 0.0 else (if lines[0].FromSupplier? then lines[0].quantity else 0.0) + FromSuppliers(lines[1..])
  }

  ghost predicate Lesser(x: real, a: real, b: real) {
    (x == a || x == b) && x <= a && x <= b
  }

  /**
   A resolution draws on branches exactly when some branch can give; together they give the lesser of
   the need and all that can be given, each within its own excess, and the supplier fills the rest.
   */
  ghost predicate DrawsOnBranches(m: Data, part: Part, dest: BranchId, needed: real, r: Resolution) {
    && (r.internal <==> exists b :: b in m.branches && CanGive(m, part, dest, b))
    && Lesser(FromBranches(r.breakdown), needed, ExcessToGive(m, part, dest, m.branches))
    && FromBranches(r.breakdown) + FromSuppliers(r.breakdown) == needed
    && (forall l :: l in r.breakdown && l.FromBranch? ==>
          exists b :: b in m.branches && b.id == l.branch && CanGive(m, part, dest, b)
                      && 0.0 < l.quantity <= ExcessOf(m, part, b.id))
    && (r.isPartial <==> r.internal && FromSuppliers(r.breakdown) > 0.0)
    && r.partialGap == (if r.isPartial then FromSuppliers(r.breakdown) else 0.0)
    && (if r.internal
        then r.breakdown != [] && r.breakdown[0].FromBranch? && r.sourceBranch == Some(r.breakdown[0].branch)
        else r.sourceBranch == None)
  }

  /** The parent center stands before every other branch, and of two others the one with more excess. */
  ghost predicate Precedes(m: Data, part: Part, parent: Option<BranchId>, x: BranchId, y: BranchId) {
    x == y || parent == Some(x) || (parent != Some(y) && ExcessOf(m, part, x) >= ExcessOf(m, part, y))
  }

  /**
   Each line is drawn from a branch that precedes all those that can give and are not drawn on before
   it, and a branch gives all it can before the next one is drawn on.
   */
  ghost predicate DrawsInOrder(m: Data, part: Part, dest: Branch, lines: seq<Line>) {
    forall i :: 0 <= i < |lines| && lines[i].FromBranch? ==>
      && (forall b :: b in m.branches && CanGive(m, part, dest.id, b)
                      && (forall j :: 0 <= j < i && lines[j].FromBranch? ==> lines[j].branch != b.id) ==>
            Precedes(m, part, dest.parent, lines[i].branch, b.id))
      && (i + 1 < |lines| && lines[i + 1].FromBranch? ==> lines[i].quantity == ExcessOf(m, part, lines[i].branch))
  }

  lemma CanGiveIsSource(m: Data, part: Part, dest: BranchId, b: Branch)
    ensures CanGive(m, part, dest, b) <==> IsSource(m, part, dest, b)
  {
  }

  lemma {:induction false} CandidatesHoldTheExcess(m: Data, part: Part, dest: BranchId, branches: seq<Branch>)
    ensures TotalExcess(CandidatesAmong(m, part, dest, branches)) == ExcessToGive(m, part, dest, branches)
    ensures AllPositive(CandidatesAmong(m, part, dest, branches))
  {
    if branches != [] {
      CandidatesHoldTheExcess(m, part, dest, branches[1..]);
      CanGiveIsSource(m, part, dest, branches[0]);
      var rest := CandidatesAmong(m, part, dest, branches[1..]);
      if IsSource(m, part, dest, branches[0]) {
        var c := Candidate(branches[0].id, ExcessOf(m, part, branches[0].id));
        assert ([c] + rest)[1..] == rest;
      } else {
        assert [] + rest == rest;
      }
    }
  }

  lemma SortedHoldsTheExcess(m: Data, part: Part, dest: Branch)
    ensures var candidates := CandidatesAmong(m, part, dest.id, m.branches);
            var sorted := SortByPriority(dest.parent, candidates);
            && AllPositive(sorted) && TotalExcess(sorted) == ExcessToGive(m, part, dest.id, m.branches)
            && (sorted != [] <==> exists b :: b in m.branches && CanGive(m, part, dest.id, b))
  {
    var candidates := CandidatesAmong(m, part, dest.id, m.branches);
    var sorted := SortByPriority(dest.parent, candidates);
    CandidatesHoldTheExcess(m, part, dest.id, m.branches);
    SortedIsPermutation(dest.parent, candidates);
    PositiveInAnyOrder(candidates, sorted);
    WeighIgnoresOrder(Excess(), candidates, sorted);
    CandidatesAreTheSources(m, part, dest.id, m.branches);
    if sorted != [] {
      assert sorted[0] in candidates;
      var b :| b in m.branches && IsSource(m, part, dest.id, b)
          && sorted[0] == Candidate(b.id, ExcessOf(m, part, b.id));
      CanGiveIsSource(m, part, dest.id, b);
    }
    if b :| b in m.branches && CanGive(m, part, dest.id, b) {
      CanGiveIsSource(m, part, dest.id, b);
      assert Candidate(b.id, ExcessOf(m, part, b.id)) in candidates;
    }
  }

  lemma {:induction false} LinesAddUp(g: seq<Allocation>, last: seq<Line>)
    requires |last| <= 1 && forall l :: l in last ==> l.FromSupplier?
    ensures FromBranches(BranchLines(g) + last) == Total(g)
    ensures FromSuppliers(BranchLines(g) + last) == if last == [] then 0.0 else last[0].quantity
  {
    var lines := BranchLines(g);
    if g == [] {
      assert lines + last == last;
      assert last != [] ==> last[1..] == [] && last[0] in last;
    } else {
      LinesAddUp(g[1..], last);
      assert (lines + last)[1..] == BranchLines(g[1..]) + last;
    }
  }

  /** The numbers of a resolution, from what its plan delivers. */
  lemma ResolutionAddsUp(needed: real, g: seq<Allocation>)
    requires needed > 0.0 && 0.0 <= Total(g) <= needed && (g == [] ==> Total(g) == 0.0)
    ensures var r := Resolve(needed, g);
            && FromBranches(r.breakdown) == Total(g) && FromSuppliers(r.breakdown) == needed - Total(g)
            && (r.internal <==> g != []) && (r.isPartial <==> g != [] && Total(g) < needed)
            && r.partialGap == (if r.isPartial then needed - Total(g) else 0.0)
            && (g != [] ==> r.breakdown != [] && r.breakdown[0] == FromBranch(g[0].branch, g[0].quantity)
                            && r.sourceBranch == Some(g[0].branch))
            && (g == [] ==> r.sourceBranch == None)
  {
    var gap := needed - Total(g);
    LinesAddUp(g, []);
    LinesAddUp(g, [FromSupplier(gap)]);
    assert BranchLines([]) + [FromSupplier(gap)] == [FromSupplier(gap)];
    assert BranchLines(g) + [] == BranchLines(g);
  }

  lemma LinesAreWithinExcess(m: Data, part: Part, dest: Branch, needed: real, l: Line)
    requires l in Resolve(needed, Allocations(m, part, dest, needed)).breakdown && l.FromBranch?
    ensures exists b :: b in m.branches && b.id == l.branch && CanGive(m, part, dest.id, b)
                        && 0.0 < l.quantity <= ExcessOf(m, part, b.id)
  {
    var g := Allocations(m, part, dest, needed);
    LinesComeFromAllocations(needed, g, l);
    var a :| a in g && l == FromBranch(a.branch, a.quantity);
    AllocationsComeFromSources(m, part, dest, needed);
    var b :| b in m.branches && b.id == a.branch && IsSource(m, part, dest.id, b);
    CanGiveIsSource(m, part, dest.id, b);
  }

  /** The resolution of every need at every destination. */
  lemma ResolutionDrawsOnBranches(m: Data, part: Part, dest: Branch, needed: real)
    requires needed > 0.0
    ensures DrawsOnBranches(m, part, dest.id, needed, Resolve(needed, Allocations(m, part, dest, needed)))
  {
    var sorted := SortByPriority(dest.parent, CandidatesAmong(m, part, dest.id, m.branches));
    var g := Allocations(m, part, dest, needed);
    SortedHoldsTheExcess(m, part, dest);
    GreedyDelivers(needed, sorted);
    GreedyShape(needed, sorted);
    ResolutionAddsUp(needed, g);
    forall l | l in Resolve(needed, g).breakdown && l.FromBranch?
      ensures exists b :: b in m.branches && b.id == l.branch && CanGive(m, part, dest.id, b)
                          && 0.0 < l.quantity <= ExcessOf(m, part, b.id)
    {
      LinesAreWithinExcess(m, part, dest, needed, l);
    }
  }

  /** A candidate of the sorted list precedes every branch that can give and does not stand before it. */
  lemma SortedPrecedes(m: Data, part: Part, dest: Branch, i: nat, b: Branch)
    requires b in m.branches && CanGive(m, part, dest.id, b)
    requires var sorted := SortByPriority(dest.parent, CandidatesAmong(m, part, dest.id, m.branches));
             i < |sorted| && forall j :: 0 <= j < i ==> sorted[j].branch != b.id
    ensures var sorted := SortByPriority(dest.parent, CandidatesAmong(m, part, dest.id, m.branches));
            Precedes(m, part, dest.parent, sorted[i].branch, b.id)
  {
    var candidates := CandidatesAmong(m, part, dest.id, m.branches);
    var sorted := SortByPriority(dest.parent, candidates);
    SortedIsPermutation(dest.parent, candidates);
    CandidatesAreTheSources(m, part, dest.id, m.branches);
    CanGiveIsSource(m, part, dest.id, b);
    var c := Candidate(b.id, ExcessOf(m, part, b.id));
    assert c in candidates && c in sorted;
    var at :| 0 <= at < |sorted| && sorted[at] == c;
    assert sorted[i] in candidates;
    assert i < at ==> ByPriority(dest.parent)(sorted[i], sorted[at]);
  }

  lemma AllocationsFollowTheSort(m: Data, part: Part, dest: Branch, needed: real, i: nat)
    requires i < |Allocations(m, part, dest, needed)|
    ensures var sorted := SortByPriority(dest.parent, CandidatesAmong(m, part, dest.id, m.branches));
            var g := Allocations(m, part, dest, needed);
            && |g| <= |sorted| && (forall j :: 0 <= j < |g| ==> g[j].branch == sorted[j].branch)
            && (i + 1 < |g| ==> g[i].quantity == ExcessOf(m, part, g[i].branch))
  {
    var candidates := CandidatesAmong(m, part, dest.id, m.branches);
    var sorted := SortByPriority(dest.parent, candidates);
    SortedHoldsTheExcess(m, part, dest);
    GreedyShape(needed, sorted);
    SortedIsPermutation(dest.parent, candidates);
    CandidatesAreTheSources(m, part, dest.id, m.branches);
    assert sorted[i] in candidates;
  }

  /** The branch lines of a resolution are its allocations, in order, and come before the supplier's. */
  lemma BranchLinesFirst(needed: real, g: seq<Allocation>, i: nat)
    requires i < |Resolve(needed, g).breakdown|
    ensures var line := Resolve(needed, g).breakdown[i];
            (line.FromBranch? <==> i < |g|) && (i < |g| ==> line == FromBranch(g[i].branch, g[i].quantity))
  {
  }

  lemma ResolutionDrawsInOrder(m: Data, part: Part, dest: Branch, needed: real)
    ensures DrawsInOrder(m, part, dest, Resolve(needed, Allocations(m, part, dest, needed)).breakdown)
  {
    var g := Allocations(m, part, dest, needed);
    var lines := Resolve(needed, g).breakdown;
    forall i | 0 <= i < |lines| && lines[i].FromBranch?
      ensures forall b :: b in m.branches && CanGive(m, part, dest.id, b)
                          && (forall j :: 0 <= j < i && lines[j].FromBranch? ==> lines[j].branch != b.id) ==>
                Precedes(m, part, dest.parent, lines[i].branch, b.id)
      ensures i + 1 < |lines| && lines[i + 1].FromBranch? ==> lines[i].quantity == ExcessOf(m, part, lines[i].branch)
    {
      LineDrawsInOrder(m, part, dest, needed, i);
    }
  }

  lemma LineDrawsInOrder(m: Data, part: Part, dest: Branch, needed: real, i: nat)
    requires var lines := Resolve(needed, Allocations(m, part, dest, needed)).breakdown;
             i < |lines| && lines[i].FromBranch?
    ensures var lines := Resolve(needed, Allocations(m, part, dest, needed)).breakdown;
            && (forall b :: b in m.branches && CanGive(m, part, dest.id, b)
                            && (forall j :: 0 <= j < i && lines[j].FromBranch? ==> lines[j].branch != b.id) ==>
                  Precedes(m, part, dest.parent, lines[i].branch, b.id))
            && (i + 1 < |lines| && lines[i + 1].FromBranch? ==> lines[i].quantity == ExcessOf(m, part, lines[i].branch))
  {
    var g := Allocations(m, part, dest, needed);
    var lines := Resolve(needed, g).breakdown;
    BranchLinesFirst(needed, g, i);
    AllocationsFollowTheSort(m, part, dest, needed, i);
    if i + 1 < |lines| {
      BranchLinesFirst(needed, g, i + 1);
    }
    forall j | 0 <= j < i
      ensures lines[j].FromBranch? && lines[j].branch == g[j].branch
    {
      BranchLinesFirst(needed, g, j);
    }
    forall b | b in m.branches && CanGive(m, part, dest.id, b)
               && forall j :: 0 <= j < i && lines[j].FromBranch? ==> lines[j].branch != b.id
      ensures Precedes(m, part, dest.parent, lines[i].branch, b.id)
    {
      SortedPrecedes(m, part, dest, i, b);
    }
  }

  // ----- the plan behind a recommendation

  /** The velocity a plan is made with: that of the newest override in force, or the calculated one. */
  ghost predicate PlansWith(m: Data, part: Part, b: BranchId, calculated: real, planned: real) {
    var o := Overrides.ActiveOverride(m.overrides, part.id, Some(b), m.today, "");
    ReadAs(if o.Some? then o.value.amount else calculated, planned)
  }

  /** The plan of a part at a branch: its stock as recorded, the tenant's days, and the formulas between them. */
  ghost predicate PlansFor(m: Data, part: Part, b: BranchId, velocity: real, p: Plan) {
    var level := Transit.LevelAt(m.stock, (b, part.id));
    && PlansWith(m, part, b, velocity, p.velocity)
    && ReadAs(level.available, p.available) && ReadAs(level.inTransit, p.inTransit)
    && Balanced(p, Terms(DaysOr(m.periodDays, 30), DaysOr(m.securityDays, 10), part.leadTimeDays))
  }

  lemma PlanIsForTheBranch(m: Data, part: Part, b: BranchId, velocity: real)
    ensures PlansFor(m, part, b, velocity, PlanFor(m, part, b, velocity))
  {
    var level := Transit.LevelAt(m.stock, (b, part.id));
    PlanIsBalanced(EffectiveVelocity(m, part, b, velocity), TermsOf(m, part), level.available, level.inTransit);
  }

  /** Excess is what the branch holds and awaits above its reorder point, by its own velocity; none without a record. */
  lemma ExcessIsAboveReorderPoint(m: Data, part: Part, b: BranchId)
    ensures (b, part.id) !in m.stock ==> ExcessOf(m, part, b) == 0.0
    ensures (b, part.id) in m.stock ==>
              exists p :: PlansFor(m, part, b, VelocityOf(m, part, b).velocity, p) && ExcessOf(m, part, b) == p.excess
  {
    PlanIsForTheBranch(m, part, b, VelocityOf(m, part, b).velocity);
  }

  /** A persistent override with no valid expiring one beside it is the velocity planned with. */
  lemma OverrideIsPlannedWith(m: Data, part: Part, b: BranchId, velocity: real, o: Overrides.Override)
    requires o in m.overrides && Overrides.PersistentRow(o, part.id, Some(b)) && o.amount >= 0.0
    requires forall x :: x in m.overrides ==> !Overrides.ExpiringRow(x, part.id, Some(b), m.today)
    requires forall x :: x in m.overrides && Overrides.PersistentRow(x, part.id, Some(b)) ==> x == o
    ensures PlanFor(m, part, b, velocity).velocity == o.amount
  {
    Overrides.LookupByPriority(m.overrides, part.id, Some(b), m.today, "");
    PlanIsForTheBranch(m, part, b, velocity);
  }

  // ----- what a recommendation carries

  /** The stage of a part at a branch, by the sales of that branch and the stock it holds. */
  ghost predicate StageAt(m: Data, part: Part, b: BranchId, stage: Stage) {
    StageFits(m.movements, part, OneOf({b}), Transit.LevelAt(m.stock, (b, part.id)).available > 0.0, m.today, stage)
  }

  lemma StageIsUnique(m: Data, part: Part, b: BranchId, stage: Stage)
    ensures StageAt(m, part, b, stage) <==> stage == StageOf(m, part, b)
  {
    StagesExactly(m.movements, part, OneOf({b}), Transit.LevelAt(m.stock, (b, part.id)).available > 0.0, m.today);
  }

  /** Everything a draft says about a part at a branch that is planned with a calculated velocity. */
  ghost predicate DraftSays(m: Data, b: Branch, part: Part, velocity: real, d: Draft) {
    && d.branch == b.id && d.part == part.id && d.velocity == velocity && StageAt(m, part, b.id, d.stage)
    && PlansFor(m, part, b.id, velocity, d.plan)
    && d.quantity > 0.0 && d.plan.available + d.plan.inTransit + d.quantity == d.plan.planningTarget
    && DrawsOnBranches(m, part, b.id, d.quantity, d.resolution) && DrawsInOrder(m, part, b, d.resolution.breakdown)
  }

  /** The part is not excluded, and its plan has a gap to fill. */
  ghost predicate InNeed(m: Data, b: Branch, part: Part, velocity: real) {
    && !StageAt(m, part, b.id, Obsolete) && !StageAt(m, part, b.id, SpecialNonStock)
    && exists p :: PlansFor(m, part, b.id, velocity, p) && p.available + p.inTransit < p.planningTarget
  }

  lemma PlansAgree(m: Data, part: Part, b: BranchId, velocity: real, p: Plan, q: Plan)
    requires PlansFor(m, part, b, velocity, p) && PlansFor(m, part, b, velocity, q)
    ensures p.available == q.available && p.inTransit == q.inTransit && p.planningTarget == q.planningTarget
  {
    assert p.velocity == q.velocity;
  }

  /** Whatever velocity a part is planned with, it is drafted exactly if it is in need, and the draft says so. */
  lemma DraftsAreExact(m: Data, b: Branch, part: Part, velocity: real)
    ensures DraftFor(m, b, part, velocity).Some? <==> InNeed(m, b, part, velocity)
    ensures DraftFor(m, b, part, velocity).Some? ==>
            DraftSays(m, b, part, velocity, DraftFor(m, b, part, velocity).value)
  {
    var p := PlanFor(m, part, b.id, velocity);
    StageIsUnique(m, part, b.id, StageOf(m, part, b.id));
    StageIsUnique(m, part, b.id, Obsolete);
    StageIsUnique(m, part, b.id, SpecialNonStock);
    PlanIsForTheBranch(m, part, b.id, velocity);
    NeedTriggers(m, part, b.id, velocity, p);
    if InNeed(m, b, part, velocity) {
      var q :| PlansFor(m, part, b.id, velocity, q) && q.available + q.inTransit < q.planningTarget;
      PlansAgree(m, part, b.id, velocity, p, q);
    }
    if p.orderQuantity > 0.0 {
      ResolutionDrawsOnBranches(m, part, b, p.orderQuantity);
      ResolutionDrawsInOrder(m, part, b, p.orderQuantity);
    }
  }

  lemma NeedTriggers(m: Data, part: Part, b: BranchId, velocity: real, p: Plan)
    requires PlansFor(m, part, b, velocity, p)
    ensures p.orderQuantity > 0.0 <==> p.available + p.inTransit < p.planningTarget
    ensures p.orderQuantity > 0.0 ==> p.triggered
  {
  }

  /** The branch sold the part in the twelve months up to the current one. */
  ghost predicate SoldInWindow(m: Data, part: Part, b: BranchId) {
    exists s :: s in m.movements && s.kind == Sale && s.part == part.id && s.branch == b && s.quantity != 0.0
                && MonthNo(m.today) - 12 < MonthNo(s.date) <= MonthNo(m.today)
  }

  lemma {:induction false} MonthTotalAtLeast(rows: seq<Movement>, part: PartId, scope: Scope, s: Movement)
    requires s in rows && Counts(s, part, scope)
    ensures MonthTotal(rows, part, scope, MonthNo(s.date)) >= Abs(s.quantity)
  {
    var k := |rows| - 1;
    if s != rows[k] {
      assert rows == rows[..k] + [rows[k]];
      MonthTotalAtLeast(rows[..k], part, scope, s);
    }
  }

  lemma WarmMeansSold(m: Data, part: Part, b: BranchId)
    requires !IsColdStart(MonthlySeries(m.movements, part.id, OneOf({b}), m.today, 12))
    ensures SoldInWindow(m, part, b)
  {
    var series := MonthlySeries(m.movements, part.id, OneOf({b}), m.today, 12);
    var i :| 0 <= i < |series| && series[i] != 0.0;
    MonthTotalWitness(m.movements, part.id, OneOf({b}), WindowMonth(m.today, 12, i));
  }

  lemma MonthWithSalesWarms(rows: seq<Movement>, part: PartId, scope: Scope, today: Date, k: MonthNumber)
    requires InWindow(today, 12, k) && MonthTotal(rows, part, scope, k) > 0.0
    ensures !IsColdStart(MonthlySeries(rows, part, scope, today, 12))
  {
    var i := k - WindowMonth(today, 12, 0);
    assert MonthlySeries(rows, part, scope, today, 12)[i] == MonthTotal(rows, part, scope, k);
  }

  lemma SoldMeansWarm(m: Data, part: Part, b: BranchId)
    requires SoldInWindow(m, part, b)
    ensures !IsColdStart(MonthlySeries(m.movements, part.id, OneOf({b}), m.today, 12))
  {
    var s :| s in m.movements && s.kind == Sale && s.part == part.id && s.branch == b && s.quantity != 0.0
             && MonthNo(m.today) - 12 < MonthNo(s.date) <= MonthNo(m.today);
    MonthTotalAtLeast(m.movements, part.id, OneOf({b}), s);
    MonthWithSalesWarms(m.movements, part.id, OneOf({b}), m.today, MonthNo(s.date));
  }

  lemma ColdStartIff(m: Data, part: Part, b: BranchId)
    ensures !VelocityOf(m, part, b).isColdStart <==> SoldInWindow(m, part, b)
  {
    if SoldInWindow(m, part, b) {
      SoldMeansWarm(m, part, b);
    } else if !VelocityOf(m, part, b).isColdStart {
      WarmMeansSold(m, part, b);
    }
  }

  /**
   A branch run recommends a part exactly when the branch sold it within the window, it is not excluded,
   and the branch's own velocity leaves a gap; and what it recommends is exactly that.
   */
  lemma ProposalsAreExact(m: Data, b: Branch, part: Part)
    ensures var d := Propose(m, b, part);
            var velocity := WeightedVelocity(MonthlySeries(m.movements, part.id, OneOf({b.id}), m.today, 12));
            && (d.Some? <==> SoldInWindow(m, part, b.id) && InNeed(m, b, part, velocity))
            && (d.Some? ==> DraftSays(m, b, part, velocity, d.value))
  {
    ColdStartIff(m, part, b.id);
    DraftsAreExact(m, b, part, VelocityOf(m, part, b.id).velocity);
  }

  /** A center run, or a recalculation, recommends it exactly when the velocity is positive and leaves a gap. */
  lemma ProposalsWithAreExact(m: Data, b: Branch, part: Part, velocity: real)
    ensures var d := ProposeWith(m, b, part, velocity);
            && (d.Some? <==> velocity > 0.0 && InNeed(m, b, part, velocity))
            && (d.Some? ==> DraftSays(m, b, part, velocity, d.value))
  {
    DraftsAreExact(m, b, part, velocity);
  }

  // ----- the velocity of a center

  lemma {:induction false} DependentsAreDistinct(branches: seq<Branch>, dc: BranchId)
    requires DistinctIds(branches)
    ensures Distinct(Dependents(branches, dc))
  {
    if branches != [] {
      DependentsAreDistinct(branches[1..], dc);
      assert branches[0].id !in Dependents(branches[1..], dc);
    }
  }

  /**
   A center that is not its own dependent is planned by the pooled sales of itself and the active
   branches below it.
   */
  lemma CenterVelocityIsPooled(m: Data, part: Part, dc: BranchId)
    requires DistinctIds(m.branches)
    requires forall b :: b in m.branches && b.id == dc ==> b.parent != Some(dc)
    ensures var pool := {dc} + set b | b in m.branches && b.isActive && b.parent == Some(dc) :: b.id;
            CenterVelocity(m, part, dc)
                == WeightedVelocity(MonthlySeries(m.movements, part.id, OneOf(pool), m.today, 12))
  {
    var dependents := Dependents(m.branches, dc);
    DependentsAreDistinct(m.branches, dc);
    PlannerAgainstSet(m.movements, part.id, dc, dependents, m.today, WINDOW);
    assert SetOf(dependents) == set b | b in m.branches && b.isActive && b.parent == Some(dc) :: b.id;
    assert dc !in dependents;
  }
}
