/**
 What the generator decides for one part at one branch: velocity, classification, plan and sources
 put together (apps/recommendations/services.py, apps/recommendations/source_resolution.py).
 */
module Market {
  import opened Prelude
  import opened Ids
  import opened Calendar
  import opened Sales
  import opened Velocity
  import opened DcVelocity
  import opened Classification
  import opened Planning
  import opened SourceResolution
  import Overrides
  import Transit

  /** parent: the distribution center a branch depends on. */
  datatype Branch = Branch(id: BranchId, isActive: bool, isCenter: bool, parent: Option<BranchId>)

  /**
   The tables a run reads. Branches are listed by code, active parts by id; retired parts are no longer
   generated for.
   */
  datatype Data = Data(today: Date, branches: seq<Branch>, parts: seq<Part>, retired: seq<Part>,
                       stock: Transit.Stock, movements: seq<Movement>, overrides: seq<Overrides.Override>,
                       periodDays: Option<int>, securityDays: Option<int>)

  const WINDOW: nat := 12

  function VelocityOf(m: Data, part: Part, b: BranchId): VelocityResult {
    BranchVelocity(m.movements, part.id, b, m.today, WINDOW)
  }

  function Dependents(branches: seq<Branch>, dc: BranchId): (r: seq<BranchId>)
    ensures forall id :: id in r <==> exists b :: b in branches && b.id == id && b.isActive && b.parent == Some(dc)
  {
    if branches == [] then []
    else
      (if branches[0].isActive && branches[0].parent == Some(dc) then [branches[0].id] else [])
      + Dependents(branches[1..], dc)
  }

  function CenterVelocity(m: Data, part: Part, dc: BranchId): real {
    PlannerVelocity(m.movements, part.id, dc, Dependents(m.branches, dc), m.today, WINDOW)
  }

  /** A demand override in force replaces the calculated velocity. */
  function EffectiveVelocity(m: Data, part: Part, b: BranchId, velocity: real): real {
    var o := Overrides.ActiveOverride(m.overrides, part.id, Some(b), m.today, "");
    if o.Some? then o.value.amount else velocity
  }

  function TermsOf(m: Data, part: Part): Terms {
    Terms(DaysOr(m.periodDays, DEFAULT_PERIOD_DAYS), DaysOr(m.securityDays, DEFAULT_SECURITY_DAYS), part.leadTimeDays)
  }

  function PlanFor(m: Data, part: Part, b: BranchId, velocity: real): Plan {
    var level := Transit.LevelAt(m.stock, (b, part.id));
    MakePlan(EffectiveVelocity(m, part, b, velocity), TermsOf(m, part), level.available, level.inTransit)
  }

  function StageOf(m: Data, part: Part, b: BranchId): Stage {
    DetermineStage(m.movements, part, OneOf({b}), Transit.LevelAt(m.stock, (b, part.id)).available > 0.0, m.today).0
  }

  // ----- sources

  predicate HoldsStock(m: Data, part: Part, b: BranchId) {
    (b, part.id) in m.stock && m.stock[(b, part.id)].available > 0.0
  }

  /** A branch without a stock row has no excess. */
  function ExcessOf(m: Data, part: Part, b: BranchId): real {
    if (b, part.id) in m.stock then PlanFor(m, part, b, VelocityOf(m, part, b).velocity).excess else 0.0
  }

  predicate IsSource(m: Data, part: Part, dest: BranchId, b: Branch) {
    b.isActive && b.id != dest && HoldsStock(m, part, b.id) && ExcessOf(m, part, b.id) > 0.0
  }

  function CandidatesAmong(m: Data, part: Part, dest: BranchId, branches: seq<Branch>): seq<Candidate> {
    if branches == [] then []
    else
      (if IsSource(m, part, dest, branches[0]) then [Candidate(branches[0].id, ExcessOf(m, part, branches[0].id))]
       else [])
      + CandidatesAmong(m, part, dest, branches[1..])
  }

  /** The candidates are exactly the branches that qualify, each with its excess. */
  lemma {:induction false} CandidatesAreTheSources(m: Data, part: Part, dest: BranchId, branches: seq<Branch>)
    ensures forall c :: c in CandidatesAmong(m, part, dest, branches) <==>
              exists b :: b in branches && IsSource(m, part, dest, b) && c == Candidate(b.id, ExcessOf(m, part, b.id))
  {
    if branches != [] {
      CandidatesAreTheSources(m, part, dest, branches[1..]);
      assert forall b :: b in branches <==> b == branches[0] || b in branches[1..];
    }
  }

  function Allocations(m: Data, part: Part, dest: Branch, needed: real): seq<Allocation> {
    Greedy(needed, SortByPriority(dest.parent, CandidatesAmong(m, part, dest.id, m.branches)))
  }

  // ----- what a branch is recommended

  /** The values a new or refreshed recommendation carries. */
  datatype Draft = Draft(branch: BranchId, part: PartId, quantity: real, plan: Plan, velocity: real, stage: Stage,
                         resolution: Resolution)

  predicate Excluded(stage: Stage) {
    stage.Obsolete? || stage.SpecialNonStock?
  }

  /** Classification, plan and sources for a velocity that has passed its guard. */
  function DraftFor(m: Data, b: Branch, part: Part, velocity: real): Option<Draft> {
    var stage := StageOf(m, part, b.id);
    var plan := PlanFor(m, part, b.id, velocity);
    if Excluded(stage) || !plan.triggered || plan.orderQuantity <= 0.0 then None
    else
      Some(Draft(b.id, part.id, plan.orderQuantity, plan, velocity, stage,
                 Resolve(plan.orderQuantity, Allocations(m, part, b, plan.orderQuantity))))
  }

  /** generate_for_branch: cold-start parts are skipped. */
  function Propose(m: Data, b: Branch, part: Part): Option<Draft> {
    var v := VelocityOf(m, part, b.id);
    if v.isColdStart then None else DraftFor(m, b, part, v.velocity)
  }

  /** generate_for_dc and recalculation: a velocity that is not positive is skipped. */
  function ProposeWith(m: Data, b: Branch, part: Part, velocity: real): Option<Draft> {
    if velocity <= 0.0 then None else DraftFor(m, b, part, velocity)
  }

  function Find<T>(key: T -> nat, s: seq<T>, id: nat): (r: Option<T>)
    ensures r.Some? ==> r.value in s && key(r.value) == id
    ensures r.None? <==> forall x :: x in s ==> key(x) != id
  {
    if s == [] then None else if key(s[0]) == id then Some(s[0]) else Find(key, s[1..], id)
  }

  function BranchOf(branches: seq<Branch>, id: BranchId): (b: Option<Branch>)
    ensures b.Some? ==> b.value in branches && b.value.id == id
    ensures b.None? <==> forall x :: x in branches ==> x.id != id
  {
    Find((b: Branch) => b.id, branches, id)
  }

  /** The part of a recommendation, active or not. */
  function PartOf(m: Data, id: PartId): (p: Option<Part>)
    ensures p.Some? ==> p.value.id == id && (p.value in m.parts || p.value in m.retired)
    ensures (exists x :: x in m.parts && x.id == id) ==> p.Some? && p.value in m.parts
    ensures p.None? <==> forall x :: x in m.parts || x in m.retired ==> x.id != id
  {
    var active := Find((p: Part) => p.id, m.parts, id);
    if active.Some? then active else Find((p: Part) => p.id, m.retired, id)
  }

  function CurrentVelocity(m: Data, b: Branch, part: Part): real {
    if b.isCenter then CenterVelocity(m, part, b.id) else VelocityOf(m, part, b.id).velocity
  }

  lemma {:induction false} MonthlySeriesNonNegative(rows: seq<Movement>, part: PartId, scope: Scope, today: Date,
                                                    n: nat)
    ensures forall i :: 0 <= i < n ==> MonthlySeries(rows, part, scope, today, n)[i] >= 0.0
  {
  }

  /** The two cold-start guards, no sales at all and velocity not positive, are one and the same. */
  lemma GuardsAgree(m: Data, b: Branch, part: Part)
    ensures Propose(m, b, part) == ProposeWith(m, b, part, VelocityOf(m, part, b.id).velocity)
  {
    var series := MonthlySeries(m.movements, part.id, OneOf({b.id}), m.today, WINDOW);
    MonthlySeriesNonNegative(m.movements, part.id, OneOf({b.id}), m.today, WINDOW);
    VelocityZeroIffColdStart(series);
  }

  /** Every recommendation of a branch run is for a New, Active or Campaign part. */
  lemma OnlyLiveParts(m: Data, b: Branch, part: Part)
    requires forall s :: s in m.movements && Counts(s, part.id, OneOf({b.id})) ==> s.date <= m.today
    ensures var d := Propose(m, b, part);
            d.Some? ==> d.value.stage.New? || d.value.stage.Active? || d.value.stage.SpecialCampaign?
  {
    if Propose(m, b, part).Some? {
      WarmPartsAreNotStale(m.movements, part, OneOf({b.id}),
                           Transit.LevelAt(m.stock, (b.id, part.id)).available > 0.0, m.today);
    }
  }

  // ----- nobody receives and gives the same part in one run

  lemma AllocationsComeFromSources(m: Data, part: Part, dest: Branch, needed: real)
    ensures forall a :: a in Allocations(m, part, dest, needed) ==>
              (exists b :: b in m.branches && b.id == a.branch && IsSource(m, part, dest.id, b))
              && 0.0 < a.quantity <= ExcessOf(m, part, a.branch)
  {
    var candidates := CandidatesAmong(m, part, dest.id, m.branches);
    var sorted := SortByPriority(dest.parent, candidates);
    SortedIsPermutation(dest.parent, candidates);
    CandidatesAreTheSources(m, part, dest.id, m.branches);
    forall i | 0 <= i < |sorted|
      ensures sorted[i].excess > 0.0
    {
      assert sorted[i] in candidates;
    }
    GreedyShape(needed, sorted);
    forall a | a in Allocations(m, part, dest, needed)
      ensures exists b :: b in m.branches && b.id == a.branch && IsSource(m, part, dest.id, b)
      ensures 0.0 < a.quantity <= ExcessOf(m, part, a.branch)
    {
      var i :| 0 <= i < |Greedy(needed, sorted)| && Greedy(needed, sorted)[i] == a;
      assert sorted[i] in candidates;
    }
  }

  /** A branch with excess orders nothing under its own velocity. */
  lemma ExcessMeansNoProposal(m: Data, b: Branch, part: Part)
    requires ExcessOf(m, part, b.id) > 0.0
    ensures Propose(m, b, part) == None
  {
    var level := Transit.LevelAt(m.stock, (b.id, part.id));
    OrderAndExcessExclude(EffectiveVelocity(m, part, b.id, VelocityOf(m, part, b.id).velocity), TermsOf(m, part),
                          level.available, level.inTransit);
  }

  /** The recommendation draws on the branch. */
  ghost predicate Sends(d: Draft, b: BranchId) {
    exists l :: l in d.resolution.breakdown && l.FromBranch? && l.branch == b
  }

  /** Whoever is drawn on for a part is not recommended that part in the same run. */
  lemma SourcesAreNotRecipients(m: Data, dest: Branch, part: Part, source: Branch)
    ensures var d := Propose(m, dest, part);
            d.Some? && Sends(d.value, source.id) ==> Propose(m, source, part) == None
  {
    if Propose(m, dest, part).Some? && Sends(Propose(m, dest, part).value, source.id) {
      var d := Propose(m, dest, part).value;
      var l :| l in d.resolution.breakdown && l.FromBranch? && l.branch == source.id;
      var g := Allocations(m, part, dest, d.quantity);
      LinesComeFromAllocations(d.quantity, g, l);
      var a :| a in g && l == FromBranch(a.branch, a.quantity);
      AllocationsComeFromSources(m, part, dest, d.quantity);
      ExcessMeansNoProposal(m, source, part);
    }
  }

  lemma LinesComeFromAllocations(needed: real, g: seq<Allocation>, l: Line)
    requires l in Resolve(needed, g).breakdown && l.FromBranch?
    ensures exists a :: a in g && l == FromBranch(a.branch, a.quantity)
  {
    assert l in BranchLines(g);
    var i :| 0 <= i < |g| && BranchLines(g)[i] == l;
    assert g[i] in g;
  }

  // ----- one round settles

  /** Every allocation is taken from its branch's available stock. */
  function Debit(stock: Transit.Stock, part: PartId, g: seq<Allocation>): Transit.Stock
    decreases |g|
  {
    if g == [] then stock
    else
      var k := (g[0].branch, part);
      var level := Transit.LevelAt(stock, k);
      Debit(stock[k := level.(available := level.available - g[0].quantity)], part, g[1..])
  }

  /** The whole ordered quantity is on its way to the destination. */
  function Credit(stock: Transit.Stock, k: Transit.StockKey, quantity: real): Transit.Stock {
    var level := Transit.LevelAt(stock, k);
    stock[k := level.(inTransit := level.inTransit + quantity)]
  }

  /** The tables once a recommendation has been carried out. */
  function Settled(m: Data, part: Part, dest: Branch, needed: real): Data {
    m.(stock := Credit(Debit(m.stock, part.id, Allocations(m, part, dest, needed)), (dest.id, part.id), needed))
  }

  ghost predicate DistinctIds(branches: seq<Branch>) {
    forall i, j :: 0 <= i < j < |branches| ==> branches[i].id != branches[j].id
  }

  ghost predicate DistinctGivers(g: seq<Allocation>) {
    forall i, j :: 0 <= i < j < |g| ==> g[i].branch != g[j].branch
  }

  lemma {:induction false} CandidatesAreDistinct(m: Data, part: Part, dest: BranchId, branches: seq<Branch>)
    requires DistinctIds(branches)
    ensures DistinctBranches(CandidatesAmong(m, part, dest, branches))
  {
    if branches != [] {
      CandidatesAreDistinct(m, part, dest, branches[1..]);
      CandidatesAreTheSources(m, part, dest, branches[1..]);
      forall c | c in CandidatesAmong(m, part, dest, branches[1..])
        ensures c.branch != branches[0].id
      {
        var b :| b in branches[1..] && IsSource(m, part, dest, b) && c == Candidate(b.id, ExcessOf(m, part, b.id));
      }
    }
  }

  lemma GiversAreDistinct(m: Data, part: Part, dest: Branch, needed: real)
    requires DistinctIds(m.branches)
    ensures DistinctGivers(Allocations(m, part, dest, needed))
  {
    var candidates := CandidatesAmong(m, part, dest.id, m.branches);
    var sorted := SortByPriority(dest.parent, candidates);
    CandidatesAreDistinct(m, part, dest.id, m.branches);
    SortedIsPermutation(dest.parent, candidates);
    CandidatesAreTheSources(m, part, dest.id, m.branches);
    DistinctSurvivesReordering(candidates, sorted);
    forall i | 0 <= i < |sorted|
      ensures sorted[i].excess > 0.0
    {
      assert sorted[i] in candidates;
    }
    GreedyShape(needed, sorted);
  }

  lemma {:induction false} DebitAt(stock: Transit.Stock, part: PartId, g: seq<Allocation>, b: BranchId)
    requires DistinctGivers(g)
    ensures forall a :: a in g && a.branch == b ==>
              Transit.LevelAt(Debit(stock, part, g), (b, part))
              == Transit.Level(Transit.LevelAt(stock, (b, part)).available - a.quantity,
                               Transit.LevelAt(stock, (b, part)).inTransit)
    ensures (forall a :: a in g ==> a.branch != b) ==>
              Transit.LevelAt(Debit(stock, part, g), (b, part)) == Transit.LevelAt(stock, (b, part))
    decreases |g|
  {
    if g != [] {
      var k := (g[0].branch, part);
      var level := Transit.LevelAt(stock, k);
      DebitAt(stock[k := level.(available := level.available - g[0].quantity)], part, g[1..], b);
      assert g == [g[0]] + g[1..];
    }
  }

  /** After one round no giver has become a taker: every source orders nothing and is not below its reorder point. */
  lemma SourcesStaySettled(m: Data, part: Part, dest: Branch, needed: real, a: Allocation)
    requires DistinctIds(m.branches) && a in Allocations(m, part, dest, needed)
    ensures var p := PlanFor(Settled(m, part, dest, needed), part, a.branch, VelocityOf(m, part, a.branch).velocity);
            p.orderQuantity == 0.0 && p.available + p.inTransit >= p.reorderPoint
  {
    var g := Allocations(m, part, dest, needed);
    AllocationsComeFromSources(m, part, dest, needed);
    GiversAreDistinct(m, part, dest, needed);
    DebitAt(m.stock, part.id, g, a.branch);
    var level := Transit.LevelAt(m.stock, (a.branch, part.id));
    GiverStaysAboveTarget(EffectiveVelocity(m, part, a.branch, VelocityOf(m, part, a.branch).velocity),
                          TermsOf(m, part), level.available, level.inTransit, a.quantity);
  }

  /** The destination orders nothing more, exactly when its recorded in-transit stock was not negative. */
  lemma DestinationIsSettledIff(m: Data, part: Part, dest: Branch, velocity: real)
    requires DistinctIds(m.branches) && PlanFor(m, part, dest.id, velocity).orderQuantity > 0.0
    ensures var needed := PlanFor(m, part, dest.id, velocity).orderQuantity;
            PlanFor(Settled(m, part, dest, needed), part, dest.id, velocity).orderQuantity == 0.0
            <==> Transit.LevelAt(m.stock, (dest.id, part.id)).inTransit >= 0.0
  {
    var needed := PlanFor(m, part, dest.id, velocity).orderQuantity;
    var g := Allocations(m, part, dest, needed);
    AllocationsComeFromSources(m, part, dest, needed);
    GiversAreDistinct(m, part, dest, needed);
    DebitAt(m.stock, part.id, g, dest.id);
    var level := Transit.LevelAt(m.stock, (dest.id, part.id));
    TakerIsSettledIff(EffectiveVelocity(m, part, dest.id, velocity), TermsOf(m, part), level.available,
                      level.inTransit);
  }
}
