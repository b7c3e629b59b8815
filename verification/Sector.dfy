/** Volume-class and lifecycle lookups driven by sector configuration (apps/sector/models.py). */
module Sector {
  import opened Prelude
  import opened StableSort
  import Classification

  /** An entry of the configured threshold list; either key may be missing. */
  datatype Threshold = Threshold(min: Option<int>, name: Option<string>) {
    function Min(): int { if min.Some? then min.value else 0 }

    function Label(): string { if name.Some? then name.value else "" }
  }

  datatype StageRule = StageRule(code: Option<string>, maxMonths: Option<int>, minMonthsNoSales: Option<int>,
                                 minStockZero: bool) {
    function Code(fallback: string): string { if code.Some? then code.value else fallback }

    function MinMonths(): int { if minMonthsNoSales.Some? then minMonthsNoSales.value else 0 }

    function MaxMonths(): int { if maxMonths.Some? then maxMonths.value else 0 }
  }

  // ----- volume class

  function HigherMin(): (Threshold, Threshold) -> bool {
    (a: Threshold, b: Threshold) => a.Min() >= b.Min()
  }

  function FirstReached(thresholds: seq<Threshold>, sales: int): string {
    if thresholds == [] then ""
    else if sales >= thresholds[0].Min() then thresholds[0].Label()
    else FirstReached(thresholds[1..], sales)
  }

  function VcLabel(thresholds: seq<Threshold>, sales: int): string {
    FirstReached(SortBy(HigherMin(), thresholds), sales)
  }

  /** t is reached, and no reached threshold is above it. */
  ghost predicate GreatestReached(thresholds: seq<Threshold>, sales: int, t: Threshold) {
    t in thresholds && t.Min() <= sales && forall o :: o in thresholds && o.Min() <= sales ==> o.Min() <= t.Min()
  }

  lemma {:induction false} FirstReachedIsGreatest(s: seq<Threshold>, sales: int)
    requires Sorted(HigherMin(), s)
    ensures (exists t :: t in s && t.Min() <= sales)
            ==> exists t :: GreatestReached(s, sales, t) && FirstReached(s, sales) == t.Label()
    ensures (forall t :: t in s ==> sales < t.Min()) ==> FirstReached(s, sales) == ""
  {
    if s != [] {
      if sales >= s[0].Min() {
        assert GreatestReached(s, sales, s[0]);
      } else {
        assert forall t :: t in s ==> t == s[0] || t in s[1..];
        FirstReachedIsGreatest(s[1..], sales);
        if exists t :: t in s && t.Min() <= sales {
          var g :| GreatestReached(s[1..], sales, g) && FirstReached(s[1..], sales) == g.Label();
          assert GreatestReached(s, sales, g);
        }
      }
    }
  }

  /** The label is that of the greatest threshold not above the sales, or empty when there is none. */
  lemma VcLabelIsOfGreatestReached(thresholds: seq<Threshold>, sales: int)
    ensures (exists t :: t in thresholds && t.Min() <= sales)
            ==> exists t :: GreatestReached(thresholds, sales, t) && VcLabel(thresholds, sales) == t.Label()
    ensures (forall t :: t in thresholds ==> sales < t.Min()) ==> VcLabel(thresholds, sales) == ""
  {
    var sorted := SortBy(HigherMin(), thresholds);
    SortSorts(HigherMin(), thresholds);
    SortKeepsElements(HigherMin(), thresholds);
    assert forall t :: t in sorted <==> t in multiset(sorted);
    assert forall t :: t in thresholds <==> t in multiset(thresholds);
    FirstReachedIsGreatest(sorted, sales);
    if exists t :: t in thresholds && t.Min() <= sales {
      var g :| GreatestReached(sorted, sales, g) && FirstReached(sorted, sales) == g.Label();
      assert GreatestReached(thresholds, sales, g);
    }
  }

  ghost predicate DistinctMins(thresholds: seq<Threshold>) {
    forall s, t :: s in thresholds && t in thresholds && s.Min() == t.Min() ==> s == t
  }

  /** The order in which distinct thresholds are configured does not matter. */
  lemma VcLabelIgnoresOrder(a: seq<Threshold>, b: seq<Threshold>, sales: int)
    requires multiset(a) == multiset(b) && DistinctMins(a)
    ensures VcLabel(a, sales) == VcLabel(b, sales)
  {
    VcLabelIsOfGreatestReached(a, sales);
    VcLabelIsOfGreatestReached(b, sales);
    assert forall t :: t in a <==> t in multiset(a);
    assert forall t :: t in b <==> t in multiset(b);
    if exists t :: t in a && t.Min() <= sales {
      var x :| GreatestReached(a, sales, x) && VcLabel(a, sales) == x.Label();
      var y :| GreatestReached(b, sales, y) && VcLabel(b, sales) == y.Label();
      assert x.Min() == y.Min();
    }
  }

  // ----- lifecycle stage

  function Keep<T>(p: T -> bool, s: seq<T>): seq<T> {
    if s == [] then [] else (if p(s[0]) then [s[0]] else []) + Keep(p, s[1..])
  }

  /** max(s, key=min_months_no_sales): the first of the greatest. */
  function Longest(s: seq<StageRule>): (r: StageRule)
    requires s != []
    ensures r in s && forall o :: o in s ==> o.MinMonths() <= r.MinMonths()
  {
    if |s| == 1 then s[0]
    else
      var rest := Longest(s[1..]);
      assert s == [s[0]] + s[1..];
      if s[0].MinMonths() >= rest.MinMonths() then s[0] else rest
  }

  /** min(s, key=max_months): the first of the least. */
  function Youngest(s: seq<StageRule>): (r: StageRule)
    requires s != []
    ensures r in s && forall o :: o in s ==> r.MaxMonths() <= o.MaxMonths()
  {
    if |s| == 1 then s[0]
    else
      var rest := Youngest(s[1..]);
      assert s == [s[0]] + s[1..];
      if s[0].MaxMonths() <= rest.MaxMonths() then s[0] else rest
  }

  function FewerMonths(): (StageRule, StageRule) -> bool {
    (a: StageRule, b: StageRule) => a.MinMonths() <= b.MinMonths()
  }

  function FirstOverdue(stages: seq<StageRule>, months: int): Option<string> {
    if stages == [] then None
    else if months >= stages[0].MinMonths() then Some(stages[0].Code("PRE_OBSOLETE"))
    else FirstOverdue(stages[1..], months)
  }

  predicate Aging(s: StageRule) { s.minMonthsNoSales.Some? && !s.minStockZero }

  predicate Idle(s: StageRule) { s.minMonthsNoSales.Some? && s.minStockZero }

  predicate Introductory(s: StageRule) { s.maxMonths.Some? }

  predicate Plain(s: StageRule) { s.maxMonths.None? && s.minMonthsNoSales.None? }

  /** The part of get_lifecycle_stage that looks at the time since the last sale. */
  function StageBySales(stages: seq<StageRule>, months: int, hasStock: bool): Option<string> {
    var aging, idle := Keep(Aging, stages), Keep(Idle, stages);
    if aging != [] && months >= Longest(aging).MinMonths() then Some(Longest(aging).Code("OBSOLETE"))
    else if idle != [] && months >= Longest(idle).MinMonths() && !hasStock then Some(Longest(idle).Code("INACTIVE"))
    else if hasStock then FirstOverdue(SortBy(FewerMonths(), aging), months)
    else None
  }

  function StageByAge(stages: seq<StageRule>, sinceFirstSeen: Option<int>): string
    requires stages != []
  {
    var young, plain := Keep(Introductory, stages), Keep(Plain, stages);
    if young != [] && sinceFirstSeen.Some? && sinceFirstSeen.value <= Youngest(young).MaxMonths()
    then Youngest(young).Code("NEW")
    else if plain != [] then plain[0].Code("ACTIVE")
    else stages[0].Code("ACTIVE")
  }

  function LifecycleStage(stages: seq<StageRule>, sinceFirstSeen: Option<int>, sinceLastSale: Option<int>,
                          hasStock: bool)
    : string
  {
    if stages == [] then "ACTIVE"
    else
      var bySales := if sinceLastSale.Some? then StageBySales(stages, sinceLastSale.value, hasStock) else None;
      if bySales.Some? then bySales.value else StageByAge(stages, sinceFirstSeen)
  }

  // ----- the lookup, rule by rule, for every configuration

  lemma {:induction false} KeepIff<T>(p: T -> bool, s: seq<T>)
    ensures forall x :: x in Keep(p, s) <==> x in s && p(x)
  {
    if s != [] {
      KeepIff(p, s[1..]);
      assert forall x :: x in s <==> x == s[0] || x in s[1..];
    }
  }

  /** A rule for parts without recent sales, or, with minStockZero, for such parts without stock. */
  ghost predicate Outdates(s: StageRule, withoutStock: bool) {
    s.minMonthsNoSales.Some? && s.minStockZero == withoutStock
  }

  /** The code of a rule of the kind that asks for most months, all of them reached. */
  ghost predicate OfLongest(stages: seq<StageRule>, months: int, withoutStock: bool, fallback: string, code: string) {
    exists x :: x in stages && Outdates(x, withoutStock) && code == x.Code(fallback) && x.MinMonths() <= months
                && forall o :: o in stages && Outdates(o, withoutStock) ==> o.MinMonths() <= x.MinMonths()
  }

  /** The code of a rule that asks for fewest months, if they are reached. */
  ghost predicate OfShortest(stages: seq<StageRule>, months: int, code: string) {
    exists x :: x in stages && Outdates(x, false) && code == x.Code("PRE_OBSOLETE") && x.MinMonths() <= months
                && forall o :: o in stages && Outdates(o, false) ==> x.MinMonths() <= o.MinMonths()
  }

  /** All rules of the kind are reached, and there is one. */
  ghost predicate AllReached(stages: seq<StageRule>, months: int, withoutStock: bool) {
    (exists x :: x in stages && Outdates(x, withoutStock))
    && forall x :: x in stages && Outdates(x, withoutStock) ==> x.MinMonths() <= months
  }

  ghost predicate SomeReached(stages: seq<StageRule>, months: int) {
    exists x :: x in stages && Outdates(x, false) && x.MinMonths() <= months
  }

  lemma ShortestIsFirst(aging: seq<StageRule>, months: int)
    ensures var first := FirstOverdue(SortBy(FewerMonths(), aging), months);
            if exists x :: x in aging && x.MinMonths() <= months
            then exists x :: x in aging && first == Some(x.Code("PRE_OBSOLETE")) && x.MinMonths() <= months
                             && forall o :: o in aging ==> x.MinMonths() <= o.MinMonths()
            else first == None
  {
    var sorted := SortBy(FewerMonths(), aging);
    SortSorts(FewerMonths(), aging);
    SortKeepsElements(FewerMonths(), aging);
    assert forall x :: x in sorted <==> x in multiset(sorted);
    assert forall x :: x in aging <==> x in multiset(aging);
    FirstOverdueInOrder(sorted, months);
    if sorted != [] {
      assert sorted[0] in aging;
      forall o | o in aging
        ensures sorted[0].MinMonths() <= o.MinMonths()
      {
        var j :| 0 <= j < |sorted| && sorted[j] == o;
        assert j > 0 ==> FewerMonths()(sorted[0], sorted[j]);
      }
    }
  }

  lemma {:induction false} FirstOverdueInOrder(sorted: seq<StageRule>, months: int)
    requires Sorted(FewerMonths(), sorted)
    ensures FirstOverdue(sorted, months)
            == if sorted != [] && sorted[0].MinMonths() <= months then Some(sorted[0].Code("PRE_OBSOLETE")) else None
  {
    if sorted != [] && months < sorted[0].MinMonths() {
      FirstOverdueInOrder(sorted[1..], months);
      assert |sorted| > 1 ==> FewerMonths()(sorted[0], sorted[1]);
    }
  }

  /** With time since the last sale known: longest rule, then without stock the longest of those, then the shortest. */
  lemma StageBySalesIsExact(stages: seq<StageRule>, months: int, hasStock: bool)
    ensures var bySales := StageBySales(stages, months, hasStock);
            if AllReached(stages, months, false)
            then bySales.Some? && OfLongest(stages, months, false, "OBSOLETE", bySales.value)
            else if AllReached(stages, months, true) && !hasStock
            then bySales.Some? && OfLongest(stages, months, true, "INACTIVE", bySales.value)
            else if hasStock && SomeReached(stages, months)
            then bySales.Some? && OfShortest(stages, months, bySales.value)
            else bySales == None
  {
    var aging, idle := Keep(Aging, stages), Keep(Idle, stages);
    KeepIff(Aging, stages);
    KeepIff(Idle, stages);
    assert forall x :: x in aging <==> x in stages && Outdates(x, false);
    assert forall x :: x in idle <==> x in stages && Outdates(x, true);
    assert aging != [] ==> aging[0] in aging;
    assert idle != [] ==> idle[0] in idle;
    ShortestIsFirst(aging, months);
  }

  /** The code of a rule with an upper age that asks for the lowest one. */
  ghost predicate OfYoungest(stages: seq<StageRule>, age: int, code: string) {
    exists x :: x in stages && x.maxMonths.Some? && code == x.Code("NEW") && age <= x.MaxMonths()
                && forall o :: o in stages && o.maxMonths.Some? ==> x.MaxMonths() <= o.MaxMonths()
  }

  ghost predicate WithinEveryAge(stages: seq<StageRule>, age: int) {
    (exists x :: x in stages && x.maxMonths.Some?)
    && forall x :: x in stages && x.maxMonths.Some? ==> age <= x.MaxMonths()
  }

  /** Position of the first rule that asks for nothing. */
  ghost predicate FirstPlainAt(stages: seq<StageRule>, i: nat) {
    i < |stages| && stages[i].maxMonths.None? && stages[i].minMonthsNoSales.None?
    && forall j :: 0 <= j < i ==> stages[j].maxMonths.Some? || stages[j].minMonthsNoSales.Some?
  }

  lemma {:induction false} KeepPlain(stages: seq<StageRule>)
    ensures Keep(Plain, stages) != [] ==>
            exists i: nat :: FirstPlainAt(stages, i) && Keep(Plain, stages)[0] == stages[i]
    ensures Keep(Plain, stages) == [] <==> forall i: nat :: !FirstPlainAt(stages, i)
  {
    if stages != [] {
      if Plain(stages[0]) {
        assert FirstPlainAt(stages, 0);
      } else {
        KeepPlain(stages[1..]);
        forall i: nat | FirstPlainAt(stages[1..], i)
          ensures FirstPlainAt(stages, i + 1)
        {
          assert forall j :: 1 <= j < i + 1 ==> stages[j] == stages[1..][j - 1];
        }
        forall i: nat | FirstPlainAt(stages, i)
          ensures i > 0 && FirstPlainAt(stages[1..], i - 1)
        {
        }
        if Keep(Plain, stages) != [] {
          var i: nat :| FirstPlainAt(stages[1..], i) && Keep(Plain, stages[1..])[0] == stages[1..][i];
          assert FirstPlainAt(stages, i + 1) && stages[i + 1] == stages[1..][i];
        }
      }
    }
  }

  /**
   By age: the lowest upper age if the part is within it, then the first rule that asks for nothing,
   then the first rule.
   */
  lemma StageByAgeIsExact(stages: seq<StageRule>, sinceFirstSeen: Option<int>)
    requires stages != []
    ensures var code := StageByAge(stages, sinceFirstSeen);
            if sinceFirstSeen.Some? && WithinEveryAge(stages, sinceFirstSeen.value)
            then OfYoungest(stages, sinceFirstSeen.value, code)
            else if exists i: nat :: FirstPlainAt(stages, i)
            then exists i: nat :: FirstPlainAt(stages, i) && code == stages[i].Code("ACTIVE")
            else code == stages[0].Code("ACTIVE")
  {
    var young := Keep(Introductory, stages);
    KeepIff(Introductory, stages);
    assert forall x :: x in young <==> x in stages && x.maxMonths.Some?;
    assert young != [] ==> young[0] in young;
    KeepPlain(stages);
  }

  // ----- the default configuration

  const DEFAULT_THRESHOLDS := [
    Threshold(Some(251), Some("VC1")), Threshold(Some(121), Some("VC2")), Threshold(Some(61), Some("VC3")),
    Threshold(Some(31), Some("VC4")), Threshold(Some(15), Some("VC5")), Threshold(Some(7), Some("VC6")),
    Threshold(Some(4), Some("VC7")), Threshold(Some(1), Some("VC8"))
  ]

  const NEW := StageRule(Some("NEW"), Some(6), None, false)
  const ACTIVE := StageRule(Some("ACTIVE"), None, None, false)
  const PRE_OBSOLETE := StageRule(Some("PRE_OBSOLETE"), None, Some(12), false)
  const OBSOLETE := StageRule(Some("OBSOLETE"), None, Some(24), false)
  const INACTIVE := StageRule(Some("INACTIVE"), None, Some(12), true)

  const DEFAULT_STAGES := [NEW, ACTIVE, PRE_OBSOLETE, OBSOLETE, INACTIVE]

  lemma FirstReachedFrom(thresholds: seq<Threshold>, sales: int, i: nat)
    requires i < |thresholds|
    ensures FirstReached(thresholds[i..], sales)
            == if sales >= thresholds[i].Min() then thresholds[i].Label() else FirstReached(thresholds[i + 1..], sales)
  {
    assert thresholds[i..][1..] == thresholds[i + 1..];
  }

  lemma DefaultThresholdsAreSorted()
    ensures SortBy(HigherMin(), DEFAULT_THRESHOLDS) == DEFAULT_THRESHOLDS
  {
    SortOfSorted(HigherMin(), DEFAULT_THRESHOLDS);
  }

  lemma LowDefaultThresholds(sales: int)
    ensures FirstReached(DEFAULT_THRESHOLDS[4..], sales)
            == if sales >= 15 then "VC5" else if sales >= 7 then "VC6" else if sales >= 4 then "VC7"
               else if sales >= 1 then "VC8" else ""
  {
    FirstReachedFrom(DEFAULT_THRESHOLDS, sales, 4);
    FirstReachedFrom(DEFAULT_THRESHOLDS, sales, 5);
    FirstReachedFrom(DEFAULT_THRESHOLDS, sales, 6);
    FirstReachedFrom(DEFAULT_THRESHOLDS, sales, 7);
    assert DEFAULT_THRESHOLDS[8..] == [];
  }

  /** The shipped thresholds give the hard-coded classes for every sales figure. */
  lemma DefaultThresholdsAgree(sales: int)
    ensures VcLabel(DEFAULT_THRESHOLDS, sales) == Classification.VolumeClass(sales)
  {
    DefaultThresholdsAreSorted();
    FirstReachedFrom(DEFAULT_THRESHOLDS, sales, 0);
    FirstReachedFrom(DEFAULT_THRESHOLDS, sales, 1);
    FirstReachedFrom(DEFAULT_THRESHOLDS, sales, 2);
    FirstReachedFrom(DEFAULT_THRESHOLDS, sales, 3);
    LowDefaultThresholds(sales);
    assert DEFAULT_THRESHOLDS[0..] == DEFAULT_THRESHOLDS;
  }

  lemma KeepStep<T>(p: T -> bool, x: T, s: seq<T>)
    ensures Keep(p, [x] + s) == (if p(x) then [x] else []) + Keep(p, s)
  {
    assert ([x] + s)[1..] == s;
  }

  /** The shipped stages, filtered. */
  lemma KeepDefaults(p: StageRule -> bool)
    ensures Keep(p, DEFAULT_STAGES)
            == (if p(NEW) then [NEW] else []) + ((if p(ACTIVE) then [ACTIVE] else [])
               + ((if p(PRE_OBSOLETE) then [PRE_OBSOLETE] else []) + KeepLast(p)))
  {
    var last := [OBSOLETE, INACTIVE];
    KeepLastTwo(p);
    KeepStep(p, PRE_OBSOLETE, last);
    KeepStep(p, ACTIVE, [PRE_OBSOLETE] + last);
    KeepStep(p, NEW, [ACTIVE] + ([PRE_OBSOLETE] + last));
    assert DEFAULT_STAGES == [NEW] + ([ACTIVE] + ([PRE_OBSOLETE] + last));
  }

  function KeepLast(p: StageRule -> bool): seq<StageRule> {
    (if p(OBSOLETE) then [OBSOLETE] else []) + if p(INACTIVE) then [INACTIVE] else []
  }

  lemma KeepLastTwo(p: StageRule -> bool)
    ensures Keep(p, [OBSOLETE, INACTIVE]) == KeepLast(p)
  {
    KeepStep(p, INACTIVE, []);
    KeepStep(p, OBSOLETE, [INACTIVE]);
    assert [INACTIVE] == [INACTIVE] + [];
    assert [OBSOLETE, INACTIVE] == [OBSOLETE] + [INACTIVE];
  }

  lemma DefaultOverdue(months: int)
    ensures FirstOverdue(SortBy(FewerMonths(), [PRE_OBSOLETE, OBSOLETE]), months)
            == if months >= 12 then Some("PRE_OBSOLETE") else None
  {
    var aging := [PRE_OBSOLETE, OBSOLETE];
    SortOfSorted(FewerMonths(), aging);
    assert aging[1..] == [OBSOLETE] && [OBSOLETE][1..] == [];
    assert months < 12 ==> FirstOverdue([OBSOLETE], months) == None;
  }

  lemma DefaultStagesBySales(months: int, hasStock: bool)
    ensures StageBySales(DEFAULT_STAGES, months, hasStock)
            == if months >= 24 then Some("OBSOLETE")
               else if months >= 12 then Some(if hasStock then "PRE_OBSOLETE" else "INACTIVE")
               else None
  {
    KeepDefaults(Aging);
    KeepDefaults(Idle);
    var aging := [PRE_OBSOLETE, OBSOLETE];
    assert Keep(Aging, DEFAULT_STAGES) == aging && Keep(Idle, DEFAULT_STAGES) == [INACTIVE];
    assert Longest(aging) == OBSOLETE;
    DefaultOverdue(months);
  }

  lemma DefaultStagesByAge(sinceFirstSeen: Option<int>)
    ensures StageByAge(DEFAULT_STAGES, sinceFirstSeen)
            == if sinceFirstSeen.Some? && sinceFirstSeen.value <= 6 then "NEW" else "ACTIVE"
  {
    KeepDefaults(Introductory);
    KeepDefaults(Plain);
    assert Keep(Introductory, DEFAULT_STAGES) == [NEW] && Keep(Plain, DEFAULT_STAGES) == [ACTIVE];
  }

  /** The shipped stages give the hard-coded lifecycle rules for every input, missing ages included. */
  lemma DefaultStagesAgree(sinceFirstSeen: Option<int>, sinceLastSale: Option<int>, hasStock: bool)
    ensures LifecycleStage(DEFAULT_STAGES, sinceFirstSeen, sinceLastSale, hasStock)
            == Classification.LifecycleStage(sinceFirstSeen, sinceLastSale, hasStock)
  {
    if sinceLastSale.Some? {
      DefaultStagesBySales(sinceLastSale.value, hasStock);
    }
    DefaultStagesByAge(sinceFirstSeen);
  }
}
