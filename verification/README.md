# Replenishment core of StockAdvice

A Dafny model of the part of StockAdvice that turns sales into replenishment recommendations and carries
those recommendations through approval, with proofs about single calls, about whole runs and about the
places where two parts of the program must agree.

Run `dafny verify dfyconfig.toml` in this directory.

## What is modelled

Quantities are `real`. A date is its ordinal in the proleptic Gregorian calendar, so that subtracting
days, (year, month) buckets and day differences are all defined from month lengths and leap years.

| module | part of the program |
|---|---|
| `Velocity`, `DcVelocity` | weighted monthly average, the velocity of a branch and of a distribution center |
| `Calendar`, `Sales`, `Ingestion`, `ImportProperties`, `FigureMonths` | month buckets, the twelve-month window, keyed upsert and import of monthly figures |
| `Classification`, `Sector` | lifecycle stage and volume class, hard-coded and configured |
| `Planning`, `SourceResolution`, `FewestSources`, `SourceService`, `StableSort` | the planning formulas, candidate order, greedy allocation, writing the sources |
| `Market`, `Proposals`, `RunSettlement` | velocity, overrides, stage, plan and sources put together for one part at one branch; carrying out one or several recommendations |
| `Store`, `RecommendationStore` | the recommendation table and its audit log: generation, recalculation, transitions, decisions, bulk actions |
| `StoreRuns`, `StaleCopies`, `AuditTrail`, `Decisions`, `BulkProperties`, `Repeats`, `Creations`, `Scheduling` | properties over every run of those steps, and of the nightly job |
| `Overrides`, `Notifications`, `Transit` | demand overrides, throttled notifications, receiving transfers |

Objects whose methods change their fields are classes (`MovementTable`, `OverrideTable`, `NotificationService`,
`Transfer`, `Recommendation`, `Recommendations`, `Scheduler`); each method's contract equates the new state
with a function of the old one, and the lemmas are about that function. A table is a map or a sequence, a locked
read and save in one transaction is one step that fails as a whole, and the partial unique index on pending
rows is a save that fails. Today's date, the clock, the success of a delivery and the copy of a row that a caller
holds are parameters: a decision may be made with a copy of any age. A copy is called genuine if it names the branch, the part
and the run date of a row that the table once held under its id; its other fields may be arbitrarily out of date.

## Where the code and its comments differ

* `apps/recommendations/source_resolution.py:95` says that the primary source is the largest allocation. The code
  takes the first one, and the parent center stands first whatever its excess. `PrimaryIsLargestIff` gives the exact condition on the
  sorted candidates: a single one, or a first excess not below the second, or a first excess of at least half the need.
* For the same reason the plan need not use the fewest sources of all plans (`CenterFirstCanCostASource`), only of those
  that draw on the center first (`PlanUsesFewestSources`). It uses the fewest of all exactly when the center with its
  k - 1 largest companions covers what is to be delivered, k being the least number of largest candidates that do
  (`PlanUsesFewestIff`), and it never uses more than one too many (`CenterCostsAtMostOne`).
* `apps/inventory/services.py:156` says that each list index maps to a concrete month. Steps of thirty days visit different months
  exactly when none but the last falls on a 31st (`OwnMonthsIff`), and skip a month exactly when the day and the length
  of the month before add up to thirty or less (`MonthIsSkippedIff`). Each imported figure has its month to itself exactly when no two
  neighbouring figures are recorded with the newer one on a 31st (`FiguresHaveTheirMonthsIff`); every 31 January is such a day
  (`MonthsCanCollide`). The total survives all the same for up to twelve figures (`ImportLosesNothing`); a longer list is
  counted in full exactly when its non-zero figures all fall in the window (`CountedInFullIff`).
* A warm part is never stale if no sale is dated after today (`WarmPartsAreNotStale`). Velocity reads the whole current
  month while classification ignores future dates, so without that condition it holds exactly on the last day of
  a month (`WarmIsLiveIffLastDay`).
* Carrying out one recommendation settles every source, by the velocity its excess was computed with, and leaves it at or above
  its reorder point (`SourcesStaySettled`). It settles the destination exactly when its recorded in-transit stock was not negative,
  because planning clamps a negative value but the credit is added to the raw one (`DestinationIsSettledIff`).
* Nothing is reserved, so two recommendations of one run can draw the same excess (`OneRunCanOverdraw`), and a center gives by its own
  velocity but is planned by the aggregate (`CenterCanGiveWhatItNeeds`). After any number of recommendations, and by any velocity, a
  source orders nothing exactly when what is drawn from it in all leaves it at its target, or its in-transit stock alone
  covers the target (`SourceIsSettledIff`).
* A row left pending from an earlier run ends a whole run. A branch or center run finishes exactly when no part that it would
  recommend, and that has no row of this run yet, has a row still pending (`GenerationFinishesIff`); a tenant-wide run
  when that holds at every active branch (`TenantRunFinishesIff`).
* Recalculation saves the caller's copy without locking the row. Whatever the age of the copies, there is at most one pending row
  per branch and part (`OnePendingOverEveryRun`) and whatever is ordered was approved before (`OrderedWasApproved`). Three
  other properties hold over a run of copies that were once read from the table exactly as long as recalculation stays off certain rows:
  at most one row per branch, part and run date, unless a recalculation brings a deleted row back beside another of its run
  (`OnePerRunIff`; `StaleRecalculationDoublesARow` gives a run that does); ordered rows are final, unless a recalculation goes through on a row
  stored as ordered (`OrderedIsFinalIff`; `StaleRecalculationDeletesAnOrder`); the logged states fit the rows, unless one goes through on a row
  stored as decided (`LoggedStatesFormAPathIff`; `StaleRecalculationErasesADecision`). It goes through exactly when the copy is pending,
  branch and part exist, and no other row of them is pending unless nothing is recommended any more (`RecalculatesIff`).
* Permission is judged on the caller's copy. A row can be decided without a gerente exactly when that copy does not cross
  coordinators, whatever the row itself does (`GerenteIsBypassedIff`, `StaleCopyIsDecidedByTheManager`); for a row that crosses this
  means a copy with another source (`OnlyStaleCopiesBypassTheGerente`). The state recorded as the one before a
  decision is likewise the copy's; the one recorded after it is the row's.
* A bulk action on current rows fails as a whole exactly when it has rows to decide and either the user is of another tenant, which
  a gerente can be without being refused, or a row to be decided is listed twice (`BulkIsExact`, `RepeatedRowUndoesTheBulk`).
  Repeated rows that are not pending or not permitted are skipped every time.
* The throttle queries the recipient's tenant while rows carry the service's tenant: a recipient of another tenant, or of none, is never
  throttled (`ForeignUsersAreNeverThrottled`). The hour holds for every other recipient, whoever else is written to.
* A negative in-transit record survives until the first transfer arrives, which lifts it to zero. Of each open transfer the first call
  that names a positive quantity counts, and no other (`CallsReceive`, `RunsSettleStock`); full arrivals leave the total unchanged
  exactly when there are none or the record covers the transfers called (`TotalIsConservedIff`).
* A center that is recorded as its own dependent is counted once by the aggregate and twice by the planner, and the
  difference is exactly its own velocity (`PlannerAgainstSet`, `AggregateEqualsSum`). The model check that forbids this,
  `apps/branches/models.py:67-80`, is not enforced by a plain save.
* Cleanup of overrides changes a lookup exactly when the lookup returned an expired override (`CleanupIsInvisibleIff`), so only
  runs dated before today can tell (`CleanupIsInvisible`, `CleanupIsVisibleToPastRuns`).
* A tenant-wide run plans a center by its own sales, recalculation by the aggregate; for centers that were planned as centers
  and branches planned as branches, recalculation confirms generation (`RecalculationConfirmsGeneration`).
* The written approval workflow excludes a return from rejected to pending; the code allows it
  (`apps/recommendations/models.py:166-185`), and so does the model.

## Model

| member | source | states |
|---|---|---|
| Velocity.WeightsSumToLength | apps/catalog/services.py:98-101 | the weights add up to the number of months for every history of two or more, to one half for a single month |
| Velocity.VelocityIsAdditive | apps/catalog/services.py:93-102 | the velocity of two series added month by month is the sum of their velocities |
| Velocity.VelocityBetween | apps/catalog/services.py:93-102 | the velocity lies between any bounds of the months |
| Velocity.FlatHistoryIsExact | apps/catalog/services.py:93-102 | a flat history of any length is reproduced exactly |
| Velocity.VelocityZeroIffColdStart | apps/catalog/services.py:195-200 | for sales that are never negative, velocity is zero if and only if the history is cold-start |
| Velocity.RisingAboveMean | apps/catalog/services.py:93-102 | a non-decreasing history is weighted above its plain mean by at least half its rise divided by its length |
| Velocity.NonDecreasingAtLeastMean | apps/catalog/services.py:93-102 | a non-decreasing history never averages below its mean, and strictly above it unless constant |
| Calendar.MonthNo | apps/catalog/services.py:159 | the month of a date is one whose first and last day enclose it |
| Calendar.MonthIsUnique | apps/catalog/services.py:159 | every date lies in exactly one month |
| Calendar.FirstOfJanuary | apps/catalog/services.py:159 | the ordinal of every first of January by the rule of 4, 100 and 400 years, 1 being that of year 1 |
| Calendar.DaysBeforeTable | apps/catalog/services.py:159 | the days before each month of a common year |
| Calendar.TwelveMonths | apps/catalog/services.py:82-89 | any twelve consecutive months have 365 days, or 366 exactly when they contain a leap day |
| Calendar.ElevenMonths | apps/catalog/services.py:82-89 | any eleven consecutive months have at least 334 days |
| Calendar.ElevenStepsStayInWindow | apps/inventory/services.py:158-159 | up to eleven steps of thirty days back from any date stay in the twelve-month window |
| Calendar.SameMonthBackIff | apps/inventory/services.py:158-159 | thirty days back stay in the month if and only if the date is a 31st |
| Calendar.MonthIsSkippedIff | apps/inventory/services.py:158-159 | thirty days back skip a month if and only if the day and the length of the month before add up to at most thirty |
| Calendar.OwnMonthsIff | apps/inventory/services.py:156-159 | the dates of n figures lie in pairwise different months if and only if none but the last is a 31st |
| Calendar.WindowIsAtMostAYear | apps/catalog/classification.py:223-229 | a date in the twelve-month window is at most 365 days old, the bound classification uses |
| Sales.MonthSequence | apps/catalog/services.py:76-90 | the months are consecutive, end with the current one, and are proper calendar months; none for a non-positive count |
| Sales.BucketSales | apps/catalog/services.py:142-163 | the dictionary holds, for every month of the queried years, the units sold in it |
| Sales.GetMonthlySales | apps/catalog/services.py:130-167 | the series read from the buckets is the month totals of the window, oldest first |
| Sales.AppendMovement | apps/catalog/services.py:142-167 | one more movement raises the window total by its units if it is a sale in scope dated in the window, else not at all |
| Ingestion.MovementTable.RecordMovementFromSale | apps/inventory/services.py:264-287 | inserts a missing key, overwrites a single match, fails on several and then changes nothing |
| Ingestion.MovementTable.ImportFigures | apps/inventory/services.py:158-170 | the figures of one part are recorded one by one, zeros skipped, up to the first failure |
| Ingestion.MovementTable.ImportBranch | apps/inventory/services.py:145-170 | the known parts of one branch are recorded in order, unknown ones skipped |
| Ingestion.MovementTable.ImportSales | apps/inventory/services.py:125-178 | table and count after an import are those of recording, in order, all figures of known branches and parts |
| Ingestion.FailedPrefix | apps/inventory/services.py:277-286 | what an import that fails has recorded does not depend on the data after the failure |
| ImportProperties.FreshRecordsAreAppended | apps/inventory/services.py:277-286 | records whose keys are new and distinct are all appended, each counted once |
| ImportProperties.ImportAddsItsFigures | apps/inventory/services.py:158-170 | an import of new keys raises the window total of every part by exactly its figures dated in the window |
| ImportProperties.FiguresBecomeSales | apps/inventory/services.py:158-169 | after an import into any table every non-zero figure of a known branch and part is the one imported sale of its day, with negative units and thirty days back per place |
| ImportProperties.CountedInFullIff | apps/catalog/services.py:142-167 | a list of any length is counted in full if and only if every non-zero figure is dated in the window |
| ImportProperties.ImportLosesNothing | apps/inventory/services.py:158-170 | for any date and lists of up to twelve figures, import followed by the twelve-month window gives the same total for every branch and part |
| ImportProperties.MonthsCanCollide | apps/inventory/services.py:156-159 | the instance of every 31 January: the first two figures share the month and December stays empty |
| FigureMonths.FiguresHaveTheirMonthsIff | apps/inventory/services.py:156-170 | after an import into empty months every recorded figure has its month to itself if and only if no two neighbouring figures are recorded with the newer one on a 31st |
| ImportProperties.SameDayImportIsIdempotent | apps/inventory/services.py:274-286 | repeating a finished import on the same day leaves the table unchanged and counts the same records |
| DcVelocity.AddInto | apps/catalog/services.py:294-295 | the running totals grow in place by the monthly sales, month by month |
| DcVelocity.CalculateForDc | apps/catalog/services.py:261-304 | the result is built from the series summed over all parts, the center and its dependents, an empty one for no or negative months; any other branch is an error |
| DcVelocity.AnnualSalesAppend | apps/catalog/services.py:196 | annual sales are the units sold in the window: one more movement counts if it is a sale of the part at the branch in it |
| DcVelocity.SumOfVelocities | apps/catalog/planning.py:376-383 | averaging the summed sales of distinct branches equals summing their averages |
| DcVelocity.PlannerAgainstSet | apps/recommendations/services.py:197-211 | the generator's center velocity equals that of the pooled series, plus the center's own once more if it is its own dependent |
| DcVelocity.AggregateEqualsSum | apps/catalog/services.py:283-304 | one velocity over all parts and branches equals the planner's velocities summed over the parts, up to that same term |
| Classification.LastSale | apps/catalog/classification.py:213 | the result is the date of some past sale, and no past sale is later |
| Classification.StagesExactly | apps/catalog/classification.py:186-238 | for each of the seven stages, exactly when a part is in it: flags, sales within 365 and 730 days, months of age, stock |
| Classification.StageCodes | apps/catalog/classification.py:90-99 | the code beside each stage, for new parts by the units of their first 180 days |
| Classification.FirstSixMonthsAreCounted | apps/catalog/classification.py:154-167 | the count is the whole units sold in the 180 days from the part's creation |
| Classification.QuantityBetweenAppend | apps/catalog/classification.py:161-166 | one more movement counts with its sign if it is a past sale between the dates |
| Classification.MonthsAreCalendarMonths | apps/catalog/classification.py:169-174 | the age of a part is the number of calendar months since its creation |
| Classification.StaleIff | apps/catalog/classification.py:186-238 | exactly when a part is Obsolete, Pre-Obsolete or Inactive, in terms of its sales, age, flags and stock |
| Classification.WarmPartsAreNotStale | apps/catalog/classification.py:206-238 | a part that is not cold-start is never stale, whatever the month lengths, if no sale is dated ahead |
| Classification.FutureSaleMakesAWarmPartStale | apps/catalog/classification.py:130-138 | on any day but the last of a month two sales, one of them dated tomorrow, make a warm part Obsolete |
| Classification.LastDayOfMonthIsSafe | apps/catalog/classification.py:206-238 | on the last day of a month a warm part is never stale, whatever the dates of its sales |
| Classification.WarmIsLiveIffLastDay | apps/catalog/classification.py:130-138 | with no condition on dates, warm parts are never stale if and only if it is the last day of a month |
| StableSort.SortKeepsElements | apps/recommendations/source_resolution.py:188 | sorting is a permutation |
| StableSort.SortSorts | apps/recommendations/source_resolution.py:188 | the result is ordered by any total preorder |
| StableSort.SortIsStable | apps/recommendations/source_resolution.py:188 | ties keep their order |
| StableSort.StableOrderIsUnique | apps/recommendations/source_resolution.py:188 | order, permutation and stability determine the result |
| Sector.VcLabelIsOfGreatestReached | apps/sector/models.py:103-114 | the label is that of a greatest threshold not above the sales, empty if there is none |
| Sector.VcLabelIgnoresOrder | apps/sector/models.py:103-114 | permuting distinct thresholds never changes the label |
| Sector.StageBySalesIsExact | apps/sector/models.py:148-186 | for every configuration: the longest rule if all are reached, then without stock the longest of its kind, then with stock the shortest reached one |
| Sector.StageByAgeIsExact | apps/sector/models.py:188-204 | for every configuration: the lowest upper age if the part is within it, then the first rule that asks for nothing, then the first rule |
| Sector.DefaultThresholdsAgree | apps/sector/models.py:18-52 | the shipped thresholds give the hard-coded volume class for every sales figure |
| Sector.DefaultStagesAgree | apps/sector/models.py:128-204 | the shipped stages give the hard-coded lifecycle stage for every input, missing values included |
| Overrides.OverrideTable.CreateOverride | apps/catalog/overrides.py:58-134 | outcome and table are those of the creation that the next row describes |
| Overrides.CreationIsExact | apps/catalog/overrides.py:77-120 | exactly which requests are refused; otherwise the persistent row of the scope is refreshed in place, or one row with everything the request names is appended |
| Overrides.Newest | apps/catalog/overrides.py:164-171 | the result satisfies the query and no other row that does is newer; none if no row does |
| Overrides.OverrideTable.GetActiveOverride | apps/catalog/overrides.py:136-183 | the scan returns the override that the next row describes |
| Overrides.LookupByPriority | apps/catalog/overrides.py:145-183 | for every table and lookup: a newest row in scope that is with-expiry and not expired on the run date; if there is none a newest persistent one; then a newest one of the non-empty run id; none exactly when there is none of the three |
| Overrides.OverrideTable.CleanupExpiredOverrides | apps/catalog/overrides.py:185-204 | exactly the expired rows go, the others keep their order, and the count is of those removed |
| Overrides.CleanupIsExact | apps/catalog/overrides.py:190-202 | a row is removed if and only if it is with-expiry and expired before today, every other stays as often as it was there |
| Overrides.CleanupIsInvisibleIff | apps/catalog/overrides.py:136-204 | for any run date, cleanup leaves a lookup unchanged if and only if the lookup does not return an expired override |
| Overrides.CleanupIsInvisible | apps/catalog/overrides.py:136-204 | cleanup changes no lookup for any part, branch, run id and run date from today on |
| Overrides.CleanupIsVisibleToPastRuns | apps/catalog/overrides.py:190-202 | a run dated no later than the expiry of a removed override loses it |
| Overrides.RunsKeepValid | apps/catalog/overrides.py:71-73 | over every run of creation and cleanup ids stay distinct and each scope, tenant-wide included, has at most one persistent override |
| Overrides.PersistentIsUnique | apps/catalog/overrides.py:89-109 | two persistent overrides of one scope are the same row |
| Overrides.PersistentOverrideTakesEffect | apps/catalog/overrides.py:168-173 | after any run, a persistent override just set is the one returned, unless a valid expiring one precedes it |
| Notifications.NotificationService.SendEmailNotification | apps/notifications/services.py:29-75 | one email row is added, marked sent or failed as the delivery went |
| Notifications.NotificationService.SendInAppNotification | apps/notifications/services.py:77-103 | one in-app row is added |
| Notifications.NotificationService.AskThrottle | apps/notifications/throttling.py:17-33 | true if and only if no email of the type reached the user within the hour, by the recipient's tenant |
| Notifications.NotificationService.SendNotification | apps/notifications/services.py:105-151 | the table grows by exactly the returned rows: an email and an in-app record if no email of the type reached the user within the hour, the in-app record alone otherwise |
| Notifications.SendIsExact | apps/notifications/services.py:120-151 | the email row is sent at the delivery if it succeeds and failed otherwise, and exists if and only if no row of the user's tenant is such an email of the last 3600 seconds |
| Notifications.EmailsAreSpaced | apps/notifications/throttling.py:17-33 | over every run with a clock that does not run back, emails of one type to a user of the tenant are more than an hour apart, whoever else is written to |
| Notifications.ForeignUsersAreNeverThrottled | apps/notifications/throttling.py:26-33 | over every run, a recipient outside the service's tenant always passes the throttle |
| Notifications.ForeignUsersAreAlwaysMailed | apps/notifications/services.py:120-132 | after any run, a call to such a recipient adds an email row again |
| Notifications.OneInAppRecordPerCall | apps/notifications/services.py:141-150 | over every run there are as many in-app records as calls |
| Transit.Transfer.MarkReceived | apps/inventory/models.py:178-210 | errors, status and stock after a call, with nothing changed by repeats and refused calls |
| Transit.RefusedIff | apps/inventory/models.py:180-188 | exactly which calls are refused for which reason, and which are accepted |
| Transit.ReceiptIsExact | apps/inventory/models.py:200-204 | an accepted call adds what it names or else the whole transfer, and takes the transfer out of transit down to zero |
| Transit.CallsReceive | apps/inventory/models.py:178-210 | after any calls a transfer is received if and only if it was open and some call on it names a positive quantity; every other transfer is as it was |
| Transit.RunsSettleStock | apps/inventory/models.py:178-210 | after any calls in any order with repeats, in-transit is the initial amount less all transfers so received, floored at zero once there is one, and available grows by the first positive quantity named for each |
| Transit.FullArrivalsAreDischarges | apps/inventory/models.py:186-204 | if calls name full quantities, what they bring in is the sum of the transfers they receive |
| Transit.TotalIsConservedIff | apps/inventory/models.py:200-204 | full arrivals leave the total unchanged if and only if no open transfer is called or the initial in-transit stock, negative records included, covers those that are |
| Transit.RepeatedCallsDoNothing | apps/inventory/models.py:180-181 | a transfer received once ignores every later call, whatever calls come in between |
| Planning.PlanIsBalanced | apps/catalog/planning.py:141-179 | for every input: the target is thirty-day demand over all planned days, the reorder point is above it by the lead days, the order fills exactly the gap between position and target, the excess is exactly what the position has above the reorder point, and the trigger compares available stock |
| Planning.BalanceIsUnique | apps/catalog/planning.py:270-301 | those relations leave no other plan with the same velocity and stock |
| Planning.ConfiguredDays | apps/catalog/planning.py:98-110 | a configured number of days that is not negative is used, otherwise 30 for the period and 10 for security |
| Planning.OrderAndExcessExclude | apps/catalog/planning.py:270-301 | the reorder point is never below the target; excess means a position above it and no order; an order means triggered and no excess |
| Planning.GiverStaysAboveTarget | apps/catalog/planning.py:161-179 | a branch that gives up to its excess orders nothing and stays at or above its reorder point, even where clamping applies |
| Planning.GiverIsSettledIff | apps/catalog/planning.py:270-301 | whatever a branch gives and by whatever velocity it is planned: exactly when it then orders nothing |
| Planning.TakerIsSettledIff | apps/catalog/planning.py:286-299 | once the order is credited as in transit nothing more is ordered, if and only if the raw in-transit stock was not negative |
| SourceResolution.GreedyAllocate | apps/recommendations/source_resolution.py:191-206 | the loop computes the greedy plan whose properties the next rows state |
| SourceResolution.GreedyDelivers | apps/recommendations/source_resolution.py:197-206 | the plan delivers the need or all there is, whichever is less |
| SourceResolution.GreedyShape | apps/recommendations/source_resolution.py:199-205 | sources are taken in order, all but the last are drained, none gives more than its excess |
| SourceResolution.DeliveryIgnoresOrder | apps/recommendations/source_resolution.py:191-206 | the amount delivered does not depend on the order of the candidates |
| SourceResolution.GreedyUsesFewest | apps/recommendations/source_resolution.py:191-206 | over candidates in descending order no feasible plan that delivers as much uses fewer branches |
| SourceResolution.PlanUsesFewestSources | apps/recommendations/source_resolution.py:175-206 | sorted and allocated, no feasible plan that draws on the parent center first and delivers as much uses fewer branches |
| SourceResolution.CenterFirstCanCostASource | apps/recommendations/source_resolution.py:180-188 | with the center first the plan can use two sources where one would do |
| FewestSources.LeastCoverIsLeast | apps/recommendations/source_resolution.py:196-206 | the number k of first candidates covers the amount and no smaller number does |
| FewestSources.PlanUsesFewestIff | apps/recommendations/source_resolution.py:175-206 | no feasible plan that delivers as much uses fewer branches if and only if the center and its k - 1 largest companions cover the target, k being the least number of largest candidates that do |
| FewestSources.CenterCostsAtMostOne | apps/recommendations/source_resolution.py:175-206 | the plan uses at most one source more than any feasible plan that delivers as much |
| SourceResolution.AmountsDescend | apps/recommendations/source_resolution.py:196-206 | over candidates in descending order the amounts never increase |
| SourceResolution.PrimaryIsLargestIff | apps/recommendations/source_resolution.py:95-98 | the exact condition on the candidates under which the primary source gives the most |
| SourceResolution.BreakdownConservesQuantity | apps/recommendations/source_resolution.py:58-93 | in every case the breakdown adds up to the recommended quantity |
| SourceResolution.ResolutionReportsTheGap | apps/recommendations/source_resolution.py:60-98 | source, partial flag and gap in terms of the candidates alone |
| SourceService.FindCandidates | apps/recommendations/source_resolution.py:47-52 | the candidates are the active branches other than the destination with stock and positive excess, in table order |
| SourceService.Recommendation.WriteResolution | apps/recommendations/source_resolution.py:58-104 | the fields written are the resolution of the allocations |
| SourceService.Recommendation.ResolveSources | apps/recommendations/source_resolution.py:40-127 | the fields written are those of the generator's draft; they draw on the branches that can give, in order, as `DrawsOnBranches` and `DrawsInOrder` say; the notices follow from the partial flag and from the coordinators of both ends |
| Proposals.ResolutionDrawsOnBranches | apps/recommendations/source_resolution.py:41-104 | internal if and only if some active other branch holds stock with excess; the branches give the lesser of the need and all their excess, each within its own; the supplier fills the rest; flag, gap and source field accordingly |
| Proposals.ResolutionDrawsInOrder | apps/recommendations/source_resolution.py:175-206 | every line is drawn from the parent center if it can give and is not drawn on yet, otherwise from a branch of greatest excess, and is drained before the next |
| Market.Dependents | apps/recommendations/services.py:201-205 | exactly the active branches whose parent is the center |
| Market.CandidatesAreTheSources | apps/recommendations/source_resolution.py:129-173 | the candidates are exactly the branches that qualify, each with its excess |
| Market.GuardsAgree | apps/recommendations/services.py:237-284 | the cold-start guard and the guard on a velocity that is not positive decide alike |
| Proposals.PlanIsForTheBranch | apps/catalog/planning.py:205-318 | the plan of a part at a branch is balanced over the recorded stock, the tenant's days and the velocity of the override in force or else the calculated one |
| Proposals.OverrideIsPlannedWith | apps/catalog/planning.py:245-253 | a persistent override without a valid expiring one beside it is the velocity planned with |
| Proposals.ExcessIsAboveReorderPoint | apps/recommendations/source_resolution.py:147-173 | excess is that of the balanced plan by the branch's own velocity, and none without a stock record |
| Proposals.ColdStartIff | apps/catalog/services.py:186-200 | a part is not cold-start at a branch if and only if the branch sold it in the twelve months up to the current one |
| Proposals.ProposalsAreExact | apps/recommendations/services.py:226-272 | a branch run recommends a part if and only if it was sold in the window, is not excluded and its plan has a gap; the draft orders that gap, carries plan, velocity and stage, and draws on the branches that can give |
| Proposals.ProposalsWithAreExact | apps/recommendations/services.py:274-320 | the same for a velocity given from outside, which must be positive |
| Proposals.CenterVelocityIsPooled | apps/recommendations/services.py:197-211 | a center that is not its own dependent is planned by the pooled sales of itself and the active branches below it |
| Market.OnlyLiveParts | apps/recommendations/services.py:236-254 | whatever a branch is proposed is for a New, Active or Campaign part, if no sale is dated ahead |
| Repeats.BranchRunsAreForLiveParts | apps/recommendations/services.py:64-83 | every row a branch run creates is for a New, Active or Campaign part, if no sale is dated ahead |
| Repeats.TenantRunsAreForLiveParts | apps/recommendations/services.py:85-96 | the same for every row of a tenant-wide run |
| Market.SourcesAreNotRecipients | apps/recommendations/services.py:256-263 | a branch that is to send a part is itself proposed none of it |
| Market.SourcesStaySettled | apps/recommendations/source_resolution.py:147-173 | after a recommendation is carried out every source still orders nothing and is not below its reorder point |
| Market.DestinationIsSettledIff | apps/catalog/planning.py:161-172 | after it is carried out the destination orders nothing, if and only if its recorded in-transit stock was not negative |
| RunSettlement.SourceIsSettledIff | apps/recommendations/source_resolution.py:147-173 | after any number of recommendations resolved against the same tables, and by any velocity, a source orders nothing if and only if what is drawn in all leaves it at its target or its in-transit stock covers the target |
| RunSettlement.OneRunCanOverdraw | apps/recommendations/source_resolution.py:147-173 | a market in which two recommendations of one run draw the same excess and the giver then orders |
| RunSettlement.CenterCanGiveWhatItNeeds | apps/recommendations/services.py:197-211 | a center whose whole stock is excess by its own velocity and that orders by the aggregate once it is given away |
| Store.GetCoordinatorScope | apps/recommendations/permissions.py:28-38 | the loops collect the branches of all coordinator roles, none for another tenant |
| RecommendationStore.Recommendations.SaveRow | apps/recommendations/models.py:138-144 | a save that would leave two pending rows for a branch and part fails and changes nothing |
| RecommendationStore.Recommendations.TransitionRecommendation | apps/recommendations/transitions.py:17-68 | the stored row moves, or one of the errors is raised and nothing changes |
| RecommendationStore.Recommendations.TransitionAndLogEntry | apps/recommendations/services.py:436-483 | permission, role and transition in that order; one entry on success, nothing on failure; what each action leads to is in `Decisions.DecisionIsExact` |
| RecommendationStore.Recommendations.DecideOne | apps/recommendations/services.py:530-562 | approve checks twice, the other actions once, and all end in a logged transition |
| Decisions.DecisionIsExact | apps/recommendations/services.py:420-562 | a decision succeeds if and only if the user has authority over the copy, is of the tenant, and the stored row is in a state that accepts the action; it then leaves that row alone Approved, Rejected, Handled or Ordered by the action, and adds the one entry that says so; a refusal names the first reason |
| Decisions.LegalMoves | apps/recommendations/models.py:166-185 | the seven moves of the state machine and no other |
| Decisions.BulkDecisionsAreExact | apps/recommendations/services.py:588-616 | for copies of any age, every returned row is in the action's own end state and has its entry, in the same order |
| Decisions.CrossApprovalIsExact | apps/recommendations/services.py:489-528 | only a gerente of the tenant, on a pending row; an approval and its notice |
| Decisions.CrossingIff | apps/recommendations/permissions.py:41-54 | a row crosses if and only if source and destination have coordinators and they are two people |
| Decisions.WhoDecides | apps/recommendations/permissions.py:57-83 | on a current copy, between two coordinators exactly a gerente decides, otherwise the branch manager does as well |
| RecommendationStore.Recommendations.ApproveCrossCoordinatorTransfer | apps/recommendations/services.py:489-528 | only a gerente; two entries on success |
| RecommendationStore.Recommendations.BulkTransition | apps/recommendations/services.py:564-616 | skips rows not pending or not permitted; any other error restores table and log |
| RecommendationStore.Recommendations.CreateRecommendation | apps/recommendations/services.py:338-407 | a new pending row, or an error when the part has a pending row at the branch |
| RecommendationStore.Recommendations.MaybeGenerateForPart | apps/recommendations/services.py:226-320 | one step of the run that `Creations.RunCreatesExactly` describes: a part with a row of this run or without proposal is skipped |
| RecommendationStore.Recommendations.GenerateForParts | apps/recommendations/services.py:68-75 | part by part; an error ends the loop and keeps the rows already created |
| RecommendationStore.Recommendations.GenerateForBranch | apps/recommendations/services.py:64-83 | table, created rows and error of a branch run |
| RecommendationStore.Recommendations.GenerateForDc | apps/recommendations/services.py:98-137 | the same for a center by its aggregate velocity; any other branch is an error |
| RecommendationStore.Recommendations.GenerateForTenant | apps/recommendations/services.py:85-96 | every active branch in order, up to the first error |
| RecommendationStore.Recommendations.RecalculateRecommendation | apps/recommendations/services.py:139-195 | refreshes the pending copy, or deletes the row when nothing is to be ordered |
| Creations.RecalculationIsExact | apps/recommendations/services.py:139-195 | a recalculation that goes through deletes the row if and only if the part is no longer in need by the branch's own or the center's aggregate velocity; otherwise the copy is saved with a draft that says what is needed now; no other row changes |
| StoreRuns.TransitionIff | apps/recommendations/models.py:166-198 | exactly when a transition succeeds or is refused as already decided, and that it leaves draft, run date, log and every other row alone |
| StoreRuns.OnePendingOverEveryRun | apps/recommendations/models.py:137-144 | over every run, with copies of any kind and age, at most one pending row per branch and part |
| StoreRuns.RunsKeepIdentities | apps/recommendations/models.py:29-136 | over every run of genuine copies no id is given twice and a row keeps its branch, part and run date even beyond deletion |
| StoreRuns.RecalculationKeepsOnePerRunIff | apps/recommendations/services.py:139-195 | a recalculation keeps one row per branch, part and run date if and only if it does not bring a deleted row back beside another |
| StoreRuns.OnePerRunIff | apps/recommendations/services.py:322-336 | over every run of genuine copies there is always at most one row per branch, part and run date if and only if no recalculation does that |
| StoreRuns.RecalculatesIff | apps/recommendations/services.py:139-195 | a recalculation succeeds if and only if the copy is pending, branch and part exist, and no other row of them is pending unless nothing is recommended any more |
| StoreRuns.OrderedIsFinalIff | apps/recommendations/models.py:183 | over every run of genuine copies ordered rows never change again if and only if no recalculation meets those conditions on a row stored as ordered |
| StoreRuns.OrderedWasApproved | apps/recommendations/models.py:173-176 | over every run, with copies of any kind and age, whatever is ordered was approved at some moment before |
| StoreRuns.RecalculationKeepsOrderedIff | apps/recommendations/services.py:139-195 | a recalculation leaves all ordered rows alone if and only if it does not meet those conditions on one |
| StaleCopies.StaleRecalculationErasesADecision | apps/recommendations/services.py:157-159 | a run through the services with the copy read while pending that leaves an approval in the log and no row |
| StaleCopies.StaleRecalculationDeletesAnOrder | apps/recommendations/services.py:157-159 | a run through the services with the copy read while pending that deletes an ordered row |
| StaleCopies.StaleRecalculationDoublesARow | apps/recommendations/services.py:182-193 | a run of genuine copies that ends with two rows of one branch, part and run date |
| AuditTrail.CanApproveIffAuthority | apps/recommendations/permissions.py:57-83 | who may decide, said without loops and order of checks: gerente, or for rows that do not cross coordinators a coordinator in scope or the branch manager |
| AuditTrail.DecisionIsJustified | apps/recommendations/services.py:436-483 | each decision adds exactly one entry, made with authority over the copy, and over the row itself if the copy crosses coordinators whenever the row does |
| AuditTrail.GerenteIsBypassedIff | apps/recommendations/permissions.py:69-81 | a row that an action may move can be decided without a gerente if and only if the copy does not cross coordinators |
| AuditTrail.OnlyStaleCopiesBypassTheGerente | apps/recommendations/permissions.py:69-73 | a crossing row decided without a gerente means the copy did not cross and showed another source |
| AuditTrail.StaleCopyIsDecidedByTheManager | apps/recommendations/permissions.py:80-81 | with a copy that shows no source the branch manager approves a crossing row |
| AuditTrail.EveryDecisionIsJustified | apps/recommendations/services.py:446-472 | over every run, every decision in the log belongs to a request made with authority on a row of that moment |
| AuditTrail.BulkLogsItsResult | apps/recommendations/services.py:596-616 | a bulk action logs one entry per returned row, in the same order |
| AuditTrail.LoggedStatesFormAPathIff | apps/recommendations/services.py:460-472 | over every run of genuine copies without direct transitions, the logged states of every row always form a legal path from pending to its present state if and only if no recalculation meets its conditions on a row stored as decided |
| BulkProperties.BulkIsExact | apps/recommendations/services.py:588-616 | on current rows in any order and with repeats: the action succeeds if and only if nothing is to be decided, or the user is of the tenant and nothing is to be decided twice; then exactly the pending rows the user may act on are decided, returned in order and logged, else nothing changes |
| BulkProperties.RepeatedRowUndoesTheBulk | apps/recommendations/services.py:588-616 | a pending and permitted row listed at two places, wherever they are, makes the action fail and leaves table and log as they were |
| Repeats.GenerationFinishesIff | apps/recommendations/services.py:354-366 | a branch or center run finishes if and only if nothing it would recommend, without a row of this run, has a row still pending |
| Repeats.TenantRunFinishesIff | apps/recommendations/services.py:85-96 | a tenant-wide run finishes if and only if that holds at every active branch |
| Creations.RunCreatesExactly | apps/recommendations/services.py:64-83 | a run that finishes creates, in order, one pending row for each part that is proposed and has no row of the run date, returns exactly their ids, and changes nothing else |
| Creations.StoppedRunIsAPrefix | apps/recommendations/services.py:68-75 | a run that stops has done the parts before a blocked one, and those alone |
| Creations.GenerationCreatesExactly | apps/recommendations/services.py:98-137 | the same for branch and center runs |
| Creations.CreatedRowsSay | apps/recommendations/services.py:338-407 | every created row orders the gap of its plan and draws on the branches that can give, by the branch's own or the center's aggregate velocity |
| Creations.TenantRunCreates | apps/recommendations/services.py:85-96 | a tenant-wide run that finishes creates a row for every part due at an active branch |
| Repeats.SecondGenerationChangesNothing | apps/recommendations/services.py:226-272 | a second branch or center run over unchanged data creates nothing, changes nothing, and raises the error of the first if it had one |
| Repeats.SecondTenantRunChangesNothing | apps/recommendations/services.py:85-96 | the same for a tenant-wide run |
| Repeats.RecalculationIsIdempotent | apps/recommendations/services.py:139-195 | recalculating a current row twice is recalculating it once |
| Repeats.RecalculationConfirmsGeneration | apps/recommendations/services.py:139-195 | over unchanged data recalculation leaves what generation made, for centers planned as centers and branches as branches |
| Repeats.CreatedByTenantRun | apps/recommendations/services.py:85-96 | every row a tenant-wide run creates is what one of its active branches was proposed |
| Repeats.SourcesAndRecipientsAreDisjoint | apps/recommendations/services.py:85-96 | in one tenant-wide run no branch is recommended a part it is to send to another |
| Scheduling.Scheduler.ScheduledReplenishmentRun | apps/scheduling/jobs.py:27-68 | a recorded run is answered from its record, a new one generates and is recorded, a failing one leaves no record |
| Creations.FirstJobGenerates | apps/scheduling/jobs.py:49-68 | a job without a record creates exactly what is due, answers with the number of rows, and records it |
| Scheduling.FinishedJobIsAnsweredFromTheRecord | apps/scheduling/jobs.py:35-47 | once finished, a job returns its first count and touches nothing, whatever jobs and changes come in between |
| Scheduling.FailedJobFailsAgain | apps/scheduling/jobs.py:49-61 | a job that failed fails again over unchanged data and creates nothing more |

## Left out

- Floating-point and two-decimal rounding: quantities, weights and ratios are exact reals.
- The limits of the date type (years 1 to 9999): dates are unbounded in both directions.
- Stock turn, coverage days, projected demand and average stock in the velocity result: ratios that no later step reads.
- The 365-day sum that feeds the volume class and the stored classification rows: they do not influence generation.
- Dictionary-filling loops of the velocity and planning calculators over all parts: they repeat the per-part computation.
- Manual and automatic escalation and the assigned approver: fields that no modelled step reads.
- Labels, explanations, message texts and which notifications each event triggers.
- Stock and purchase-order synchronisation, purchase movements, the DMS adapters and their retries.
- The classification job, the notification dispatch job (which bypasses the throttle), the digest and read marks.
- Accounts, invitations, onboarding, views, dashboards and the superseded spike engine.
- Several tenants in one table: each table is that of one tenant, except for the tenant checks on users and recipients.
- Several in-memory copies of one transfer: a transfer is one object, so a stale copy received twice is not modelled.
- Overrides with one creation time: the database leaves their order open, the model uses table order.
- SourceService.FindCandidates: the source first lists branches with stock and then computes their excesses; the model does both in one pass.
- SourceService.Recommendation.ResolveSources: the final save of the row is not part of the contract; the generator stores the same values with the row.
- ImportProperties.SameDayImportIsIdempotent: speaks of one day only, because the thirty-day grid moves with the date.
- Store.GetCoordinatorScope: branch ids are given as such; a scope entry that is not a well-formed id is not modelled.
