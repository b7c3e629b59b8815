/** The nightly replenishment job and its record of finished runs (apps/scheduling/jobs.py). */
module Scheduling {
  import opened Prelude
  import opened Ids
  import opened Calendar
  import opened Market
  import opened Store
  import opened StoreRuns
  import opened Repeats
  import RecommendationStore

  /** How many recommendations a finished run created. */
  type Runs = map<(BranchId, Date), nat>

  datatype Job = Job(db: Db, runs: Runs, outcome: Result<nat, Error>)

  /** A recorded run is answered from the record; a run that fails leaves none. */
  function ReplenishmentRun(db: Db, runs: Runs, m: Data, branch: BranchId, runDate: Date): Job {
    var b := BranchOf(m.branches, branch);
    if b.None? then Job(db, runs, Err(DoesNotExist))
    else if (branch, runDate) in runs then Job(db, runs, Ok(runs[(branch, runDate)]))
    else
      var g := Generate(db, BranchRun, m, b.value, runDate);
      if g.error.Some? then Job(g.db, runs, Err(g.error.value))
      else Job(g.db, runs[(branch, runDate) := |g.created|], Ok(|g.created|))
  }

  class Scheduler {
    const store: RecommendationStore.Recommendations
    var runs: Runs

    constructor (store: RecommendationStore.Recommendations)
      ensures this.store == store && runs == map[]
    {
      this.store := store;
      runs := map[];
    }

    method ScheduledReplenishmentRun(m: Data, branch: BranchId, runDate: Date) returns (outcome: Result<nat, Error>)
      modifies this, store
      ensures Job(store.Contents(), runs, outcome)
              == ReplenishmentRun(old(store.Contents()), old(runs), m, branch, runDate)
    {
      var b := BranchOf(m.branches, branch);
      if b.None? {
        return Err(DoesNotExist);
      }
      if (branch, runDate) in runs {
        return Ok(runs[(branch, runDate)]);
      }
      var created, error := store.GenerateForBranch(m, b.value, runDate);
      if error.Some? {
        return Err(error.value);
      }
      runs := runs[(branch, runDate) := |created|];
      return Ok(|created|);
    }
  }

  datatype Call = Call(m: Data, branch: BranchId, runDate: Date)

  /** Tables and records after a series of jobs. */
  function RunJobs(db: Db, runs: Runs, calls: seq<Call>): (Db, Runs) {
    if calls == [] then (db, runs)
    else
      var (mid, recorded) := RunJobs(db, runs, calls[..|calls| - 1]);
      var c := calls[|calls| - 1];
      var job := ReplenishmentRun(mid, recorded, c.m, c.branch, c.runDate);
      (job.db, job.runs)
  }

  lemma {:induction false} RecordsAreFinal(db: Db, runs: Runs, calls: seq<Call>, key: (BranchId, Date))
    requires key in runs
    ensures key in RunJobs(db, runs, calls).1 && RunJobs(db, runs, calls).1[key] == runs[key]
  {
    if calls != [] {
      RecordsAreFinal(db, runs, calls[..|calls| - 1], key);
    }
  }

  /**
   A job that finished is answered with its first count for ever after, whatever jobs ran in between
   and whatever the data and the table have become, and touches nothing.
   */
  lemma FinishedJobIsAnsweredFromTheRecord(db: Db, runs: Runs, c: Call, between: seq<Call>, later: Db, now: Data)
    requires ReplenishmentRun(db, runs, c.m, c.branch, c.runDate).outcome.Ok? && BranchOf(now.branches, c.branch).Some?
    ensures var first := ReplenishmentRun(db, runs, c.m, c.branch, c.runDate);
            var recorded := RunJobs(first.db, first.runs, between).1;
            ReplenishmentRun(later, recorded, now, c.branch, c.runDate) == Job(later, recorded, first.outcome)
  {
    var first := ReplenishmentRun(db, runs, c.m, c.branch, c.runDate);
    RecordsAreFinal(first.db, first.runs, between, (c.branch, c.runDate));
  }

  /** A job that failed fails again over unchanged data, and creates nothing more. */
  lemma FailedJobFailsAgain(db: Db, runs: Runs, m: Data, branch: BranchId, runDate: Date)
    requires Numbered(db) && ReplenishmentRun(db, runs, m, branch, runDate).outcome.Err?
    ensures var first := ReplenishmentRun(db, runs, m, branch, runDate);
            ReplenishmentRun(first.db, first.runs, m, branch, runDate) == first
  {
    var b := BranchOf(m.branches, branch);
    if b.Some? {
      SecondGenerationChangesNothing(db, BranchRun, m, b.value, runDate);
    }
  }
}
