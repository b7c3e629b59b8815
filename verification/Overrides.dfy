/** Demand overrides: creation, lookup by priority, and cleanup (apps/catalog/overrides.py). */
module Overrides {
  import opened Prelude
  import opened Ids
  import opened Calendar

  datatype OverrideKind = Persistent | PerRun | WithExpiry

  /** branch None is a tenant-wide override. */
  datatype Override = Override(id: nat, part: PartId, branch: Option<BranchId>, kind: OverrideKind, amount: real,
                               expiresAt: Option<Date>, runId: string, createdBy: UserId, createdAt: int, notes: string)

  /** kind None stands for a type name that is not one of the three. */
  datatype Request = Request(part: PartId, branch: Option<BranchId>, amount: real, kind: Option<OverrideKind>,
                             user: UserId, expiresAt: Option<Date>, notes: string, runId: string)

  datatype OverrideError = InvalidType | ExpiryRequired | RunIdRequired | NegativeValue

  function Check(r: Request): Option<OverrideError> {
    if r.kind.None? then Some(InvalidType)
    else if r.kind.value.WithExpiry? && r.expiresAt.None? then Some(ExpiryRequired)
    else if r.kind.value.PerRun? && r.runId == "" then Some(RunIdRequired)
    else if r.amount < 0.0 then Some(NegativeValue)
    else None
  }

  // ----- queries: rows come newest first

  /** The newest row that satisfies p; rows of one instant keep their table order. */
  function Newest(p: Override -> bool, rows: seq<Override>): (r: Option<Override>)
    ensures r.Some? ==> r.value in rows && p(r.value)
    ensures r.None? <==> forall o :: o in rows ==> !p(o)
    ensures r.Some? ==> forall o :: o in rows && p(o) ==> o.createdAt <= r.value.createdAt
  {
    if rows == [] then None
    else
      var rest := Newest(p, rows[1..]);
      assert rows == [rows[0]] + rows[1..];
      if !p(rows[0]) then rest
      else if rest.Some? && rows[0].createdAt < rest.value.createdAt then rest
      else Some(rows[0])
  }

  predicate InScope(o: Override, part: PartId, branch: Option<BranchId>) {
    o.part == part && o.branch == branch
  }

  function ValidOn(part: PartId, branch: Option<BranchId>, runDate: Date): Override -> bool {
    (o: Override) => InScope(o, part, branch) && o.kind.WithExpiry? && o.expiresAt.Some? && o.expiresAt.value >= runDate
  }

  function PersistentFor(part: PartId, branch: Option<BranchId>): Override -> bool {
    (o: Override) => InScope(o, part, branch) && o.kind.Persistent?
  }

  function ForRun(part: PartId, branch: Option<BranchId>, runId: string): Override -> bool {
    (o: Override) => InScope(o, part, branch) && o.kind.PerRun? && o.runId == runId
  }

  /** With-expiry before persistent before per-run; an empty run id matches no run. */
  function ActiveOverride(rows: seq<Override>, part: PartId, branch: Option<BranchId>, runDate: Date, runId: string)
    : Option<Override>
  {
    var expiring := Newest(ValidOn(part, branch, runDate), rows);
    var persistent := Newest(PersistentFor(part, branch), rows);
    if expiring.Some? then expiring
    else if persistent.Some? then persistent
    else if runId != "" then Newest(ForRun(part, branch, runId), rows)
    else None
  }

  // ----- commands

  datatype Table = Table(rows: seq<Override>, nextId: nat)

  function Refreshed(o: Override, r: Request, now: int): Override {
    o.(amount := r.amount, createdBy := r.user, createdAt := now, notes := r.notes)
  }

  function Replace(rows: seq<Override>, id: nat, o: Override): (s: seq<Override>)
    ensures |s| == |rows|
  {
    seq(|rows|, i requires 0 <= i < |rows| => if rows[i].id == id then o else rows[i])
  }

  /** A persistent override of the same scope is updated in place; anything else is inserted. */
  function Create(t: Table, r: Request, now: int): Result<(Table, Override), OverrideError> {
    if Check(r).Some? then Err(Check(r).value)
    else
      var existing := if r.kind.value.Persistent? then Newest(PersistentFor(r.part, r.branch), t.rows) else None;
      if existing.Some? then
        var o := Refreshed(existing.value, r, now);
        Ok((t.(rows := Replace(t.rows, o.id, o)), o))
      else
        var o := Override(t.nextId, r.part, r.branch, r.kind.value, r.amount, r.expiresAt, r.runId, r.user, now,
                          r.notes);
        Ok((Table(t.rows + [o], t.nextId + 1), o))
  }

  predicate Expired(o: Override, today: Date) {
    o.kind.WithExpiry? && o.expiresAt.Some? && o.expiresAt.value < today
  }

  function Unexpired(rows: seq<Override>, today: Date): seq<Override> {
    if rows == [] then []
    else Unexpired(rows[..|rows| - 1], today) + if Expired(rows[|rows| - 1], today) then [] else [rows[|rows| - 1]]
  }

  class OverrideTable {
    var rows: seq<Override>
    var nextId: nat

    ghost function Contents(): Table
      reads this
    {
      Table(rows, nextId)
    }

    constructor ()
      ensures Contents() == Table([], 0)
    {
      rows, nextId := [], 0;
    }

    method CreateOverride(r: Request, now: int) returns (outcome: Result<Override, OverrideError>)
      modifies this
      ensures match Create(old(Contents()), r, now)
              case Ok((t, o)) => Contents() == t && outcome == Ok(o)
              case Err(e) => Contents() == old(Contents()) && outcome == Err(e)
    {
      if Check(r).Some? {
        return Err(Check(r).value);
      }
      if r.kind.value.Persistent? {
        var existing := Newest(PersistentFor(r.part, r.branch), rows);
        if existing.Some? {
          var o := Refreshed(existing.value, r, now);
          rows := Replace(rows, o.id, o);
          return Ok(o);
        }
      }
      var o := Override(nextId, r.part, r.branch, r.kind.value, r.amount, r.expiresAt, r.runId, r.user, now, r.notes);
      rows, nextId := rows + [o], nextId + 1;
      return Ok(o);
    }

    /** Scans for the newest valid with-expiry row, then falls back. */
    method GetActiveOverride(part: PartId, branch: Option<BranchId>, runDate: Date, runId: string)
      returns (active: Option<Override>)
      ensures active == ActiveOverride(rows, part, branch, runDate, runId)
    {
      active := None;
      var p := ValidOn(part, branch, runDate);
      var i := |rows|;
      assert rows[|rows|..] == [];
      while i > 0
        invariant 0 <= i <= |rows|
        invariant active == Newest(p, rows[i..])
      {
        i := i - 1;
        assert rows[i..][1..] == rows[i + 1..];
        if p(rows[i]) && (active.None? || rows[i].createdAt >= active.value.createdAt) {
          active := Some(rows[i]);
        }
      }
      assert rows[0..] == rows;
      if active.None? {
        active := Newest(PersistentFor(part, branch), rows);
        if active.None? && runId != "" {
          active := Newest(ForRun(part, branch, runId), rows);
        }
      }
    }

    method CleanupExpiredOverrides(today: Date) returns (deleted: nat)
      modifies this
      ensures Contents() == Table(Unexpired(old(rows), today), old(nextId))
      ensures deleted == |old(rows)| - |rows|
    {
      var kept: seq<Override> := [];
      deleted := 0;
      for i := 0 to |rows|
        invariant kept == Unexpired(rows[..i], today) && deleted == i - |kept|
      {
        assert rows[..i + 1][..i] == rows[..i];
        if Expired(rows[i], today) {
          deleted := deleted + 1;
        } else {
          kept := kept + [rows[i]];
        }
      }
      assert rows[..|rows|] == rows;
      rows := kept;
    }
  }

  // ----- what a lookup returns, in terms of the rows

  ghost predicate ExpiringRow(o: Override, part: PartId, branch: Option<BranchId>, runDate: Date) {
    o.part == part && o.branch == branch && o.kind == WithExpiry && o.expiresAt.Some? && runDate <= o.expiresAt.value
  }

  ghost predicate PersistentRow(o: Override, part: PartId, branch: Option<BranchId>) {
    o.part == part && o.branch == branch && o.kind == Persistent
  }

  ghost predicate RunRow(o: Override, part: PartId, branch: Option<BranchId>, runId: string) {
    o.part == part && o.branch == branch && o.kind == PerRun && runId != "" && o.runId == runId
  }

  /** A row of the table with the property, none with it being newer. */
  ghost predicate IsNewest(p: Override -> bool, rows: seq<Override>, active: Option<Override>) {
    active.Some? && active.value in rows && p(active.value)
    && forall o :: o in rows && p(o) ==> o.createdAt <= active.value.createdAt
  }

  /**
   For every table and every lookup: a newest expiring row that is still valid on the run date, if there
   is one; otherwise a newest persistent row; otherwise a newest row of the run; otherwise nothing.
   */
  lemma LookupByPriority(rows: seq<Override>, part: PartId, branch: Option<BranchId>, runDate: Date, runId: string)
    ensures var active := ActiveOverride(rows, part, branch, runDate, runId);
            if exists o :: o in rows && ExpiringRow(o, part, branch, runDate)
            then IsNewest((o: Override) => ExpiringRow(o, part, branch, runDate), rows, active)
            else if exists o :: o in rows && PersistentRow(o, part, branch)
            then IsNewest((o: Override) => PersistentRow(o, part, branch), rows, active)
            else if exists o :: o in rows && RunRow(o, part, branch, runId)
            then IsNewest((o: Override) => RunRow(o, part, branch, runId), rows, active)
            else active == None
  {
    var expiring := Newest(ValidOn(part, branch, runDate), rows);
    var persistent := Newest(PersistentFor(part, branch), rows);
    assert forall o :: ValidOn(part, branch, runDate)(o) <==> ExpiringRow(o, part, branch, runDate);
    assert forall o :: PersistentFor(part, branch)(o) <==> PersistentRow(o, part, branch);
    assert forall o :: runId != "" && ForRun(part, branch, runId)(o) <==> RunRow(o, part, branch, runId);
  }

  /** What a request leaves: the refreshed persistent row of its scope, or one more row with all it asked for. */
  lemma CreationIsExact(t: Table, r: Request, now: int)
    requires Valid(t)
    ensures Create(t, r, now).Err? <==>
              r.kind.None? || (r.kind == Some(WithExpiry) && r.expiresAt.None?)
              || (r.kind == Some(PerRun) && r.runId == "") || r.amount < 0.0
    ensures Create(t, r, now).Ok? ==>
              var (next, o) := Create(t, r, now).value;
              && o.part == r.part && o.branch == r.branch && Some(o.kind) == r.kind && o.amount == r.amount
              && o.createdBy == r.user && o.createdAt == now && o.notes == r.notes && o in next.rows
              && (if r.kind == Some(Persistent) && exists x :: x in t.rows && PersistentRow(x, r.part, r.branch)
                  then |next.rows| == |t.rows| && next.nextId == t.nextId
                       && (forall x :: x in t.rows && !PersistentRow(x, r.part, r.branch) ==> x in next.rows)
                       && (forall x :: x in next.rows ==> x == o || x in t.rows)
                  else next.rows == t.rows + [o] && o.id == t.nextId
                       && o.expiresAt == r.expiresAt && o.runId == r.runId)
  {
    if Create(t, r, now).Ok? {
      var (next, o) := Create(t, r, now).value;
      if r.kind == Some(Persistent) {
        assert forall x :: PersistentFor(r.part, r.branch)(x) <==> PersistentRow(x, r.part, r.branch);
        SetRowIsPresent(t, r, now);
        var existing := Newest(PersistentFor(r.part, r.branch), t.rows);
        if existing.Some? {
          var p :| 0 <= p < |t.rows| && t.rows[p] == existing.value;
          forall x | x in t.rows && !PersistentRow(x, r.part, r.branch)
            ensures x in next.rows
          {
            var i :| 0 <= i < |t.rows| && t.rows[i] == x;
            assert if i < p then Compatible(t.rows[i], t.rows[p]) else Compatible(t.rows[p], t.rows[i]);
            assert next.rows[i] == x;
          }
        }
      }
    }
  }

  /** Cleanup removes the with-expiry rows that expired before today and nothing else. */
  lemma {:induction false} CleanupIsExact(rows: seq<Override>, today: Date, o: Override)
    ensures multiset(Unexpired(rows, today))[o]
            == if o.kind == WithExpiry && o.expiresAt.Some? && o.expiresAt.value < today then 0 else multiset(rows)[o]
  {
    if rows != [] {
      CleanupIsExact(rows[..|rows| - 1], today, o);
      assert rows == rows[..|rows| - 1] + [rows[|rows| - 1]];
    }
  }

  // ----- cleanup is invisible to every run dated today or later

  lemma {:induction false} NewestIgnoresDropped(p: Override -> bool, rows: seq<Override>, o: Override)
    ensures Newest(p, rows + [o]) ==
            if !p(o) then Newest(p, rows)
            else if Newest(p, rows).Some? && Newest(p, rows).value.createdAt >= o.createdAt then Newest(p, rows)
            else Some(o)
  {
    if rows == [] {
      assert [] + [o] == [o] && [o][1..] == [];
    } else {
      NewestIgnoresDropped(p, rows[1..], o);
      assert (rows + [o])[1..] == rows[1..] + [o];
    }
  }

  lemma {:induction false} UnexpiredIsASubsequence(rows: seq<Override>, today: Date)
    ensures forall o :: o in Unexpired(rows, today) ==> o in rows
  {
    if rows != [] {
      UnexpiredIsASubsequence(rows[..|rows| - 1], today);
    }
  }

  /** A newest row that is not expired is still the newest after the cleanup. */
  lemma {:induction false} NewestSurvivesCleanup(p: Override -> bool, rows: seq<Override>, today: Date)
    requires Newest(p, rows).Some? ==> !Expired(Newest(p, rows).value, today)
    ensures Newest(p, Unexpired(rows, today)) == Newest(p, rows)
  {
    if rows != [] {
      var k := |rows| - 1;
      var before, x := rows[..k], rows[k];
      assert rows == before + [x];
      NewestIgnoresDropped(p, before, x);
      NewestIgnoresDropped(p, Unexpired(before, today), x);
      assert Expired(x, today) ==> Unexpired(rows, today) == Unexpired(before, today);
      if Newest(p, rows) == Newest(p, before) {
        NewestSurvivesCleanup(p, before, today);
      } else {
        UnexpiredIsASubsequence(before, today);
      }
    }
  }

  /** A lookup is unchanged by the cleanup exactly when it does not return an expired override. */
  lemma CleanupIsInvisibleIff(rows: seq<Override>, today: Date, part: PartId, branch: Option<BranchId>, runDate: Date,
                              runId: string)
    ensures ActiveOverride(Unexpired(rows, today), part, branch, runDate, runId)
            == ActiveOverride(rows, part, branch, runDate, runId)
            <==> !(ActiveOverride(rows, part, branch, runDate, runId).Some?
                   && Expired(ActiveOverride(rows, part, branch, runDate, runId).value, today))
  {
    var active := ActiveOverride(rows, part, branch, runDate, runId);
    if active.Some? && Expired(active.value, today) {
      NothingExpiredIsLeft(rows, today);
      var after := ActiveOverride(Unexpired(rows, today), part, branch, runDate, runId);
      assert after.Some? ==> after.value in Unexpired(rows, today);
    } else {
      NewestSurvivesCleanup(ValidOn(part, branch, runDate), rows, today);
      NewestSurvivesCleanup(PersistentFor(part, branch), rows, today);
      NewestSurvivesCleanup(ForRun(part, branch, runId), rows, today);
    }
  }

  lemma {:induction false} NothingExpiredIsLeft(rows: seq<Override>, today: Date)
    ensures forall o :: o in Unexpired(rows, today) ==> !Expired(o, today)
  {
    if rows != [] {
      NothingExpiredIsLeft(rows[..|rows| - 1], today);
    }
  }

  /** So no run dated today or later can tell. */
  lemma CleanupIsInvisible(rows: seq<Override>, today: Date, part: PartId, branch: Option<BranchId>, runDate: Date,
                           runId: string)
    requires today <= runDate
    ensures ActiveOverride(Unexpired(rows, today), part, branch, runDate, runId)
            == ActiveOverride(rows, part, branch, runDate, runId)
  {
    CleanupIsInvisibleIff(rows, today, part, branch, runDate, runId);
  }

  /** A run dated before today may lose its override to the cleanup. */
  lemma CleanupIsVisibleToPastRuns(o: Override, today: Date)
    requires Expired(o, today)
    ensures ActiveOverride([o], o.part, o.branch, o.expiresAt.value, "") == Some(o)
    ensures ActiveOverride(Unexpired([o], today), o.part, o.branch, o.expiresAt.value, "") == None
  {
    assert [o][..0] == [];
    assert Unexpired([o], today) == [];
  }

  // ----- at most one persistent override per scope, over every run

  /** Two rows with their own ids that are not both the persistent override of one scope. */
  ghost predicate Compatible(a: Override, b: Override) {
    a.id != b.id && !(a.kind.Persistent? && b.kind.Persistent? && InScope(a, b.part, b.branch))
  }

  ghost predicate Valid(t: Table) {
    && (forall o :: o in t.rows ==> o.id < t.nextId)
    && (forall i, j :: 0 <= i < j < |t.rows| ==> Compatible(t.rows[i], t.rows[j]))
  }

  datatype Step = CreateStep(request: Request, now: int) | CleanupStep(today: Date)

  function Apply(t: Table, s: Step): Table {
    match s
    case CreateStep(r, now) => (match Create(t, r, now) case Ok((next, _)) => next case Err(_) => t)
    case CleanupStep(today) => t.(rows := Unexpired(t.rows, today))
  }

  function Run(t: Table, steps: seq<Step>): Table {
    if steps == [] then t else Apply(Run(t, steps[..|steps| - 1]), steps[|steps| - 1])
  }

  lemma AppendKeepsValid(t: Table, o: Override)
    requires Valid(t) && o.id < t.nextId && forall x :: x in t.rows ==> Compatible(x, o)
    ensures Valid(t.(rows := t.rows + [o]))
  {
    var rows := t.rows + [o];
    forall i, j | 0 <= i < j < |rows|
      ensures Compatible(rows[i], rows[j])
    {
      assert rows[i] in t.rows;
    }
  }

  lemma ReplaceKeepsValid(t: Table, p: nat, o: Override)
    requires Valid(t) && p < |t.rows|
    requires var x := t.rows[p]; o.id == x.id && o.kind == x.kind && InScope(o, x.part, x.branch)
    ensures Valid(t.(rows := Replace(t.rows, o.id, o)))
  {
    var rows := Replace(t.rows, o.id, o);
    forall i | 0 <= i < |rows|
      ensures rows[i].id == t.rows[i].id && rows[i].kind == t.rows[i].kind
              && InScope(rows[i], t.rows[i].part, t.rows[i].branch)
    {
      assert i < p ==> Compatible(t.rows[i], t.rows[p]);
      assert p < i ==> Compatible(t.rows[p], t.rows[i]);
    }
    forall i, j | 0 <= i < j < |rows|
      ensures Compatible(rows[i], rows[j])
    {
      assert Compatible(t.rows[i], t.rows[j]);
    }
  }

  lemma CreateKeepsValid(t: Table, r: Request, now: int)
    requires Valid(t)
    ensures Valid(Apply(t, CreateStep(r, now)))
  {
    if Create(t, r, now).Ok? {
      var (next, o) := Create(t, r, now).value;
      var existing := if r.kind.value.Persistent? then Newest(PersistentFor(r.part, r.branch), t.rows) else None;
      if existing.Some? {
        var p :| 0 <= p < |t.rows| && t.rows[p] == existing.value;
        ReplaceKeepsValid(t, p, o);
      } else {
        assert forall x :: x in t.rows ==> o.kind.Persistent? ==> !PersistentFor(r.part, r.branch)(x);
        AppendKeepsValid(Table(t.rows, next.nextId), o);
      }
    }
  }

  lemma {:induction false} CleanupKeepsValid(rows: seq<Override>, nextId: nat, today: Date)
    requires Valid(Table(rows, nextId))
    ensures Valid(Table(Unexpired(rows, today), nextId))
  {
    if rows != [] {
      var k := |rows| - 1;
      assert Valid(Table(rows[..k], nextId));
      CleanupKeepsValid(rows[..k], nextId, today);
      UnexpiredIsASubsequence(rows[..k], today);
      forall x | x in Unexpired(rows[..k], today)
        ensures Compatible(x, rows[k])
      {
        var i :| 0 <= i < k && rows[..k][i] == x;
        assert Compatible(rows[i], rows[k]);
      }
      if Expired(rows[k], today) {
        assert Unexpired(rows, today) == Unexpired(rows[..k], today);
      } else {
        AppendKeepsValid(Table(Unexpired(rows[..k], today), nextId), rows[k]);
      }
    }
  }

  lemma {:induction false} RunsKeepValid(t: Table, steps: seq<Step>)
    requires Valid(t)
    ensures Valid(Run(t, steps))
  {
    if steps != [] {
      var before, last := Run(t, steps[..|steps| - 1]), steps[|steps| - 1];
      RunsKeepValid(t, steps[..|steps| - 1]);
      match last
      case CreateStep(r, now) => CreateKeepsValid(before, r, now);
      case CleanupStep(today) => CleanupKeepsValid(before.rows, before.nextId, today);
    }
  }

  /** Rows of one scope with distinct ids hold at most one persistent override. */
  lemma PersistentIsUnique(t: Table, a: Override, b: Override)
    requires Valid(t) && a in t.rows && b in t.rows
    requires a.kind.Persistent? && b.kind.Persistent? && InScope(a, b.part, b.branch)
    ensures a == b
  {
    var i :| 0 <= i < |t.rows| && t.rows[i] == a;
    var j :| 0 <= j < |t.rows| && t.rows[j] == b;
    assert i == j;
  }

  /** After any run, a persistent override that was just set is the one in force. */
  lemma PersistentOverrideTakesEffect(steps: seq<Step>, r: Request, now: int, runDate: Date, runId: string)
    requires r.kind == Some(Persistent) && Check(r).None?
    requires forall o :: o in Run(Table([], 0), steps).rows ==> !ValidOn(r.part, r.branch, runDate)(o)
    ensures var active := ActiveOverride(Run(Table([], 0), steps + [CreateStep(r, now)]).rows, r.part, r.branch,
                                         runDate, runId);
            active.Some? && active.value.amount == r.amount && active.value.createdBy == r.user
  {
    var t := Run(Table([], 0), steps);
    assert (steps + [CreateStep(r, now)])[..|steps|] == steps;
    RunsKeepValid(Table([], 0), steps);
    CreateKeepsValid(t, r, now);
    var (next, o) := Create(t, r, now).value;
    SetRowIsPresent(t, r, now);
    var active := ActiveOverride(next.rows, r.part, r.branch, runDate, runId);
    assert PersistentFor(r.part, r.branch)(o);
    assert Newest(ValidOn(r.part, r.branch, runDate), next.rows).None?;
    PersistentIsUnique(next, active.value, o);
  }

  lemma SetRowIsPresent(t: Table, r: Request, now: int)
    requires r.kind == Some(Persistent) && Check(r).None?
    ensures var (next, o) := Create(t, r, now).value;
            o in next.rows && (forall x :: x in next.rows ==> x == o || x in t.rows)
  {
    var (next, o) := Create(t, r, now).value;
    var existing := Newest(PersistentFor(r.part, r.branch), t.rows);
    if existing.Some? {
      var i :| 0 <= i < |t.rows| && t.rows[i] == existing.value;
      assert next.rows[i] == o;
    } else {
      assert next.rows[|t.rows|] == o;
    }
  }
}
