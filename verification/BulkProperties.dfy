/** What a bulk decision does to a list of rows (apps/recommendations/services.py). */
module BulkProperties {
  import opened Prelude
  import opened Store

  ghost predicate CurrentCopies(db: Db, copies: seq<Copy>) {
    forall c :: c in copies ==> c.id in db.rows && db.rows[c.id] == c.row
  }

  /** The copies a bulk decision acts on: pending, and the user may decide them. */
  predicate Chosen(r: Request, copy: Copy) {
    copy.row.state.Pending? && CanApprove(r.org, r.user, copy.row)
  }

  function ChosenIds(r: Request, copies: seq<Copy>): seq<RecId> {
    if copies == [] then []
    else
      ChosenIds(r, copies[..|copies| - 1])
      + if Chosen(r, copies[|copies| - 1]) then [copies[|copies| - 1].id] else []
  }

  function ChosenEntries(r: Request, role: Option<Role>, copies: seq<Copy>): seq<Entry> {
    if copies == [] then []
    else
      var copy := copies[|copies| - 1];
      ChosenEntries(r, role, copies[..|copies| - 1])
      + if Chosen(r, copy)
        then [Decision(r.user.id, r.action, copy.id, copy.row.state, TargetOf(r.action), role, r.notes)] else []
  }

  function DecidedRow(r: Request, row: Row): Row {
    Decided(row, TargetOf(r.action), r.user.id, r.now, r.notes)
  }

  /** The rows after the chosen ones are decided; every other row is as before. */
  ghost predicate ExactlyDecided(before: map<RecId, Row>, after: map<RecId, Row>, r: Request, ids: seq<RecId>) {
    && after.Keys == before.Keys
    && forall id :: id in before ==> after[id] == if id in ids then DecidedRow(r, before[id]) else before[id]
  }

  lemma {:induction false} ChosenIdsAre(r: Request, copies: seq<Copy>)
    ensures forall id :: id in ChosenIds(r, copies) <==> exists c :: c in copies && c.id == id && Chosen(r, c)
  {
    if copies != [] {
      var k := |copies| - 1;
      ChosenIdsAre(r, copies[..k]);
      assert forall c :: c in copies <==> c in copies[..k] || c == copies[k];
    }
  }

  /** A decision on a chosen copy of a current pending row succeeds and changes that row alone. */
  lemma ChosenIsDecided(db: Db, r: Request, copy: Copy)
    requires Chosen(r, copy) && copy.id in db.rows && db.rows[copy.id] == copy.row
    requires ActiveRole(r.user, r.org.tenant).Ok? && !r.action.MarkOrdered?
    ensures Decide(db, r, copy)
            == Ok(db.(rows := db.rows[copy.id := DecidedRow(r, copy.row)],
                      log := db.log + [Decision(r.user.id, r.action, copy.id, copy.row.state, TargetOf(r.action),
                                                ActiveRole(r.user, r.org.tenant).value, r.notes)]))
  {
  }

  ghost predicate Distinct(ids: seq<RecId>) {
    forall i, j :: 0 <= i < j < |ids| ==> ids[i] != ids[j]
  }

  /** What ends a bulk action: a chosen row under a foreign tenant's user, or a row chosen twice. */
  ghost function BulkError(r: Request, ids: seq<RecId>): Option<Error> {
    if ids == [] then None
    else if ActiveRole(r.user, r.org.tenant).Err? then Some(ActiveRole(r.user, r.org.tenant).error)
    else if !Distinct(ids) then Some(InvalidTransition)
    else None
  }

  /** A bulk action that has met no error so far has decided the chosen rows. */
  ghost predicate DecidedSoFar(db: Db, r: Request, copies: seq<Copy>, b: Bulk) {
    var ids := ChosenIds(r, copies);
    && b.db.nextId == db.nextId && b.updated == ids
    && ExactlyDecided(db.rows, b.db.rows, r, ids)
    && (ids == [] ==> b.db.log == db.log)
    && (ActiveRole(r.user, r.org.tenant).Ok? ==>
          b.db.log == db.log + ChosenEntries(r, ActiveRole(r.user, r.org.tenant).value, copies))
  }

  lemma ChosenIdsStep(r: Request, copies: seq<Copy>)
    requires copies != []
    ensures var ids, copy := ChosenIds(r, copies[..|copies| - 1]), copies[|copies| - 1];
            ChosenIds(r, copies) == (if Chosen(r, copy) then ids + [copy.id] else ids)
            && (Distinct(ChosenIds(r, copies)) <==> Distinct(ids) && (Chosen(r, copy) ==> copy.id !in ids))
  {
    var ids, copy := ChosenIds(r, copies[..|copies| - 1]), copies[|copies| - 1];
    if Chosen(r, copy) {
      if copy.id in ids {
        var i :| 0 <= i < |ids| && ids[i] == copy.id;
        assert (ids + [copy.id])[i] == (ids + [copy.id])[|ids|];
      }
      assert forall i :: 0 <= i < |ids| ==> (ids + [copy.id])[i] == ids[i];
    } else {
      assert ids + [] == ids;
    }
  }

  /** A copy that is chosen while its row is still pending, or was decided earlier in the same action. */
  lemma ChosenCopy(db: Db, r: Request, copies: seq<Copy>, b: Bulk, copy: Copy)
    requires DecidedSoFar(db, r, copies, b) && Chosen(r, copy) && !r.action.MarkOrdered?
    requires copy.id in db.rows && db.rows[copy.id] == copy.row
    ensures ActiveRole(r.user, r.org.tenant).Err? ==>
              Decide(b.db, r, copy) == Err(ActiveRole(r.user, r.org.tenant).error)
    ensures ActiveRole(r.user, r.org.tenant).Ok? && copy.id in b.updated ==>
            Decide(b.db, r, copy) == Err(InvalidTransition)
  {
  }

  /** One more copy, chosen, after a prefix that met no error. */
  lemma ChosenStep(db: Db, r: Request, copies: seq<Copy>)
    requires CurrentCopies(db, copies) && !r.action.MarkOrdered?
    requires copies != [] && Chosen(r, copies[|copies| - 1])
    requires var before := copies[..|copies| - 1];
             var b := BulkSteps(db, r, before);
             b.error == None && BulkError(r, ChosenIds(r, before)) == None && DecidedSoFar(db, r, before, b)
    ensures var b := BulkSteps(db, r, copies);
            b.error == BulkError(r, ChosenIds(r, copies)) && (b.error == None ==> DecidedSoFar(db, r, copies, b))
  {
    var k := |copies| - 1;
    var b, copy := BulkSteps(db, r, copies[..k]), copies[k];
    ChosenIdsStep(r, copies);
    assert copy in copies;
    ChosenCopy(db, r, copies[..k], b, copy);
    if ActiveRole(r.user, r.org.tenant).Ok? && copy.id !in b.updated {
      ChosenIsDecided(b.db, r, copy);
    }
  }

  lemma {:induction false} BulkDecides(db: Db, r: Request, copies: seq<Copy>)
    requires CurrentCopies(db, copies) && !r.action.MarkOrdered?
    ensures var b := BulkSteps(db, r, copies);
            b.error == BulkError(r, ChosenIds(r, copies)) && (b.error == None ==> DecidedSoFar(db, r, copies, b))
  {
    if copies != [] {
      var k := |copies| - 1;
      BulkDecides(db, r, copies[..k]);
      ChosenIdsStep(r, copies);
      if !Chosen(r, copies[k]) {
        UnchosenIsSkipped(db, r, copies);
      } else if BulkSteps(db, r, copies[..k]).error == None {
        ChosenStep(db, r, copies);
      }
    }
  }

  lemma UnchosenIsSkipped(db: Db, r: Request, copies: seq<Copy>)
    requires copies != [] && !Chosen(r, copies[|copies| - 1])
    ensures var before := copies[..|copies| - 1];
            && BulkSteps(db, r, copies) == BulkSteps(db, r, before)
            && ChosenIds(r, copies) == ChosenIds(r, before)
            && forall role :: ChosenEntries(r, role, copies) == ChosenEntries(r, role, before)
  {
    var before := copies[..|copies| - 1];
    assert ChosenIds(r, before) + [] == ChosenIds(r, before);
    forall role
      ensures ChosenEntries(r, role, copies) == ChosenEntries(r, role, before)
    {
      assert ChosenEntries(r, role, before) + [] == ChosenEntries(r, role, before);
    }
  }

  /**
   A bulk approval, rejection or handling of current rows, listed in any order and any number of times:
   it succeeds exactly when no row is chosen, or the user is of the tenant and no row is chosen twice.
   Then exactly the pending rows the user may act on are decided, returned in order and logged once
   each; otherwise nothing is decided and nothing logged.
   */
  lemma BulkIsExact(db: Db, r: Request, copies: seq<Copy>)
    requires CurrentCopies(db, copies) && !r.action.MarkOrdered?
    ensures var b, ids := DecideBulk(db, r, copies), ChosenIds(r, copies);
            && b.error == BulkError(r, ids)
            && (b.error == None <==> ids == [] || (ActiveRole(r.user, r.org.tenant).Ok? && Distinct(ids)))
            && (b.error.Some? ==> b.db == db && b.updated == [])
            && (b.error == None ==> DecidedSoFar(db, r, copies, b))
  {
    BulkDecides(db, r, copies);
  }

  /** A chosen row that is listed again, anywhere, makes the action fail as a whole. */
  lemma {:induction false} RepeatedRowUndoesTheBulk(db: Db, r: Request, copies: seq<Copy>, i: nat, j: nat)
    requires CurrentCopies(db, copies) && !r.action.MarkOrdered?
    requires i < j < |copies| && copies[i].id == copies[j].id && Chosen(r, copies[i])
    ensures var b := DecideBulk(db, r, copies); b.error.Some? && b.db == db && b.updated == []
  {
    assert copies[i] in copies && copies[j] in copies;
    RepeatIsChosenTwice(r, copies, i, j);
    BulkIsExact(db, r, copies);
  }

  lemma {:induction false} RepeatIsChosenTwice(r: Request, copies: seq<Copy>, i: nat, j: nat)
    requires i < j < |copies| && copies[i] == copies[j] && Chosen(r, copies[i])
    ensures !Distinct(ChosenIds(r, copies)) && ChosenIds(r, copies) != []
    decreases |copies|
  {
    var k := |copies| - 1;
    ChosenIdsStep(r, copies);
    if j < k {
      RepeatIsChosenTwice(r, copies[..k], i, j);
    } else {
      ChosenIdsAre(r, copies[..k]);
      assert copies[..k][i] == copies[i];
    }
  }
}
