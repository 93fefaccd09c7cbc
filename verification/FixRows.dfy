/** One row of a fixes table of findmissing and what can happen to it.  The guards are spread over
    contrib/findmissing: cloudsql_interface.py, missing.py, synchronize.py and main.py. */
module FixRows {
  import opened Prelude

  datatype Status = OPEN | MERGED | ABANDONED | CONFLICT

  datatype Row = Row(
    branch: string,
    entryTime: nat,
    closeTime: Option<nat>,
    changeId: Option<string>,
    initial: Status,
    status: Status,
    reason: Option<string>)

  /** Python's truth value of a column that may be NULL. */
  predicate Truthy(x: Option<string>) {
    x.Some? && x.value != ""
  }

  // ---------- the statements ----------

  /** What one UPDATE statement does to a row that it matches by key. */
  datatype Event =
    | Abandon(now: nat, reason: Option<string>)
    | Restore(reason: Option<string>)
    | Merge(now: nat, reason: Option<string>)
    | OpenConflict(changeId: string)

  /** update_change_restored reads the status to restore from the row. */
  function RestoredStatus(r: Row): Status {
    if Truthy(r.changeId) then OPEN else r.initial
  }

  const CLEAN_REASON := Some("Patch applies cleanly after originally conflicting.")

  function Apply(r: Row, e: Event): Row {
    match e
    case Abandon(now, reason) =>
      if r.status == OPEN || r.status == CONFLICT
      then r.(status := ABANDONED, closeTime := Some(now), reason := reason) else r
    case Restore(reason) =>
      if r.status == ABANDONED
      then r.(status := RestoredStatus(r), closeTime := None, reason := reason) else r
    case Merge(now, reason) =>
      r.(status := MERGED, closeTime := Some(now), reason := reason)
    case OpenConflict(changeId) =>
      r.(status := OPEN, changeId := Some(changeId), reason := CLEAN_REASON)
  }

  /** The guard of fixup_unmerged_patches around the unconditional update_conflict_to_open. */
  predicate Allowed(r: Row, e: Event) {
    e.OpenConflict? ==> r.status == CONFLICT && e.changeId != ""
  }

  ghost function ApplyAll(r: Row, es: seq<Event>): Option<Row>
    decreases |es|
  {
    if es == [] then Some(r)
    else if Allowed(r, es[0]) then ApplyAll(Apply(r, es[0]), es[1..])
    else None
  }

  /** s is what r has become after some events. */
  ghost predicate Leads(r: Row, s: Row) {
    exists es :: ApplyAll(r, es) == Some(s)
  }

  // ---------- new rows ----------

  /** A fresh row: insert_fix_gerrit, or insert_by_patch_id for a merged patch. */
  function NewRow(branch: string, now: nat, status: Status, changeId: Option<string>, reason: Option<string>): Row {
    Row(branch, now, if status == MERGED then Some(now) else None, changeId, status, status, reason)
  }

  /** insert_by_patch_id for a patch that is known under another sha: an open entry is recorded as
      abandoned, any other keeps the status of the entry it repeats. */
  function DuplicateRow(branch: string, now: nat, status: Status, reason: Option<string>): Row {
    Row(branch, now, Some(now), None, status, if status == OPEN then ABANDONED else status, reason)
  }

  ghost predicate Inserted(r: Row) {
    || (exists b, now, s, id, reason ::
          && s != ABANDONED && (s == OPEN ==> Truthy(id)) && (s == CONFLICT ==> id == None)
          && r == NewRow(b, now, s, id, reason))
    || (exists b, now, s, reason :: s != ABANDONED && r == DuplicateRow(b, now, s, reason))
  }

  // ---------- what holds of every reachable row ----------

  ghost predicate RowInv(r: Row) {
    && r.initial != ABANDONED
    && (r.status == MERGED ==> r.closeTime.Some?)
    && (r.initial == MERGED ==> r.status == MERGED)
    && (r.status == CONFLICT ==> !Truthy(r.changeId) && r.initial == CONFLICT)
    && (r.status == OPEN ==> Truthy(r.changeId) || r.initial == OPEN)
  }

  ghost predicate Reachable(r: Row) {
    exists first :: Inserted(first) && Leads(first, r)
  }

  lemma InsertedInv(r: Row)
    requires Inserted(r)
    ensures RowInv(r)
  {
  }

  lemma {:induction false} EventsKeep(r: Row, es: seq<Event>)
    requires RowInv(r) && ApplyAll(r, es).Some?
    ensures var s := ApplyAll(r, es).value;
            && RowInv(s)
            && (r.status == MERGED ==> s.status == MERGED)
            && s.initial == r.initial && s.branch == r.branch && s.entryTime == r.entryTime
            && (Truthy(r.changeId) ==> s.changeId == r.changeId)
    decreases |es|
  {
    if es != [] {
      EventsKeep(Apply(r, es[0]), es[1..]);
    }
  }

  /** Over every sequence of operations: merged is absorbing and has a close time, an initially
      merged row is merged, and identity, first status and a change id once given never change. */
  lemma ReachableRows(r: Row, s: Row)
    requires Reachable(r) && Leads(r, s)
    ensures RowInv(r) && RowInv(s)
    ensures r.status == MERGED ==> s.status == MERGED
    ensures s.initial == r.initial && s.branch == r.branch && s.entryTime == r.entryTime
    ensures Truthy(r.changeId) ==> s.changeId == r.changeId
  {
    var first :| Inserted(first) && Leads(first, r);
    InsertedInv(first);
    var es :| ApplyAll(first, es) == Some(r);
    EventsKeep(first, es);
    var fs :| ApplyAll(r, fs) == Some(s);
    EventsKeep(r, fs);
  }

  /** Abandoning and restoring gives back the status exactly if the status agrees with what
      restoring reads from the row. */
  lemma AbandonRestoreExact(r: Row, now: nat, why: Option<string>, back: Option<string>)
    requires r.status == OPEN || r.status == CONFLICT
    ensures Apply(Apply(r, Abandon(now, why)), Restore(back)).status == r.status <==>
            (if r.status == OPEN then Truthy(r.changeId) || r.initial == OPEN
             else !Truthy(r.changeId) && r.initial == CONFLICT)
  {
  }

  /** For every reachable open or conflicting row it does: only close time and reason are lost. */
  lemma AbandonRestore(r: Row, now: nat, why: Option<string>, back: Option<string>)
    requires Reachable(r) && (r.status == OPEN || r.status == CONFLICT)
    ensures Apply(Apply(r, Abandon(now, why)), Restore(back)) == r.(closeTime := None, reason := back)
  {
    assert Leads(r, r) by { assert ApplyAll(r, []) == Some(r); }
    ReachableRows(r, r);
  }

  lemma LeadsSelf(r: Row)
    ensures Leads(r, r)
  {
    assert ApplyAll(r, []) == Some(r);
  }

  lemma LeadsBy(r: Row, e: Event)
    requires Allowed(r, e)
    ensures Leads(r, Apply(r, e))
  {
    assert [e][1..] == [];
    assert ApplyAll(r, [e]) == Some(Apply(r, e));
  }

  lemma {:induction false} ApplyAppend(r: Row, es: seq<Event>, fs: seq<Event>)
    requires ApplyAll(r, es).Some?
    ensures ApplyAll(r, es + fs) == ApplyAll(ApplyAll(r, es).value, fs)
    decreases |es|
  {
    if es == [] {
      assert es + fs == fs;
    } else {
      assert (es + fs)[1..] == es[1..] + fs;
      ApplyAppend(Apply(r, es[0]), es[1..], fs);
    }
  }

  lemma LeadsTransitive(r: Row, s: Row, t: Row)
    requires Leads(r, s) && Leads(s, t)
    ensures Leads(r, t)
  {
    var es :| ApplyAll(r, es) == Some(s);
    var fs :| ApplyAll(s, fs) == Some(t);
    ApplyAppend(r, es, fs);
  }

  // ---------- live rows with a close time ----------

  /** The row is live although it has a close time. */
  predicate Dated(r: Row) {
    (r.status == OPEN || r.status == CONFLICT) && r.closeTime.Some?
  }

  /** Neither is such a row ever made by an update, nor does it survive being abandoned or merged. */
  lemma {:induction false} DatedSince(r: Row, es: seq<Event>)
    requires ApplyAll(r, es).Some?
    ensures Dated(ApplyAll(r, es).value) <==> Dated(r) && forall e <- es :: e.Restore? || e.OpenConflict?
    decreases |es|
  {
    if es != [] {
      DatedSince(Apply(r, es[0]), es[1..]);
      assert forall e <- es :: e == es[0] || e in es[1..];
      assert es[0] in es && forall e <- es[1..] :: e in es;
    }
  }

  /** A row that findmissing inserts is such a row exactly if it is entered as a conflict with a close
      time, which a comment in insert_by_patch_id rules out. */
  lemma DatedFromTheStart(first: Row)
    requires Inserted(first)
    ensures Dated(first) <==> first.status == CONFLICT && first.closeTime.Some?
  {
  }

  /** Exactly those rows are live with a close time: entered as a repeated conflict, and since then
      neither abandoned nor merged. */
  lemma LiveWithCloseTime(first: Row, es: seq<Event>)
    requires Inserted(first) && ApplyAll(first, es).Some?
    ensures Dated(ApplyAll(first, es).value) <==>
            first.status == CONFLICT && first.closeTime.Some? && forall e <- es :: e.Restore? || e.OpenConflict?
  {
    DatedSince(first, es);
    DatedFromTheStart(first);
  }
}
