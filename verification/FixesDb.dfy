/** The fixes tables of findmissing and the operations on them (contrib/findmissing:
    cloudsql_interface.py, missing.py, synchronize.py, main.py).  A table is a map from its primary
    key; a SQL statement is an update of the rows that its WHERE clause selects.  What git, Gerrit
    and the other tables answer comes in as parameters. */
module FixesDb {
  import opened Prelude
  import opened FixRows

  /** (kernel_sha, fixedby_upstream_sha) */
  datatype Key = Key(kernel: string, upstream: string)

  type Table = map<Key, Row>

  /** Kernel commits and upstream commits are different commits. */
  ghost predicate ShasApart(t: Table) {
    forall k <- t, l <- t :: k.kernel != l.upstream
  }

  /** Every row of the old table is still there and has changed only by the events of a row. */
  ghost predicate Evolves(before: Table, after: Table) {
    forall k <- before :: k in after && Leads(before[k], after[k])
  }

  ghost predicate TableInv(t: Table) {
    ShasApart(t) && forall k <- t :: Reachable(t[k])
  }

  lemma ReachableLeads(r: Row, s: Row)
    requires Reachable(r) && Leads(r, s)
    ensures Reachable(s)
  {
    var first :| Inserted(first) && Leads(first, r);
    LeadsTransitive(first, r, s);
  }

  lemma EvolvesSelf(t: Table)
    ensures Evolves(t, t)
  {
    forall k <- t ensures Leads(t[k], t[k]) {
      LeadsSelf(t[k]);
    }
  }

  lemma EvolvesTransitive(a: Table, b: Table, c: Table)
    requires Evolves(a, b) && Evolves(b, c)
    ensures Evolves(a, c)
  {
    forall k <- a ensures k in c && Leads(a[k], c[k]) {
      LeadsTransitive(a[k], b[k], c[k]);
    }
  }

  /** Over every sequence of operations: no row is lost, merged is absorbing, and the first status,
      the branch, the entry time and a change id once given never change. */
  lemma History(before: Table, after: Table)
    requires TableInv(before) && Evolves(before, after)
    ensures forall k <- before ::
              && k in after && RowInv(after[k])
              && (before[k].status == MERGED ==> after[k].status == MERGED)
              && after[k].initial == before[k].initial && after[k].branch == before[k].branch
              && after[k].entryTime == before[k].entryTime
              && (Truthy(before[k].changeId) ==> after[k].changeId == before[k].changeId)
  {
    hide Reachable, Leads;
    forall k <- before
      ensures k in after && RowInv(after[k])
      ensures before[k].status == MERGED ==> after[k].status == MERGED
      ensures after[k].initial == before[k].initial && after[k].branch == before[k].branch
      ensures after[k].entryTime == before[k].entryTime
      ensures Truthy(before[k].changeId) ==> after[k].changeId == before[k].changeId
    {
      ReachableRows(before[k], after[k]);
    }
  }

  /** The event happens to the row with the key, if there is one. */
  function On(t: Table, k: Key, e: Event): Table {
    if k in t then t[k := Apply(t[k], e)] else t
  }

  lemma OnEvolves(t: Table, k: Key, e: Event)
    requires TableInv(t)
    requires k in t ==> Allowed(t[k], e)
    ensures TableInv(On(t, k, e)) && Evolves(t, On(t, k, e))
  {
    var u := On(t, k, e);
    forall l <- t ensures l in u && Leads(t[l], u[l]) {
      if l == k {
        LeadsBy(t[k], e);
      } else {
        LeadsSelf(t[l]);
      }
    }
    forall l <- u ensures Reachable(u[l]) {
      ReachableLeads(t[l], u[l]);
    }
  }

  /** stable_fixes or chrome_fixes. */
  class FixesTable {
    var rows: Table

    ghost predicate Valid()
      reads this
    {
      TableInv(rows)
    }

    twostate predicate Evolved()
      reads this
    {
      Evolves(old(rows), rows)
    }

    // ---------- cloudsql_interface.py ----------

    method UpdateChangeAbandoned(k: Key, now: nat, reason: Option<string>)
      requires Valid()
      modifies this
      ensures Valid() && Evolved()
      ensures rows == On(old(rows), k, Abandon(now, reason))
      ensures k in old(rows) && old(rows)[k].status in {OPEN, CONFLICT} ==>
                rows == old(rows)[k := old(rows)[k].(status := ABANDONED, closeTime := Some(now), reason := reason)]
      ensures k !in old(rows) || old(rows)[k].status !in {OPEN, CONFLICT} ==> rows == old(rows)
    {
      hide TableInv, Evolves;
      OnEvolves(rows, k, Abandon(now, reason));
      if k in rows && (rows[k].status == OPEN || rows[k].status == CONFLICT) {
        rows := rows[k := rows[k].(status := ABANDONED, closeTime := Some(now), reason := reason)];
      } else if k in rows {
        assert rows[k := rows[k]] == rows;
      }
    }

    /** The status is taken from the first row found, whichever of those that match the database
        lists first; the result is None for the IndexError when there is none.  As long as kernel and
        upstream shas are apart it is the row itself. */
    method UpdateChangeRestored(k: Key, reason: Option<string>) returns (found: Option<Key>)
      modifies this
      ensures found == None <==> Matches(old(rows), k) == {}
      ensures found == None ==> rows == old(rows)
      ensures found.Some? ==>
                found.value in Matches(old(rows), k)
                    && rows == RestoredFrom(old(rows), k, old(rows)[found.value], reason)
      ensures old(Valid()) ==> Valid() && Evolved()
      ensures old(Valid()) && k in old(rows) ==> rows == On(old(rows), k, Restore(reason))
      ensures found.Some? && k in old(rows) && old(rows)[k].status == ABANDONED ==>
                var id := old(rows)[found.value].changeId;
                var status := if id.Some? && id.value != "" then OPEN else old(rows)[found.value].initial;
                rows == old(rows)[k := old(rows)[k].(status := status, closeTime := None, reason := reason)]
      ensures k !in old(rows) || old(rows)[k].status != ABANDONED ==> rows == old(rows)
    {
      hide TableInv, Evolves, Matches, On;
      EvolvesSelf(rows);
      MatchesItself(rows, k);
      var matches := Matches(rows, k);
      if matches == {} {
        return None;
      }
      if Valid() {
        RestoreAlone(rows, k, reason);
      }
      var first :| first in matches;
      var status := if Truthy(rows[first].changeId) then OPEN else rows[first].initial;
      if k in rows && rows[k].status == ABANDONED {
        rows := rows[k := rows[k].(status := status, closeTime := None, reason := reason)];
      }
      return Some(first);
    }

    method UpdateChangeMerged(k: Key, now: nat, reason: Option<string>)
      requires Valid()
      modifies this
      ensures Valid() && Evolved()
      ensures rows == On(old(rows), k, Merge(now, reason))
      ensures k in old(rows) ==>
                rows == old(rows)[k := old(rows)[k].(status := MERGED, closeTime := Some(now), reason := reason)]
      ensures k !in old(rows) ==> rows == old(rows)
    {
      hide TableInv, Evolves;
      OnEvolves(rows, k, Merge(now, reason));
      if k in rows {
        rows := rows[k := rows[k].(status := MERGED, closeTime := Some(now), reason := reason)];
      }
    }

    /** The statement itself does not look at the status; its caller does. */
    method UpdateConflictToOpen(k: Key, changeId: string)
      requires Valid() && k in rows && Allowed(rows[k], OpenConflict(changeId))
      modifies this
      ensures Valid() && Evolved()
      ensures rows == On(old(rows), k, OpenConflict(changeId))
      ensures var reason := Some("Patch applies cleanly after originally conflicting.");
              rows == old(rows)[k := old(rows)[k].(status := OPEN, changeId := Some(changeId), reason := reason)]
    {
      hide TableInv, Evolves;
      OnEvolves(rows, k, OpenConflict(changeId));
      rows := rows[k := rows[k].(status := OPEN, changeId := Some(changeId), reason := CLEAN_REASON)];
    }

    // ---------- missing.py ----------

    /** One INSERT.  The server refuses a key that is taken and a first status outside the column's
        enumeration; `ok` is false when it refuses the row for another reason.  Errors are logged
        and otherwise ignored. */
    method InsertRow(k: Key, row: Row, ok: bool)
      requires Valid() && (row.initial != ABANDONED ==> Inserted(row))
      requires forall l <- rows :: k.kernel != l.upstream && l.kernel != k.upstream
      requires k.kernel != k.upstream
      modifies this
      ensures Valid() && Evolved()
      ensures rows == if ok && k !in old(rows) && row.initial != ABANDONED then old(rows)[k := row] else old(rows)
    {
      hide Reachable, Leads, Inserted;
      EvolvesSelf(rows);
      if ok && k !in rows && row.initial != ABANDONED {
        assert Reachable(row) by { NewIsReachable(row); }
        forall l <- rows ensures Leads(rows[l], rows[l]) {
          LeadsSelf(rows[l]);
        }
        rows := rows[k := row];
      }
    }

    /** update_fixes_in_branch: one UPDATE of the rows whose fix is in linux_chrome, then a check of
        every row that is not merged. */
    method UpdateFixesInBranch(branch: string, applied: set<string>, now: nat, git: string -> Status,
                               create: Key -> Option<string>)
      requires Valid()
      modifies this
      ensures Valid() && Evolved()
      ensures rows == Fixup(MergeApplied(old(rows), branch, applied, now), branch, now, git, create)
      ensures rows.Keys == old(rows).Keys
      ensures forall k <- old(rows) | old(rows)[k].branch != branch || old(rows)[k].status == MERGED ::
                rows[k] == old(rows)[k]
      ensures forall k <- old(rows) | old(rows)[k].branch == branch && old(rows)[k].status != MERGED ::
                var r := old(rows)[k];
                && (k.upstream in applied ==>
                      rows[k] == r.(status := MERGED, closeTime := Some(now),
                                    reason := Some("Patch has been applied to linux_chome")))
                && (k.upstream !in applied && git(k.upstream) == MERGED ==>
                      rows[k] == r.(status := MERGED, closeTime := Some(now),
                                    reason := Some("Fix was merged externally and detected by robot.")))
                && (k.upstream !in applied && git(k.upstream) == OPEN && r.status == CONFLICT ==>
                      rows[k] == if create(k).None? || create(k).value == "" then r
                                 else r.(status := OPEN, changeId := create(k),
                                         reason := Some("Patch applies cleanly after originally conflicting.")))
                && (k.upstream !in applied && git(k.upstream) in {CONFLICT, ABANDONED} ==> rows[k] == r)
                && (k.upstream !in applied && git(k.upstream) == OPEN && r.status != CONFLICT ==> rows[k] == r)
    {
      hide TableInv, Evolves, Fixup, MergeApplied;
      BranchUpdated(rows, branch, applied, now, git, create);
      ghost var start := rows;
      MergeAppliedRows(branch, applied, now);
      ghost var middle := rows;
      FixupUnmergedPatches(branch, now, git, create);
      EvolvesTransitive(start, middle, rows);
    }

    /** The UPDATE over all rows. */
    method MergeAppliedRows(branch: string, applied: set<string>, now: nat)
      requires Valid()
      modifies this
      ensures Valid() && Evolved()
      ensures rows == MergeApplied(old(rows), branch, applied, now)
    {
      hide TableInv, Evolves;
      ghost var start := rows;
      MergeAppliedEvolves(start, branch, applied, now);
      rows := map k | k in rows ::
        if rows[k].branch == branch && k.upstream in applied
           && (rows[k].status == OPEN || rows[k].status == CONFLICT || rows[k].status == ABANDONED)
        then rows[k].(status := MERGED, closeTime := Some(now), reason := APPLIED_REASON)
        else rows[k];
      assert rows == MergeApplied(start, branch, applied, now);
    }

    /** fixup_unmerged_patches: the rows are read first and then visited one by one, so that the
        unguarded update_conflict_to_open meets the status that was read. */
    method FixupUnmergedPatches(branch: string, now: nat, git: string -> Status, create: Key -> Option<string>)
      requires Valid()
      modifies this
      ensures Valid() && Evolved()
      ensures rows == Fixup(old(rows), branch, now, git, create)
      ensures rows.Keys == old(rows).Keys
      ensures forall k <- old(rows) | old(rows)[k].branch != branch || old(rows)[k].status == MERGED ::
                rows[k] == old(rows)[k]
      ensures forall k <- old(rows) | old(rows)[k].branch == branch && old(rows)[k].status != MERGED ::
                var r := old(rows)[k];
                && (git(k.upstream) == MERGED ==>
                      rows[k] == r.(status := MERGED, closeTime := Some(now),
                                    reason := Some("Fix was merged externally and detected by robot.")))
                && (git(k.upstream) == OPEN && r.status == CONFLICT ==>
                      rows[k] == if create(k).None? || create(k).value == "" then r
                                 else r.(status := OPEN, changeId := create(k),
                                         reason := Some("Patch applies cleanly after originally conflicting.")))
                && (git(k.upstream) in {CONFLICT, ABANDONED} ==> rows[k] == r)
                && (git(k.upstream) == OPEN && r.status != CONFLICT ==> rows[k] == r)
    {
      hide TableInv, Evolves;
      var snapshot := rows;
      var todo := set k | k in snapshot && snapshot[k].status != MERGED && snapshot[k].branch == branch;
      EvolvesSelf(rows);
      while todo != {}
        invariant Valid() && Evolves(snapshot, rows)
        invariant forall k <- todo :: k in snapshot && snapshot[k].status != MERGED && snapshot[k].branch == branch
        invariant rows.Keys == snapshot.Keys
        invariant forall k <- snapshot :: rows[k] ==
                    if k in todo then snapshot[k] else FixupRow(snapshot[k], branch, now, git(k.upstream), create(k))
      {
        var k :| k in todo;
        ghost var before := rows;
        var newStatus := git(k.upstream);
        if snapshot[k].status == CONFLICT && newStatus == OPEN {
          var changeId := create(k);
          if Truthy(changeId) {
            UpdateConflictToOpen(k, changeId.value);
          } else {
            EvolvesSelf(rows);
          }
        } else if newStatus == MERGED {
          UpdateChangeMerged(k, now, EXTERNAL_REASON);
        } else {
          EvolvesSelf(rows);
        }
        EvolvesTransitive(snapshot, before, rows);
        todo := todo - {k};
      }
    }

    // ---------- main.py ----------

    /** The loop of abandon_fix_cl over the rows of this table. */
    method AbandonRows(found: set<Key>, reason: Option<string>, now: nat)
      requires Valid() && found <= rows.Keys
      modifies this
      ensures Valid() && Evolved()
      ensures rows == OnAll(old(rows), found, Abandon(now, reason))
      ensures rows.Keys == old(rows).Keys
      ensures forall k <- old(rows) ::
                var r := old(rows)[k];
                rows[k] == if k in found && r.status in {OPEN, CONFLICT}
                           then r.(status := ABANDONED, closeTime := Some(now), reason := reason) else r
    {
      hide TableInv, Evolves;
      EvolvesSelf(rows);
      var snapshot := rows;
      var todo := found;
      while todo != {}
        invariant Valid() && Evolves(snapshot, rows) && todo <= found
        invariant rows == OnAll(snapshot, found - todo, Abandon(now, reason))
      {
        var k :| k in todo;
        ghost var before := rows;
        var rowStatus := snapshot[k].status;
        if rowStatus == OPEN || rowStatus == CONFLICT {
          UpdateChangeAbandoned(k, now, reason);
        } else {
          EvolvesSelf(rows);
        }
        EvolvesTransitive(snapshot, before, rows);
        OnAllNext(snapshot, found - todo, k, Abandon(now, reason));
        assert found - (todo - {k}) == (found - todo) + {k};
        todo := todo - {k};
      }
      assert found - todo == found;
    }

    /** The loop of restore_fix_cl over the rows of this table. */
    method RestoreRows(found: set<Key>, reason: Option<string>)
      requires Valid() && found <= rows.Keys
      modifies this
      ensures Valid() && Evolved()
      ensures rows == OnAll(old(rows), found, Restore(reason))
      ensures rows.Keys == old(rows).Keys
      ensures forall k <- old(rows) ::
                var r := old(rows)[k];
                var status := if r.changeId.Some? && r.changeId.value != "" then OPEN else r.initial;
                rows[k] == if k in found && r.status == ABANDONED
                           then r.(status := status, closeTime := None, reason := reason) else r
    {
      hide TableInv, Evolves;
      EvolvesSelf(rows);
      var snapshot := rows;
      var todo := found;
      while todo != {}
        invariant Valid() && Evolves(snapshot, rows) && todo <= found
        invariant rows == OnAll(snapshot, found - todo, Restore(reason))
      {
        var k :| k in todo;
        ghost var before := rows;
        if snapshot[k].status == ABANDONED {
          var _ := UpdateChangeRestored(k, reason);
        } else {
          EvolvesSelf(rows);
        }
        EvolvesTransitive(snapshot, before, rows);
        OnAllNext(snapshot, found - todo, k, Restore(reason));
        assert found - (todo - {k}) == (found - todo) + {k};
        todo := todo - {k};
      }
      assert found - todo == found;
    }
  }

  // ---------- abandoning and restoring changes ----------

  /** get_fixes_rows on one table, with strict matching: with one sha, it may match either column. */
  function Found(t: Table, shas: seq<string>): (r: set<Key>)
    ensures |shas| <= 1 ==> forall k <- t :: k in r <==> k.kernel in shas || k.upstream in shas
    ensures |shas| > 1 ==> forall k <- t :: k in r <==> k.kernel in shas && k.upstream in shas
    ensures r <= t.Keys
  {
    if |shas| < 2
    then set k | k in t && (k.kernel in shas || k.upstream in shas)
    else set k | k in t && k.kernel in shas && k.upstream in shas
  }

  /** abandon_fix_cl on both tables, or on one if the caller names it (then there is no other).  There
      must be a row, and only one unless the caller insists. */
  method AbandonFixCl(one: FixesTable, other: FixesTable?, shas: seq<string>, reason: Option<string>, force: bool,
                      now: nat)
    returns (status: nat)
    requires one != other && one.Valid() && (other != null ==> other.Valid())
    modifies one, other
    ensures one.Valid() && one.Evolved() && (other != null ==> other.Valid() && other.Evolved())
    ensures var more := if other != null then |Found(old(other.rows), shas)| else 0;
            status == if |Found(old(one.rows), shas)| + more == 1
                         || (force && |Found(old(one.rows), shas)| + more > 1) then 0 else 1
    ensures one.rows == if status == 0 then OnAll(old(one.rows), Found(old(one.rows), shas), Abandon(now, reason))
            else old(one.rows)
    ensures other != null ==>
              other.rows == if status == 0
                            then OnAll(old(other.rows), Found(old(other.rows), shas), Abandon(now, reason))
                            else old(other.rows)
    ensures status == 0 ==>
              forall t: FixesTable | t == one || t == other :: forall k <- old(t.rows) ::
                var r := old(t.rows)[k];
                && k in t.rows
                && t.rows[k] == if k in Found(old(t.rows), shas) && r.status in {OPEN, CONFLICT}
                                then r.(status := ABANDONED, closeTime := Some(now), reason := reason) else r
  {
    hide TableInv, Evolves, OnAll, Found;
    var foundOne, foundOther := Found(one.rows, shas), if other != null then Found(other.rows, shas) else {};
    EvolvesSelf(one.rows);
    if other != null {
      EvolvesSelf(other.rows);
    }
    if |foundOne| + |foundOther| == 0 || (|foundOne| + |foundOther| > 1 && !force) {
      return 1;
    }
    one.AbandonRows(foundOne, reason, now);
    if other != null {
      other.AbandonRows(foundOther, reason, now);
    }
    return 0;
  }

  /** restore_fix_cl on both tables, or on one. */
  method RestoreFixCl(one: FixesTable, other: FixesTable?, shas: seq<string>, reason: Option<string>, force: bool)
    returns (status: nat)
    requires one != other && one.Valid() && (other != null ==> other.Valid())
    modifies one, other
    ensures one.Valid() && one.Evolved() && (other != null ==> other.Valid() && other.Evolved())
    ensures var more := if other != null then |Found(old(other.rows), shas)| else 0;
            status == if |Found(old(one.rows), shas)| + more == 1
                         || (force && |Found(old(one.rows), shas)| + more > 1) then 0 else 1
    ensures one.rows == if status == 0 then OnAll(old(one.rows), Found(old(one.rows), shas), Restore(reason))
            else old(one.rows)
    ensures other != null ==>
              other.rows == if status == 0 then OnAll(old(other.rows), Found(old(other.rows), shas), Restore(reason))
                            else old(other.rows)
    ensures status == 0 ==>
              forall t: FixesTable | t == one || t == other :: forall k <- old(t.rows) ::
                var r := old(t.rows)[k];
                var status := if r.changeId.Some? && r.changeId.value != "" then OPEN else r.initial;
                && k in t.rows
                && t.rows[k] == if k in Found(old(t.rows), shas) && r.status == ABANDONED
                                then r.(status := status, closeTime := None, reason := reason) else r
  {
    hide TableInv, Evolves, OnAll, Found;
    var foundOne, foundOther := Found(one.rows, shas), if other != null then Found(other.rows, shas) else {};
    EvolvesSelf(one.rows);
    if other != null {
      EvolvesSelf(other.rows);
    }
    if |foundOne| + |foundOther| == 0 || (|foundOne| + |foundOther| > 1 && !force) {
      return 1;
    }
    one.RestoreRows(foundOne, reason);
    if other != null {
      other.RestoreRows(foundOther, reason);
    }
    return 0;
  }

  // ---------- restoring ----------

  /** The rows that the query of update_change_restored finds: both shas may match either column. */
  function Matches(t: Table, k: Key): (r: set<Key>)
    ensures forall l <- t ::
              l in r <==> (l.kernel == k.kernel || l.kernel == k.upstream)
                          && (l.upstream == k.kernel || l.upstream == k.upstream)
    ensures r <= t.Keys
  {
    set l | l in t && l.kernel in [k.kernel, k.upstream] && l.upstream in [k.kernel, k.upstream]
  }

  lemma MatchesItself(t: Table, k: Key)
    ensures k in t ==> k in Matches(t, k)
    ensures forall l <- Matches(t, k) :: l in t
  {
  }

  /** The row with the key after it was restored with the status that the row r calls for. */
  function RestoredFrom(t: Table, k: Key, r: Row, reason: Option<string>): Table {
    if k in t && t[k].status == ABANDONED
    then t[k := t[k].(status := RestoredStatus(r), closeTime := None, reason := reason)] else t
  }

  lemma RestoreAlone(t: Table, k: Key, reason: Option<string>)
    requires TableInv(t)
    ensures k in t ==> Matches(t, k) == {k} && RestoredFrom(t, k, t[k], reason) == On(t, k, Restore(reason))
    ensures TableInv(On(t, k, Restore(reason))) && Evolves(t, On(t, k, Restore(reason)))
  {
    OnEvolves(t, k, Restore(reason));
    EvolvesSelf(t);
    hide Reachable, Evolves;
    if k in t {
      assert t[k := t[k]] == t;
    }
  }

  /** An abandoned row gets back its own status exactly if the row that is found calls for the same. */
  lemma RestoredAsItsOwn(t: Table, k: Key, first: Key, reason: Option<string>)
    requires k in t && first in t && t[k].status == ABANDONED
    ensures RestoredFrom(t, k, t[first], reason) == On(t, k, Restore(reason)) <==>
            RestoredStatus(t[first]) == RestoredStatus(t[k])
  {
    var u, v := RestoredFrom(t, k, t[first], reason), On(t, k, Restore(reason));
    assert u[k].status == RestoredStatus(t[first]) && v[k].status == RestoredStatus(t[k]);
  }

  /** Two rows that each have the other's shas: the second may lend its conflict to the first. */
  lemma RestoredAsAnother(now: nat)
    ensures var k, l := Key("a", "b"), Key("b", "a");
            var t := map[k := Apply(NewRow("v", now, OPEN, Some("I1"), None), Abandon(now, None)),
                         l := NewRow("v", now, CONFLICT, None, None)];
            l in Matches(t, k) && RestoredFrom(t, k, t[l], None) != On(t, k, Restore(None))
  {
    var k, l := Key("a", "b"), Key("b", "a");
    var t := map[k := Apply(NewRow("v", now, OPEN, Some("I1"), None), Abandon(now, None)),
                 l := NewRow("v", now, CONFLICT, None, None)];
    RestoredAsItsOwn(t, k, l, None);
  }

  // ---------- what the statements over many rows do ----------

  const APPLIED_REASON := Some("Patch has been applied to linux_chome")
  const EXTERNAL_REASON := Some("Fix was merged externally and detected by robot.")

  function MergeApplied(t: Table, branch: string, applied: set<string>, now: nat): Table {
    map k | k in t ::
      if t[k].branch == branch && k.upstream in applied && t[k].status != MERGED
      then Apply(t[k], Merge(now, APPLIED_REASON)) else t[k]
  }

  lemma MergeAppliedEvolves(t: Table, branch: string, applied: set<string>, now: nat)
    requires TableInv(t)
    ensures TableInv(MergeApplied(t, branch, applied, now)) && Evolves(t, MergeApplied(t, branch, applied, now))
  {
    var u := MergeApplied(t, branch, applied, now);
    forall k <- t ensures Leads(t[k], u[k]) && Reachable(u[k]) {
      LeadsSelf(t[k]);
      LeadsBy(t[k], Merge(now, APPLIED_REASON));
      ReachableLeads(t[k], u[k]);
    }
  }

  /** What fixup_unmerged_patches does to a row, given what git says about its fix and the change
      that Gerrit creates for it, if any. */
  function FixupRow(r: Row, branch: string, now: nat, gitStatus: Status, created: Option<string>): Row {
    if r.status == MERGED || r.branch != branch then r
    else if r.status == CONFLICT && gitStatus == OPEN then
      if Truthy(created) then Apply(r, OpenConflict(created.value)) else r
    else if gitStatus == MERGED then Apply(r, Merge(now, EXTERNAL_REASON))
    else r
  }

  function Fixup(t: Table, branch: string, now: nat, git: string -> Status, create: Key -> Option<string>): Table {
    map k | k in t :: FixupRow(t[k], branch, now, git(k.upstream), create(k))
  }

  /** What updating a branch does to its rows. */
  lemma BranchUpdated(t: Table, branch: string, applied: set<string>, now: nat, git: string -> Status,
                      create: Key -> Option<string>)
    ensures var u := Fixup(MergeApplied(t, branch, applied, now), branch, now, git, create);
            && u.Keys == t.Keys
            && (forall k <- t | t[k].branch != branch || t[k].status == MERGED :: u[k] == t[k])
            && forall k <- t | t[k].branch == branch && t[k].status != MERGED ::
                 var r := t[k];
                 && (k.upstream in applied ==>
                       u[k] == r.(status := MERGED, closeTime := Some(now),
                                  reason := Some("Patch has been applied to linux_chome")))
                 && (k.upstream !in applied && git(k.upstream) == MERGED ==>
                       u[k] == r.(status := MERGED, closeTime := Some(now),
                                  reason := Some("Fix was merged externally and detected by robot.")))
                 && (k.upstream !in applied && git(k.upstream) == OPEN && r.status == CONFLICT ==>
                       u[k] == if create(k).None? || create(k).value == "" then r
                               else r.(status := OPEN, changeId := create(k),
                                       reason := Some("Patch applies cleanly after originally conflicting.")))
                 && (k.upstream !in applied && git(k.upstream) in {CONFLICT, ABANDONED} ==> u[k] == r)
                 && (k.upstream !in applied && git(k.upstream) == OPEN && r.status != CONFLICT ==> u[k] == r)
  {
  }

  function OnAll(t: Table, ks: set<Key>, e: Event): Table {
    map k | k in t :: if k in ks then Apply(t[k], e) else t[k]
  }

  lemma OnAllNext(t: Table, ks: set<Key>, k: Key, e: Event)
    requires k in t && k !in ks
    ensures On(OnAll(t, ks, e), k, e) == OnAll(t, ks + {k}, e)
  {
  }

  /** Abandoning and then restoring the same rows: live rows come back as they were except for
      close time and reason; so do rows that had been abandoned before. */
  lemma AbandonThenRestore(t: Table, ks: set<Key>, now: nat, why: Option<string>, back: Option<string>)
    requires TableInv(t) && ks <= t.Keys
    ensures var u := OnAll(OnAll(t, ks, Abandon(now, why)), ks, Restore(back));
            forall k <- t ::
              && (k !in ks || t[k].status == MERGED ==> u[k] == t[k])
              && (k in ks && t[k].status in {OPEN, CONFLICT} ==> u[k] == t[k].(closeTime := None, reason := back))
              && (k in ks && t[k].status == ABANDONED ==> u[k] == Apply(t[k], Restore(back)))
  {
    forall k <- t | t[k].status in {OPEN, CONFLICT}
      ensures Apply(Apply(t[k], Abandon(now, why)), Restore(back)) == t[k].(closeTime := None, reason := back) {
      AbandonRestore(t[k], now, why, back);
    }
  }

  const DEFAULT_MERGED_REASON := Some("Fix merged into linux chrome")

  lemma NewIsReachable(r: Row)
    requires Inserted(r)
    ensures Reachable(r)
  {
    LeadsSelf(r);
  }

  // ---------- missing.py: new rows ----------

  /** The table after an INSERT that may have been refused. */
  function With(t: Table, k: Key, row: Row, ok: bool): Table {
    if ok && k !in t && row.initial != ABANDONED then t[k := row] else t
  }

  /** The key fits the table: no sha is a kernel sha here and an upstream sha there. */
  ghost predicate Fits(t: Table, k: Key) {
    k.kernel != k.upstream && forall l <- t :: k.kernel != l.upstream && l.kernel != k.upstream
  }

  function DuplicateReason(recorded: string): Option<string> {
    Some("Already merged/queued into linux_chrome [upstream sha " + recorded + "]")
  }

  function AlreadyMergedReason(fixedby: string): Option<string> {
    Some("Already merged into linux_chrome [upstream sha " + fixedby + "]")
  }

  const BEFORE_ROBOT_REASON := Some("Patch applied to linux_chrome before this robot was run")

  /** The table after the merged rows for the commits have been inserted, where the server took them. */
  function WithMerged(t: Table, branch: string, fixedby: string, merged: seq<string>, now: nat,
                      ok: Key -> bool): Table {
    map k | k in t.Keys + (set sha | sha in merged && ok(Key(sha, fixedby)) :: Key(sha, fixedby)) ::
      if k in t then t[k] else NewRow(branch, now, MERGED, None, AlreadyMergedReason(fixedby))
  }

  lemma MergedRows(t: Table, branch: string, fixedby: string, merged: seq<string>, now: nat, ok: Key -> bool)
    ensures var v := WithMerged(t, branch, fixedby, merged, now, ok);
            && (forall l :: l in v <==> l in t || (l.upstream == fixedby && l.kernel in merged && ok(l)))
            && forall l <- v ::
                 v[l] == if l in t then t[l] else NewRow(branch, now, MERGED, None, AlreadyMergedReason(fixedby))
  {
    forall l: Key | l.upstream == fixedby && l.kernel in merged && ok(l)
      ensures l in WithMerged(t, branch, fixedby, merged, now, ok)
    {
      assert l == Key(l.kernel, fixedby);
    }
  }

  lemma WithMergedNext(t: Table, branch: string, fixedby: string, merged: seq<string>, i: nat, now: nat,
                       ok: Key -> bool)
    requires i < |merged|
    ensures var k := Key(merged[i], fixedby);
            var row := NewRow(branch, now, MERGED, None, AlreadyMergedReason(fixedby));
            WithMerged(t, branch, fixedby, merged[..i + 1], now, ok) ==
            With(WithMerged(t, branch, fixedby, merged[..i], now, ok), k, row, ok(k))
  {
    var k := Key(merged[i], fixedby);
    var u, v := WithMerged(t, branch, fixedby, merged[..i], now, ok),
      WithMerged(t, branch, fixedby, merged[..i + 1], now, ok);
    MergedRows(t, branch, fixedby, merged[..i], now, ok);
    MergedRows(t, branch, fixedby, merged[..i + 1], now, ok);
    hide WithMerged, AlreadyMergedReason, NewRow;
    assert forall sha :: sha in merged[..i + 1] <==> sha in merged[..i] || sha == merged[i];
    assert v.Keys == u.Keys + if ok(k) then {k} else {};
  }

  /** insert_by_patch_id.  `duplicate` is a row of the branch for the same patch under another sha;
      `merged` are the kernel commits that the patch fixes and that already contain it. */
  method InsertByPatchId(chrome: FixesTable, branch: string, fixedby: string, duplicate: Option<Key>,
                         merged: seq<string>, now: nat, ok: Key -> bool) returns (found: bool)
    requires chrome.Valid()
    requires duplicate.Some? ==>
             duplicate.value in chrome.rows && Fits(chrome.rows, Key(duplicate.value.kernel, fixedby))
    requires forall sha <- merged :: Fits(chrome.rows, Key(sha, fixedby)) && forall other <- merged :: other != fixedby
    modifies chrome
    ensures chrome.Valid() && chrome.Evolved()
    ensures found <==> duplicate.Some? || merged != []
    ensures duplicate.Some? ==>
              var status, k := old(chrome.rows)[duplicate.value].status, Key(duplicate.value.kernel, fixedby);
              && chrome.rows ==
                 With(old(chrome.rows), k,
                      DuplicateRow(branch, now, status, DuplicateReason(duplicate.value.upstream)), ok(k))
              && (k in chrome.rows && k !in old(chrome.rows) ==> (Dated(chrome.rows[k]) <==> status == CONFLICT))
    ensures duplicate == None ==> chrome.rows == WithMerged(old(chrome.rows), branch, fixedby, merged, now, ok)
    ensures duplicate.Some? ==>
              var status, k := old(chrome.rows)[duplicate.value].status, Key(duplicate.value.kernel, fixedby);
              var reason := "Already merged/queued into linux_chrome [upstream sha " + duplicate.value.upstream + "]";
              chrome.rows == if ok(k) && k !in old(chrome.rows) && status != ABANDONED
                             then old(chrome.rows)[k := Row(branch, now, Some(now), None, status,
                                                            if status == OPEN then ABANDONED else status, Some(reason))]
                             else old(chrome.rows)
    ensures duplicate == None ==>
              forall l :: l in chrome.rows <==>
                          l in old(chrome.rows) || (l.upstream == fixedby && l.kernel in merged && ok(l))
    ensures duplicate == None ==>
              var reason := "Already merged into linux_chrome [upstream sha " + fixedby + "]";
              forall l <- chrome.rows ::
                chrome.rows[l] == if l in old(chrome.rows) then old(chrome.rows)[l]
                                  else Row(branch, now, Some(now), None, MERGED, MERGED, Some(reason))
  {
    hide TableInv, Evolves, Inserted, Reachable;
    if duplicate.Some? {
      var kernel, status := duplicate.value.kernel, chrome.rows[duplicate.value].status;
      var reason := DuplicateReason(duplicate.value.upstream);
      var finalStatus := status;
      if finalStatus == OPEN {
        finalStatus := ABANDONED;
      }
      var row := Row(branch, now, Some(now), None, status, finalStatus, reason);
      assert row == DuplicateRow(branch, now, status, reason);
      if status != ABANDONED {
        DuplicateInserted(branch, now, status, reason);
      }
      chrome.InsertRow(Key(kernel, fixedby), row, ok(Key(kernel, fixedby)));
      return true;
    }
    EvolvesSelf(chrome.rows);
    ghost var start := chrome.rows;
    var reason := AlreadyMergedReason(fixedby);
    MergedInserted(branch, now, None, reason);
    assert WithMerged(start, branch, fixedby, [], now, ok) == start;
    for i := 0 to |merged|
      invariant chrome.Valid() && Evolves(start, chrome.rows)
      invariant forall j :: i <= j < |merged| ==> Fits(chrome.rows, Key(merged[j], fixedby))
      invariant chrome.rows == WithMerged(start, branch, fixedby, merged[..i], now, ok)
    {
      ghost var before := chrome.rows;
      WithMergedNext(start, branch, fixedby, merged, i, now, ok);
      var k := Key(merged[i], fixedby);
      chrome.InsertRow(k, Row(branch, now, Some(now), None, MERGED, MERGED, reason), ok(k));
      EvolvesTransitive(start, before, chrome.rows);
    }
    assert merged[..|merged|] == merged;
    MergedRows(start, branch, fixedby, merged, now, ok);
    return merged != [];
  }

  /** A table in which a fix conflicts, and another sha of the same patch: the row that is entered for
      it is live with a close time. */
  lemma ConflictIsRepeated(now: nat)
    ensures var t := map[Key("k", "a") := NewRow("v", now, CONFLICT, None, None)];
            var row := DuplicateRow("v", now, CONFLICT, DuplicateReason("a"));
            TableInv(t) && Fits(t, Key("k", "b")) && Dated(With(t, Key("k", "b"), row, true)[Key("k", "b")])
  {
    FreshInserted("v", now, CONFLICT, None, None);
    NewIsReachable(NewRow("v", now, CONFLICT, None, None));
  }

  lemma DuplicateInserted(branch: string, now: nat, status: Status, reason: Option<string>)
    requires status != ABANDONED
    ensures Inserted(DuplicateRow(branch, now, status, reason))
  {
  }

  lemma MergedInserted(branch: string, now: nat, changeId: Option<string>, reason: Option<string>)
    ensures Inserted(NewRow(branch, now, MERGED, changeId, reason))
  {
  }

  lemma FreshInserted(branch: string, now: nat, status: Status, changeId: Option<string>, reason: Option<string>)
    requires status != ABANDONED && (status == OPEN ==> Truthy(changeId)) && (status == CONFLICT ==> changeId == None)
    ensures Inserted(NewRow(branch, now, status, changeId, reason))
  {
  }

  /** insert_fix_gerrit, given what git says about the fix (`gitStatus`), the change that Gerrit
      creates for it and the change id of the commit that contains it, if there is one. */
  method InsertFixGerrit(t: FixesTable, chrome: FixesTable, k: Key, branch: string, duplicate: Option<Key>,
                         merged: seq<string>, gitStatus: Status, created: Option<string>,
                         commitChangeId: Option<string>, now: nat, ok: Key -> bool)
    returns (newChange: bool)
    requires t.Valid() && chrome.Valid() && gitStatus != ABANDONED && Fits(t.rows, k)
    requires duplicate.Some? ==>
             duplicate.value in chrome.rows && Fits(chrome.rows, Key(duplicate.value.kernel, k.upstream))
    requires forall sha <- merged ::
              Fits(chrome.rows, Key(sha, k.upstream)) && forall other <- merged :: other != k.upstream
    modifies t, chrome
    ensures t.Valid() && chrome.Valid() && t.Evolved() && chrome.Evolved()
    ensures duplicate.Some? || merged != [] ==> !newChange && (t != chrome ==> t.rows == old(t.rows))
    ensures duplicate.Some? ==>
              var status, l := old(chrome.rows)[duplicate.value].status, Key(duplicate.value.kernel, k.upstream);
              chrome.rows == With(old(chrome.rows), l,
                                  DuplicateRow(branch, now, status, DuplicateReason(duplicate.value.upstream)), ok(l))
    ensures duplicate == None && merged != [] ==>
              chrome.rows == WithMerged(old(chrome.rows), branch, k.upstream, merged, now, ok)
    ensures duplicate == None && merged == [] ==>
              && (newChange <==> gitStatus == OPEN && Truthy(created))
              && t.rows == (if gitStatus == OPEN && !Truthy(created) then old(t.rows)
                            else With(old(t.rows), k,
                                      NewRow(branch, now, gitStatus,
                                             if gitStatus == OPEN then created
                                             else if gitStatus == MERGED then commitChangeId
                                             else None,
                                             if gitStatus == MERGED then BEFORE_ROBOT_REASON else None), ok(k)))
              && (t != chrome ==> chrome.rows == old(chrome.rows))
    ensures duplicate == None && merged == [] ==>
              t.rows == if !ok(k) || k in old(t.rows) then old(t.rows) else
                match gitStatus
                case MERGED =>
                  var reason := Some("Patch applied to linux_chrome before this robot was run");
                  old(t.rows)[k := Row(branch, now, Some(now), commitChangeId, MERGED, MERGED, reason)]
                case OPEN =>
                  if created.None? || created.value == "" then old(t.rows)
                  else old(t.rows)[k := Row(branch, now, None, created, OPEN, OPEN, None)]
                case CONFLICT => old(t.rows)[k := Row(branch, now, None, None, CONFLICT, CONFLICT, None)]
                case ABANDONED => old(t.rows)
  {
    hide TableInv, Evolves, Inserted, Reachable;
    EvolvesSelf(t.rows);
    ghost var before := chrome.rows;
    var success := InsertByPatchId(chrome, branch, k.upstream, duplicate, merged, now, ok);
    if success {
      return false;
    }
    assert chrome.rows == before;
    EvolvesSelf(chrome.rows);
    newChange := false;
    var closeTime: Option<nat>, changeId: Option<string>, reason: Option<string> := None, None, None;
    match gitStatus {
      case MERGED =>
        reason := BEFORE_ROBOT_REASON;
        closeTime := Some(now);
        changeId := commitChangeId;
      case OPEN =>
        changeId := created;
        newChange := Truthy(changeId);
        if !newChange {
          return;
        }
      case CONFLICT =>
    }
    FreshInserted(branch, now, gitStatus, changeId, reason);
    t.InsertRow(k, Row(branch, now, closeTime, changeId, gitStatus, gitStatus, reason), ok(k));
  }
}
