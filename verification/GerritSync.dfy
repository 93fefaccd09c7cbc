/** Bringing the rows of a fixes table to the state that Gerrit reports for their changes
    (contrib/findmissing: cloudsql_interface.py and synchronize.py). */
module GerritSync {
  import opened Prelude
  import opened FixRows
  import opened FixesDb

  /** gerrit_status_to_db_status; None is a KeyError. */
  function GerritStatusToDbStatus(s: string): (r: Option<Status>)
    ensures r != Some(CONFLICT)
  {
    if s == "NEW" then Some(OPEN)
    else if s == "ABANDONED" then Some(ABANDONED)
    else if s == "MERGED" then Some(MERGED)
    else None
  }

  function EventFor(status: Status, now: nat): Event {
    if status == OPEN then Restore(None)
    else if status == ABANDONED then Abandon(now, None)
    else Merge(now, DEFAULT_MERGED_REASON)
  }

  /** Some row carries the change id. */
  ghost predicate Carried(t: Table, id: string) {
    exists l <- t :: t[l].changeId == Some(id)
  }

  /** For every change id in the table the database picks a row that carries it, always the same. */
  ghost predicate Picks(t: Table, pick: string -> Key) {
    forall id | Carried(t, id) :: pick(id) in t && t[pick(id)].changeId == Some(id)
  }

  /** The two tables have the same rows with the same change ids. */
  ghost predicate SameIds(t: Table, u: Table) {
    u.Keys == t.Keys && forall l <- t :: u[l].changeId == t[l].changeId
  }

  lemma SameCarried(t: Table, u: Table, id: string)
    requires SameIds(t, u)
    ensures Carried(t, id) <==> Carried(u, id)
  {
    if l :| l in t && t[l].changeId == Some(id) {
      assert u[l].changeId == Some(id);
    }
  }

  lemma SamePicks(t: Table, u: Table, pick: string -> Key)
    requires SameIds(t, u) && Picks(t, pick)
    ensures Picks(u, pick)
  {
    forall id | Carried(u, id) ensures pick(id) in u && u[pick(id)].changeId == Some(id) {
      SameCarried(t, u, id);
    }
  }

  lemma OnSameIds(t: Table, k: Key, status: Status, now: nat)
    ensures SameIds(t, On(t, k, EventFor(status, now)))
  {
  }

  /** What bringing a row to a reported status does to the table. */
  lemma StatusInFields(t: Table, k: Key, status: Status, now: nat)
    ensures var u := On(t, k, EventFor(status, now));
            && u.Keys == t.Keys && (forall l <- t | l != k :: u[l] == t[l])
            && (k in t && status != CONFLICT ==>
                  var r := t[k];
                  u[k] == if status == OPEN && r.status == ABANDONED then
                            r.(status := if Truthy(r.changeId) then OPEN else r.initial, closeTime := None,
                               reason := None)
                          else if status == ABANDONED && r.status in {OPEN, CONFLICT} then
                            r.(status := ABANDONED, closeTime := Some(now), reason := None)
                          else if status == MERGED then
                            r.(status := MERGED, closeTime := Some(now),
                               reason := Some("Fix merged into linux chrome"))
                          else r)
  {
  }

  /** update_change_status: brings the row that the database picks for the change id to the state that
      Gerrit reports.  ok is false where the original raises an error: no row carries the id, or the
      status is a conflict. */
  method UpdateChangeStatus(t: FixesTable, changeId: string, status: Status, pick: string -> Key, now: nat)
    returns (ok: bool)
    requires t.Valid() && Picks(t.rows, pick)
    modifies t
    ensures t.Valid() && t.Evolved()
    ensures ok <==> status != CONFLICT && Carried(old(t.rows), changeId)
    ensures t.rows == if ok then On(old(t.rows), pick(changeId), EventFor(status, now)) else old(t.rows)
    ensures forall k <- old(t.rows) :: k in t.rows && (k != pick(changeId) ==> t.rows[k] == old(t.rows)[k])
    ensures ok ==>
              var r := old(t.rows)[pick(changeId)];
              t.rows[pick(changeId)] ==
              if status == OPEN && r.status == ABANDONED then
                r.(status := if changeId != "" then OPEN else r.initial, closeTime := None, reason := None)
              else if status == ABANDONED && r.status in {OPEN, CONFLICT} then
                r.(status := ABANDONED, closeTime := Some(now), reason := None)
              else if status == MERGED then
                r.(status := MERGED, closeTime := Some(now), reason := Some("Fix merged into linux chrome"))
              else r
  {
    EvolvesSelf(t.rows);
    StatusInFields(t.rows, pick(changeId), status, now);
    var found := set l | l in t.rows && t.rows[l].changeId == Some(changeId);
    assert found == {} <==> !Carried(t.rows, changeId) by {
      assert forall l <- t.rows :: t.rows[l].changeId == Some(changeId) ==> l in found;
    }
    if found == {} || status == CONFLICT {
      return false;
    }
    hide TableInv, Evolves, RestoredFrom, Matches, Carried, On, EventFor;
    assert pick(changeId) in t.rows;
    hide Picks;
    match status {
      case OPEN =>
        var _ := t.UpdateChangeRestored(pick(changeId), None);
      case ABANDONED => t.UpdateChangeAbandoned(pick(changeId), now, None);
      case MERGED => t.UpdateChangeMerged(pick(changeId), now, DEFAULT_MERGED_REASON);
    }
    return true;
  }

  // ---------- the visits of one table ----------

  /** A row of the answer of synchronize_fixes_tables_with_gerrit's query. */
  datatype Visit = Visit(id: string, branch: string)

  /** What Gerrit says of the change; None if it is nothing known. */
  function EventOf(v: Visit, gerrit: (string, string) -> string, now: nat): Option<Event> {
    var status := GerritStatusToDbStatus(gerrit(v.id, v.branch));
    if status.Some? then Some(EventFor(status.value, now)) else None
  }

  /** The events that the visits bring to the row l. */
  ghost function Happens(visits: seq<Visit>, gerrit: (string, string) -> string, pick: string -> Key, now: nat,
                         l: Key): seq<Event> {
    if visits == [] then []
    else
      var v := visits[|visits| - 1];
      Happens(visits[..|visits| - 1], gerrit, pick, now, l)
      + if pick(v.id) == l && EventOf(v, gerrit, now).Some? then [EventOf(v, gerrit, now).value] else []
  }

  ghost function Replayed(r: Row, es: seq<Event>): Row {
    if es == [] then r else Apply(Replayed(r, es[..|es| - 1]), es[|es| - 1])
  }

  /** The table after the visits: each row has undergone what the visits bring to it. */
  ghost function Synced(t: Table, visits: seq<Visit>, gerrit: (string, string) -> string, pick: string -> Key,
                        now: nat): Table {
    map l | l in t :: Replayed(t[l], Happens(visits, gerrit, pick, now, l))
  }

  lemma ReplayedNext(r: Row, es: seq<Event>, e: Event)
    ensures Replayed(r, es + [e]) == Apply(Replayed(r, es), e)
  {
    assert (es + [e])[..|es|] == es;
  }

  lemma HappensNext(visits: seq<Visit>, i: nat, gerrit: (string, string) -> string, pick: string -> Key, now: nat,
                    l: Key)
    requires i < |visits|
    ensures var e := EventOf(visits[i], gerrit, now);
            Happens(visits[..i + 1], gerrit, pick, now, l) ==
            Happens(visits[..i], gerrit, pick, now, l) + if pick(visits[i].id) == l && e.Some? then [e.value] else []
  {
    hide EventOf;
    assert visits[..i + 1][..i] == visits[..i];
  }

  lemma SyncedNext(t: Table, visits: seq<Visit>, i: nat, gerrit: (string, string) -> string, pick: string -> Key,
                   now: nat)
    requires i < |visits| && pick(visits[i].id) in t
    ensures var u := Synced(t, visits[..i], gerrit, pick, now); var e := EventOf(visits[i], gerrit, now);
            Synced(t, visits[..i + 1], gerrit, pick, now) == if e.Some? then On(u, pick(visits[i].id), e.value) else u
  {
    hide EventOf, Replayed, Happens, Apply;
    forall l <- t {
      HappensNext(visits, i, gerrit, pick, now, l);
    }
    var k, e := pick(visits[i].id), EventOf(visits[i], gerrit, now);
    if e.Some? {
      ReplayedNext(t[k], Happens(visits[..i], gerrit, pick, now, k), e.value);
    }
    forall l <- t
      ensures Happens(visits[..i], gerrit, pick, now, l) + [] == Happens(visits[..i], gerrit, pick, now, l)
    {
    }
  }

  /** synchronize_fixes_tables_with_gerrit for one table; `visits` is the answer of its query. */
  method SynchronizeWithGerrit(t: FixesTable, visits: seq<Visit>, gerrit: (string, string) -> string,
                               pick: string -> Key, now: nat)
    requires t.Valid() && Picks(t.rows, pick) && forall v <- visits :: Carried(t.rows, v.id)
    modifies t
    ensures t.Valid() && t.Evolved() && SameIds(old(t.rows), t.rows)
    ensures t.rows == Synced(old(t.rows), visits, gerrit, pick, now)
  {
    hide TableInv, Evolves, Picks, SameIds, Carried, On, Synced;
    ghost var start := t.rows;
    EvolvesSelf(t.rows);
    SyncedNothing(start, gerrit, pick, now);
    for i := 0 to |visits|
      invariant t.Valid() && Evolves(start, t.rows) && SameIds(start, t.rows)
      invariant t.rows == Synced(start, visits[..i], gerrit, pick, now)
    {
      ghost var before := t.rows;
      EvolvesSelf(before);
      assert visits[i] in visits;
      PickedThere(start, pick, visits[i].id);
      SamePicks(start, before, pick);
      SameCarried(start, before, visits[i].id);
      SyncedNext(start, visits, i, gerrit, pick, now);
      var status := GerritStatusToDbStatus(gerrit(visits[i].id, visits[i].branch));
      if status.Some? {
        OnSameIds(before, pick(visits[i].id), status.value, now);
        var _ := UpdateChangeStatus(t, visits[i].id, status.value, pick, now);
      }
      EvolvesTransitive(start, before, t.rows);
      SameIdsTransitive(start, before, t.rows);
    }
    assert visits[..|visits|] == visits;
  }

  lemma SyncedNothing(t: Table, gerrit: (string, string) -> string, pick: string -> Key, now: nat)
    ensures Synced(t, [], gerrit, pick, now) == t && SameIds(t, t)
  {
  }

  lemma PickedThere(t: Table, pick: string -> Key, id: string)
    requires Picks(t, pick) && Carried(t, id)
    ensures pick(id) in t
  {
  }

  lemma SameIdsTransitive(a: Table, b: Table, c: Table)
    requires SameIds(a, b) && (SameIds(b, c) || b == c)
    ensures SameIds(a, c)
  {
  }

  // ---------- what becomes of the rows ----------

  /** The rows that the query selects. */
  predicate Follows(r: Row) {
    (r.status == OPEN || r.status == ABANDONED) && r.changeId.Some?
  }

  /** The answer lists exactly the open and abandoned rows with a change id: those under the keys. */
  ghost predicate IsAnswer(t: Table, keys: seq<Key>, visits: seq<Visit>) {
    && Distinct(keys) && |visits| == |keys|
    && (forall k :: k in keys <==> k in t && Follows(t[k]))
    && forall i :: 0 <= i < |keys| ==>
       keys[i] in keys && visits[i] == Visit(t[keys[i]].changeId.value, t[keys[i]].branch)
  }

  /** No change id stands for two rows. */
  ghost predicate UniqueIds(t: Table) {
    forall k <- t, l <- t :: t[k].changeId.Some? && t[k].changeId == t[l].changeId ==> k == l
  }

  /** The row in the state that Gerrit reports for its change. */
  function Followed(r: Row, gerrit: (string, string) -> string, now: nat): Row {
    if Follows(r) && EventOf(Visit(r.changeId.value, r.branch), gerrit, now).Some?
    then Apply(r, EventOf(Visit(r.changeId.value, r.branch), gerrit, now).value) else r
  }

  /** A row that the database picks for nobody stays as it is: it never follows Gerrit. */
  lemma {:induction false} HappensNever(visits: seq<Visit>, gerrit: (string, string) -> string, pick: string -> Key,
                                        now: nat, l: Key)
    requires forall v <- visits :: pick(v.id) != l
    ensures Happens(visits, gerrit, pick, now, l) == []
  {
    if visits != [] {
      assert visits[|visits| - 1] in visits;
      HappensNever(visits[..|visits| - 1], gerrit, pick, now, l);
    }
  }

  lemma {:induction false} HappensOnce(visits: seq<Visit>, gerrit: (string, string) -> string, pick: string -> Key,
                                       now: nat, l: Key, i: nat)
    requires i < |visits| && forall j :: 0 <= j < |visits| ==> (pick(visits[j].id) == l <==> j == i)
    ensures var e := EventOf(visits[i], gerrit, now);
            Happens(visits, gerrit, pick, now, l) == if e.Some? then [e.value] else []
  {
    hide EventOf;
    var n := |visits| - 1;
    if i < n {
      HappensOnce(visits[..n], gerrit, pick, now, l, i);
    } else {
      HappensNever(visits[..n], gerrit, pick, now, l);
    }
  }

  /** Rows that share no change id follow Gerrit each on its own, in whatever order they are visited;
      all others stay as they are. */
  lemma SyncedAlone(t: Table, keys: seq<Key>, visits: seq<Visit>, gerrit: (string, string) -> string,
                    pick: string -> Key, now: nat)
    requires Picks(t, pick) && UniqueIds(t) && IsAnswer(t, keys, visits)
    ensures forall l <- t :: Synced(t, visits, gerrit, pick, now)[l] == Followed(t[l], gerrit, now)
  {
    forall l <- t ensures Replayed(t[l], Happens(visits, gerrit, pick, now, l)) == Followed(t[l], gerrit, now) {
      VisitsOf(t, keys, visits, pick, l);
      hide EventOf, Picks, UniqueIds, IsAnswer, Apply, Follows;
      if i: nat :| i < |keys| && keys[i] == l {
        HappensOnce(visits, gerrit, pick, now, l, i);
        FollowsKey(t, keys, visits, i);
        ReplayedOnce(t[l], EventOf(visits[i], gerrit, now));
      } else {
        HappensNever(visits, gerrit, pick, now, l);
      }
    }
  }

  /** In the words of Gerrit: an abandoned row is restored when its change is new, an open one is
      abandoned with its change, either is merged with it, and any other answer changes nothing. */
  lemma FollowedInFields(t: Table, keys: seq<Key>, visits: seq<Visit>, gerrit: (string, string) -> string,
                         pick: string -> Key, now: nat, l: Key)
    requires Picks(t, pick) && UniqueIds(t) && IsAnswer(t, keys, visits) && l in t
    ensures var r, s := t[l], Synced(t, visits, gerrit, pick, now)[l];
            && (r.changeId == None || r.status in {MERGED, CONFLICT} ==> s == r)
            && (r.changeId.Some? && r.status in {OPEN, ABANDONED} ==>
                  var answer := gerrit(r.changeId.value, r.branch);
                  s == if answer == "NEW" && r.status == ABANDONED then
                         r.(status := if r.changeId.value != "" then OPEN else r.initial, closeTime := None,
                            reason := None)
                       else if answer == "ABANDONED" && r.status == OPEN then
                         r.(status := ABANDONED, closeTime := Some(now), reason := None)
                       else if answer == "MERGED" then
                         r.(status := MERGED, closeTime := Some(now),
                            reason := Some("Fix merged into linux chrome"))
                       else r)
  {
    SyncedAlone(t, keys, visits, gerrit, pick, now);
    FollowedRow(t[l], gerrit, now);
    hide Synced, Picks, UniqueIds, IsAnswer, Followed;
  }

  lemma FollowedRow(r: Row, gerrit: (string, string) -> string, now: nat)
    ensures r.changeId == None || r.status in {MERGED, CONFLICT} ==> Followed(r, gerrit, now) == r
    ensures r.changeId.Some? && r.status in {OPEN, ABANDONED} ==>
              var answer := gerrit(r.changeId.value, r.branch);
              Followed(r, gerrit, now) ==
              if answer == "NEW" && r.status == ABANDONED then
                r.(status := if r.changeId.value != "" then OPEN else r.initial, closeTime := None, reason := None)
              else if answer == "ABANDONED" && r.status == OPEN then
                r.(status := ABANDONED, closeTime := Some(now), reason := None)
              else if answer == "MERGED" then
                r.(status := MERGED, closeTime := Some(now), reason := Some("Fix merged into linux chrome"))
              else r
  {
  }

  lemma ReplayedOnce(r: Row, e: Option<Event>)
    ensures Replayed(r, if e.Some? then [e.value] else []) == if e.Some? then Apply(r, e.value) else r
  {
    if e.Some? {
      assert [e.value][..0] == [];
    }
  }

  lemma FollowsKey(t: Table, keys: seq<Key>, visits: seq<Visit>, i: nat)
    requires IsAnswer(t, keys, visits) && i < |keys|
    ensures keys[i] in t && Follows(t[keys[i]]) && visits[i] == Visit(t[keys[i]].changeId.value, t[keys[i]].branch)
  {
  }

  /** With unique ids, the row l is visited only for itself. */
  lemma VisitsOf(t: Table, keys: seq<Key>, visits: seq<Visit>, pick: string -> Key, l: Key)
    requires Picks(t, pick) && UniqueIds(t) && IsAnswer(t, keys, visits) && l in t
    ensures forall i :: 0 <= i < |visits| ==> (pick(visits[i].id) == l <==> keys[i] == l)
    ensures l !in keys ==> !Follows(t[l]) && forall v <- visits :: pick(v.id) != l
    ensures forall i, j :: 0 <= i < |keys| && 0 <= j < |keys| && keys[i] == keys[j] ==> i == j
  {
    hide Follows;
    forall i | 0 <= i < |visits| ensures pick(visits[i].id) == keys[i] {
      FollowsKey(t, keys, visits, i);
      assert Follows(t[keys[i]]) ==> t[keys[i]].changeId.Some? by { FollowsId(t[keys[i]]); }
      assert Carried(t, visits[i].id);
    }
  }

  lemma FollowsId(r: Row)
    ensures Follows(r) ==> r.changeId.Some?
  {
  }
}
