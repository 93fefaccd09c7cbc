/** The bookkeeping of new_variant: the commits of a variant, the changelists they became, and the
    steps that record them (contrib/variant/new_variant.py, contrib/variant/variant_status.py). */
module VariantStatus {
  import opened Prelude

  const PUSH := "push"
  const UPLOAD := "upload"
  const FIND := "find"
  const CB_VARIANT := "cb_variant"
  const CALC_CQ_DEPEND := "calc_cq_depend"
  const ADD_CQ_DEPEND := "add_cq_depend"
  const RE_UPLOAD := "re_upload"
  const CLEAN_UP := "clean_up"
  const ABORT := "abort"

  /** What a board module says.  `depends` is a dict: its keys in order, and their lists. */
  datatype Board = Board(
    stepList: seq<string>,
    pushList: seq<string>,
    uploadList: seq<string>,
    dependKeys: seq<string>,
    depends: map<string, seq<string>>)

  /** The record of a commit; None is a key that the record lacks. */
  datatype Commit = Commit(
    branchName: Option<string>,
    dir: Option<string>,
    changeId: Option<string>,
    gerrit: Option<string>,
    clNumber: Option<string>,
    cqDepend: Option<string>,
    needsReUpload: bool)

  type Commits = map<string, Commit>

  /** A gerrit instance and a changelist number. */
  type Cl = (string, string)

  /** How a step ends: it returns a truth value, or a missing key ends the process. */
  datatype Outcome = True | False | KeyError

  predicate HasCl(c: Commit) {
    c.gerrit.Some? && c.clNumber.Some?
  }

  /** The commit names its branch and its directory. */
  predicate IsPlace(c: Commit) {
    c.branchName.Some? && c.dir.Some?
  }

  function PlaceOf(c: Commit): (string, string)
    requires IsPlace(c)
  {
    (c.branchName.value, c.dir.value)
  }

  /** Something was done at the branch and directory that the commit names. */
  predicate DoneAt(c: Commit, places: set<(string, string)>) {
    IsPlace(c) && PlaceOf(c) in places
  }

  /** The commit names its branch and directory, and repo refuses to do something there. */
  predicate Refused(c: Commit, act: (string, string) -> bool) {
    IsPlace(c) && !act(PlaceOf(c).0, PlaceOf(c).1)
  }

  /** The lookup before an upload found nothing, and then the upload failed, or the lookup again. */
  predicate NotUploaded(c: Commit, find: string -> Option<Cl>, upload: (string, string) -> bool,
                        findAgain: string -> Option<Cl>) {
    && !HasCl(c) && IsCommitted(c) && find(c.changeId.value) == None
    && (Refused(c, upload) || findAgain(c.changeId.value) == None)
  }

  /** The commit has a line, but its message cannot be amended. */
  predicate NotAmended(c: Commit, amend: string -> bool) {
    c.cqDepend.Some? && (c.dir == None || c.changeId == None || !amend(c.changeId.value))
  }

  predicate IsCommitted(c: Commit) {
    c.branchName.Some? && c.dir.Some? && c.changeId.Some?
  }

  /** c' is c after some of the records under the keys have learnt their changelist. */
  ghost predicate Learnt(c: Commits, keys: seq<string>, c': Commits) {
    && c'.Keys == c.Keys
    && forall k <- c ::
         || c'[k] == c[k]
         || (k in keys && !HasCl(c[k]) && HasCl(c'[k])
             && c'[k] == c[k].(gerrit := c'[k].gerrit, clNumber := c'[k].clNumber))
  }

  /** The record holds the gerrit instance and the number of the changelist that was found. */
  ghost predicate Holds(c: Commit, found: Option<Cl>) {
    found.Some? && c.gerrit == Some(found.value.0) && c.clNumber == Some(found.value.1)
  }

  /** What a record has learnt is what one of the two lookups says of its change id. */
  ghost predicate LearntFrom(c: Commits, c': Commits, find: string -> Option<Cl>, findAgain: string -> Option<Cl>) {
    forall k <- c ::
      k in c' && (c'[k] != c[k] ==>
        c[k].changeId.Some? &&
        (Holds(c'[k], find(c[k].changeId.value)) || Holds(c'[k], findAgain(c[k].changeId.value))))
  }

  lemma LearnOne(c0: Commits, keys: seq<string>, c: Commits, k: string, cl: Cl, find: string -> Option<Cl>,
                 findAgain: string -> Option<Cl>)
    requires Learnt(c0, keys, c) && LearntFrom(c0, c, find, findAgain)
    requires k in keys && k in c && !HasCl(c[k]) && c[k].changeId.Some?
    requires find(c[k].changeId.value) == Some(cl) || findAgain(c[k].changeId.value) == Some(cl)
    ensures var c' := c[k := WithCl(c[k], cl)]; Learnt(c0, keys, c') && LearntFrom(c0, c', find, findAgain)
  {
    assert c[k] == c0[k];
  }

  function WithCl(c: Commit, cl: Cl): Commit {
    c.(gerrit := Some(cl.0), clNumber := Some(cl.1))
  }

  /** The record of an upstream changelist. */
  function FoundRecord(cl: Cl): Commit {
    WithCl(Commit(None, None, None, None, None, None, false), cl)
  }

  /** The upstream changelist is on record. */
  predicate Found(c: Commits) {
    FIND in c && HasCl(c[FIND])
  }

  /** The one changelist that came from the coreboot commit, if there is exactly one. */
  function Upstream(c: Commits, upstream: string -> seq<Cl>): Option<Cl> {
    if CB_VARIANT in c && c[CB_VARIANT].changeId.Some? && |upstream(c[CB_VARIANT].changeId.value)| == 1
    then Some(upstream(c[CB_VARIANT].changeId.value)[0]) else None
  }

  // ---------- Cq-Depend lines ----------

  function Join(parts: seq<string>): string {
    if parts == [] then ""
    else if |parts| == 1 then parts[0]
    else parts[0] + ", " + Join(parts[1..])
  }

  /** The entries "instance:number" of the listed commits, in order; None if one has no
      changelist. */
  function Entries(c: Commits, keys: seq<string>): Option<seq<string>>
    requires forall k <- keys :: k in c
  {
    if keys == [] then Some([])
    else if !HasCl(c[keys[0]]) then None
    else
      var rest := Entries(c, keys[1..]);
      if rest == None then None
      else Some([EntryOf(c[keys[0]])] + rest.value)
  }

  function CqLine(entries: seq<string>): string {
    "Cq-Depend: " + Join(entries)
  }

  /** The line that the dependencies of the key call for. */
  ghost predicate LineFor(b: Board, c: Commits, key: string, line: string) {
    && key in b.depends && (forall d <- b.depends[key] :: d in c)
    && var entries := Entries(c, b.depends[key]);
       entries.Some? && line == CqLine(entries.value)
  }

  function EntryOf(c: Commit): string
    requires HasCl(c)
  {
    c.gerrit.value + ":" + c.clNumber.value
  }

  // ---------- what a line says ----------

  /** The pieces of s between the separators ", ", when `piece` comes before s (Python's split). */
  ghost function SplitAfter(piece: string, s: string): seq<string>
    decreases |s|
  {
    if s == "" then [piece]
    else if |s| > 1 && s[0] == ',' && s[1] == ' ' then [piece] + SplitAfter("", s[2..])
    else SplitAfter(piece + [s[0]], s[1..])
  }

  ghost predicate NoSeparator(s: string) {
    forall i :: 0 <= i < |s| - 1 ==> s[i] != ',' || s[i + 1] != ' '
  }

  lemma {:induction false} SplitPiece(piece: string, w: string, rest: string)
    requires NoSeparator(w) && (rest == "" || ", " <= rest)
    ensures SplitAfter(piece, w + rest) == SplitAfter(piece + w, rest)
    decreases |w|
  {
    if w == "" {
      assert w + rest == rest && piece + w == piece;
    } else {
      assert (w + rest)[1..] == w[1..] + rest && (w + rest)[0] == w[0];
      assert forall i :: 0 <= i < |w[1..]| ==> w[1..][i] == w[i + 1];
      SplitPiece(piece + [w[0]], w[1..], rest);
      assert piece + [w[0]] + w[1..] == piece + w;
    }
  }

  lemma {:induction false} SplitJoined(parts: seq<string>)
    requires parts != [] && forall p <- parts :: NoSeparator(p)
    ensures SplitAfter("", Join(parts)) == parts
  {
    var first := parts[0];
    assert first in parts && "" + first == first;
    if |parts| == 1 {
      SplitPiece("", first, "");
      assert first + "" == first;
    } else {
      var rest := ", " + Join(parts[1..]);
      SplitPiece("", first, rest);
      assert first + ", " + Join(parts[1..]) == first + rest;
      assert rest[2..] == Join(parts[1..]) && rest[0] == ',' && rest[1] == ' ';
      SplitJoined(parts[1..]);
    }
  }

  /** Gerrit instance and number of each of the listed commits, in order. */
  ghost function Texts(c: Commits, keys: seq<string>): (r: seq<string>)
    ensures |r| == |keys|
  {
    seq(|keys|, i requires 0 <= i < |keys| =>
      if keys[i] in c && c[keys[i]].gerrit.Some? && c[keys[i]].clNumber.Some?
      then c[keys[i]].gerrit.value + ":" + c[keys[i]].clNumber.value else "")
  }

  /** The line names the changelists of the listed commits, all of them and in order. */
  ghost predicate NamesAll(c: Commits, keys: seq<string>, line: string) {
    && "Cq-Depend: " <= line
    && (keys == [] ==> line == "Cq-Depend: ")
    && (keys != [] && (forall text <- Texts(c, keys) :: NoSeparator(text)) ==>
          SplitAfter("", line[11..]) == Texts(c, keys))
  }

  lemma {:induction false} EntriesAre(c: Commits, keys: seq<string>)
    requires forall k <- keys :: k in c && HasCl(c[k])
    ensures Entries(c, keys) == Some(Texts(c, keys))
  {
    if keys != [] {
      EntriesAre(c, keys[1..]);
      assert keys[0] in keys;
      assert Texts(c, keys) == [EntryOf(c[keys[0]])] + Texts(c, keys[1..]);
    }
  }

  lemma {:induction false} EntriesHaveCls(c: Commits, keys: seq<string>)
    requires (forall k <- keys :: k in c) && Entries(c, keys).Some?
    ensures forall k <- keys :: HasCl(c[k])
  {
    if keys != [] {
      EntriesHaveCls(c, keys[1..]);
    }
  }

  /** A recorded line says so of the dependencies of its key. */
  lemma LineNamesAll(b: Board, c: Commits, key: string, line: string)
    requires LineFor(b, c, key, line)
    ensures key in b.depends && NamesAll(c, b.depends[key], line)
  {
    var keys := b.depends[key];
    EntriesHaveCls(c, keys);
    EntriesAre(c, keys);
    var texts := Entries(c, keys).value;
    assert ("Cq-Depend: " + Join(texts))[11..] == Join(texts);
    hide Join, Entries, SplitAfter, NoSeparator;
    if keys != [] && forall text <- texts :: NoSeparator(text) {
      SplitJoined(texts);
    }
    JoinNothing();
  }

  lemma JoinNothing()
    ensures Join([]) == ""
  {
  }

  /** Two dependencies give one line with both. */
  lemma LineOfTwo(b: Board, c: Commits, key: string, d: string, e: string, line: string)
    requires LineFor(b, c, key, line) && b.depends[key] == [d, e] && HasCl(c[d]) && HasCl(c[e])
    ensures line == "Cq-Depend: " + (c[d].gerrit.value + ":" + c[d].clNumber.value + ", "
                                     + (c[e].gerrit.value + ":" + c[e].clNumber.value))
  {
    EntriesAre(c, [d, e]);
    var first, second := c[d].gerrit.value + ":" + c[d].clNumber.value, c[e].gerrit.value + ":" + c[e].clNumber.value;
    assert Texts(c, [d, e]) == [first, second];
    assert [first, second][1..] == [second];
    assert Join([first, second]) == first + ", " + second;
  }

  /** The example in the comment of calc_cq_depend, with shorter numbers, and with the prefix that the
      comment leaves out. */
  lemma DocumentedLine(b: Board, c: Commits, key: string, d: string, e: string, line: string)
    requires LineFor(b, c, key, line) && b.depends[key] == [d, e]
    requires c[d].gerrit == Some("chromium") && c[d].clNumber == Some("1")
    requires c[e].gerrit == Some("chromium") && c[e].clNumber == Some("2")
    ensures line == "Cq-Depend: chromium:1, chromium:2"
  {
    LineOfTwo(b, c, key, d, e, line);
    hide LineFor;
  }

  lemma {:induction false} EntriesAppend(c: Commits, keys: seq<string>, k: string)
    requires (forall d <- keys :: d in c) && k in c
    ensures Entries(c, keys + [k]) ==
            if Entries(c, keys).Some? && HasCl(c[k]) then Some(Entries(c, keys).value + [EntryOf(c[k])]) else None
  {
    hide EntryOf, HasCl;
    if keys == [] {
      assert (keys + [k])[1..] == [] && (keys + [k])[0] == k;
      assert Entries(c, (keys + [k])[1..]) == Some([]);
      if HasCl(c[k]) {
        assert [EntryOf(c[k])] + [] == [] + [EntryOf(c[k])];
      }
    } else {
      assert (keys + [k])[1..] == keys[1..] + [k] && (keys + [k])[0] == keys[0];
      EntriesAppend(c, keys[1..], k);
      if Entries(c, keys).Some? && HasCl(c[k]) {
        var first, rest, last := [EntryOf(c[keys[0]])], Entries(c, keys[1..]).value, [EntryOf(c[k])];
        assert first + (rest + last) == (first + rest) + last;
      }
    }
  }

  /** Only the changelists matter for the entries. */
  lemma {:induction false} EntriesSame(c: Commits, c': Commits, keys: seq<string>)
    requires forall k <- keys :: k in c && k in c' && c[k].gerrit == c'[k].gerrit && c[k].clNumber == c'[k].clNumber
    ensures Entries(c, keys) == Entries(c', keys)
  {
    if keys != [] {
      EntriesSame(c, c', keys[1..]);
    }
  }

  /** Every key with dependencies has a record, and every dependency a changelist. */
  ghost predicate CanCalc(b: Board, c: Commits)
    requires b.depends.Keys == Elements(b.dependKeys)
  {
    forall k <- b.dependKeys ::
      && k in c && k in Elements(b.dependKeys)
      && forall d <- b.depends[k] :: d in c && HasCl(c[d])
  }

  /** c' is c with the lines of the given keys recorded. */
  ghost predicate CalculatedUpTo(b: Board, c: Commits, keys: seq<string>, c': Commits) {
    && c'.Keys == c.Keys
    && (forall k <- keys :: k in c')
    && forall k <- c ::
         if k in keys then c'[k] == c[k].(cqDepend := c'[k].cqDepend) && c'[k].cqDepend.Some?
             && LineFor(b, c, k, c'[k].cqDepend.value)
         else c'[k] == c[k]
  }

  ghost predicate Calculated(b: Board, c: Commits, c': Commits) {
    CalculatedUpTo(b, c, b.dependKeys, c')
  }

  lemma NothingCalculated(b: Board, c: Commits)
    ensures CalculatedUpTo(b, c, [], c)
  {
  }

  /** The lines that are recorded on the way concern no changelist. */
  lemma CalculatedSame(b: Board, c: Commits, keys: seq<string>, c': Commits, deps: seq<string>)
    requires CalculatedUpTo(b, c, keys, c')
    ensures c'.Keys == c.Keys
    ensures (forall d <- deps :: d in c && HasCl(c[d])) <==> (forall d <- deps :: d in c' && HasCl(c'[d]))
    ensures (forall d <- deps :: d in c) ==> Entries(c', deps) == Entries(c, deps)
  {
    hide LineFor;
    if forall d <- deps :: d in c {
      EntriesSame(c, c', deps);
    }
  }

  lemma CalculatedNext(b: Board, c: Commits, keys: seq<string>, c': Commits, key: string, entries: seq<string>)
    requires CalculatedUpTo(b, c, keys, c') && key in c && key in b.depends && forall d <- b.depends[key] :: d in c
    requires Entries(c, b.depends[key]) == Some(entries)
    ensures CalculatedUpTo(b, c, keys + [key], c'[key := c'[key].(cqDepend := Some(CqLine(entries)))])
  {
    hide CqLine, Entries;
  }

  lemma LinesNameAll(b: Board, c: Commits, c': Commits)
    requires CalculatedUpTo(b, c, b.dependKeys, c') && b.depends.Keys == Elements(b.dependKeys)
    requires forall k <- b.dependKeys ::
               k in b.depends && forall d <- b.depends[k] :: d in c && HasCl(c[d])
    ensures forall k <- b.dependKeys ::
              && k in c' && c'[k].cqDepend.Some? && k in b.depends
              && (forall d <- b.depends[k] :: d in c && HasCl(c[d]))
              && NamesAll(c, b.depends[k], c'[k].cqDepend.value)
  {
    hide LineFor, NamesAll, HasCl;
    forall k <- b.dependKeys
      ensures k in c' && c'[k].cqDepend.Some? && k in b.depends
      ensures forall d <- b.depends[k] :: d in c && HasCl(c[d])
      ensures NamesAll(c, b.depends[k], c'[k].cqDepend.value)
    {
      LineNamesAll(b, c, k, c'[k].cqDepend.value);
    }
  }

  // ---------- the steps ----------

  datatype Saved = Saved(step: Option<string>, commits: Commits)

  class VariantStatus {
    const board: Board
    var step: Option<string>
    var commits: Commits
    var file: Option<Saved>                 // the yaml file
    var messages: map<string, string>       // change id -> Cq-Depend line of its commit message

    constructor (board: Board)
      ensures this.board == board && commits == map[] && file == None && messages == map[] && step == None
    {
      this.board, commits, file, messages, step := board, map[], None, map[], None;
    }

    /** variant_status.save */
    method Save()
      modifies `file
      ensures file == Some(Saved(step, commits))
    {
      file := Some(Saved(step, commits));
    }

    /** save_cl_data */
    method SaveClData(key: string, cl: Cl)
      requires key in commits
      modifies `commits, `file
      ensures commits == old(commits)[key := WithCl(old(commits)[key], cl)]
      ensures commits == old(commits)[key := old(commits)[key].(gerrit := Some(cl.0), clNumber := Some(cl.1))]
      ensures file == Some(Saved(step, commits))
    {
      commits := commits[key := WithCl(commits[key], cl)];
      Save();
    }

    /** The file holds what memory holds, if the step has written it at all. */
    twostate predicate SavedOnTheWay()
      reads this
    {
      (file == old(file) && commits == old(commits)) || file == Some(Saved(step, commits))
    }

    /** push_coreboot: succeeds exactly if every commit to be pushed has been found.  It looks for all
        of them, even if one is missing. */
    method PushCoreboot(find: string -> Option<Cl>) returns (r: Outcome)
      modifies `commits, `file
      ensures Learnt(old(commits), board.pushList, commits) && SavedOnTheWay()
      ensures LearntFrom(old(commits), commits, find, find)
      ensures r != KeyError ==>
                forall k <- board.pushList ::
                  && k in commits
                  && (HasCl(commits[k]) || (commits[k].changeId.Some? && find(commits[k].changeId.value) == None))
      ensures r == True ==> forall k <- board.pushList :: k in commits && HasCl(commits[k])
      ensures r == False ==> exists k <- board.pushList :: k in commits && !HasCl(commits[k])
      ensures r == KeyError ==> exists k <- board.pushList :: k !in commits || commits[k].changeId == None
    {
      assert Learnt(commits, board.pushList, commits) && LearntFrom(commits, commits, find, find);
      hide Learnt, LearntFrom;
      var rc := true;
      ghost var missing := "";
      for i := 0 to |board.pushList|
        invariant Learnt(old(commits), board.pushList, commits) && SavedOnTheWay()
        invariant LearntFrom(old(commits), commits, find, find)
        invariant forall k <- board.pushList[..i] ::
                   && k in commits
                   && (HasCl(commits[k])
                       || (!rc && commits[k].changeId.Some? && find(commits[k].changeId.value) == None))
        invariant !rc ==> missing in board.pushList && missing in commits && !HasCl(commits[missing])
                          && commits[missing].changeId.Some? && find(commits[missing].changeId.value) == None
      {
        var key := board.pushList[i];
        assert key in board.pushList;
        assert board.pushList[..i + 1] == board.pushList[..i] + [key];
        if key !in commits {
          return KeyError;
        }
        if !HasCl(commits[key]) {
          if commits[key].changeId == None {
            return KeyError;
          }
          var cl := find(commits[key].changeId.value);
          if cl.Some? {
            LearnOne(old(commits), board.pushList, commits, key, cl.value, find, find);
            SaveClData(key, cl.value);
          } else {
            rc, missing := false, key;
          }
        }
      }
      assert board.pushList[..|board.pushList|] == board.pushList;
      return if rc then True else False;
    }

    /** upload_CLs: a commit that is not found is uploaded and looked for again.  The answers of the
        lookups before and after the upload, and of the upload, come from outside. */
    method UploadCls(findFirst: string -> Option<Cl>, upload: (string, string) -> bool,
                     findAgain: string -> Option<Cl>) returns (r: Outcome)
      modifies `commits, `file
      ensures Learnt(old(commits), board.uploadList, commits) && SavedOnTheWay()
      ensures LearntFrom(old(commits), commits, findFirst, findAgain)
      ensures r == True ==> forall k <- board.uploadList :: k in commits && HasCl(commits[k])
      ensures r == False ==>
              exists k <- board.uploadList :: k in commits && NotUploaded(commits[k], findFirst, upload, findAgain)
      ensures r == KeyError ==> exists k <- board.uploadList :: k !in commits || !IsCommitted(commits[k])
    {
      assert Learnt(commits, board.uploadList, commits) && LearntFrom(commits, commits, findFirst, findAgain);
      hide Learnt, LearntFrom;
      for i := 0 to |board.uploadList|
        invariant Learnt(old(commits), board.uploadList, commits) && SavedOnTheWay()
        invariant LearntFrom(old(commits), commits, findFirst, findAgain)
        invariant forall k <- board.uploadList[..i] :: k in commits && HasCl(commits[k])
      {
        var key := board.uploadList[i];
        assert key in board.uploadList;
        assert board.uploadList[..i + 1] == board.uploadList[..i] + [key];
        if key !in commits {
          return KeyError;
        }
        var commit := commits[key];
        if !HasCl(commit) {
          if commit.changeId == None {
            return KeyError;
          }
          var changeId := commit.changeId.value;
          var cl := findFirst(changeId);
          if cl == None {
            if commit.branchName == None || commit.dir == None {
              return KeyError;
            }
            if !upload(commit.branchName.value, commit.dir.value) {
              return False;
            }
            cl := findAgain(changeId);
            if cl == None {
              return False;
            }
          }
          LearnOne(old(commits), board.uploadList, commits, key, cl.value, findFirst, findAgain);
          SaveClData(key, cl.value);
        }
      }
      assert board.uploadList[..|board.uploadList|] == board.uploadList;
      return True;
    }

    /** find_coreboot_upstream; `upstream` are the changelists found by the original change id. */
    method FindCorebootUpstream(upstream: string -> seq<Cl>) returns (r: Outcome)
      modifies `commits
      ensures r == True <==> Found(old(commits)) || Upstream(old(commits), upstream).Some?
      ensures commits == if Found(old(commits)) || r != True then old(commits)
                         else old(commits)[FIND := FoundRecord(Upstream(old(commits), upstream).value)]
      ensures r == True && !(FIND in old(commits) && HasCl(old(commits)[FIND])) ==>
                && CB_VARIANT in old(commits) && old(commits)[CB_VARIANT].changeId.Some?
                && var found := upstream(old(commits)[CB_VARIANT].changeId.value);
                   && |found| == 1
                   && commits == old(commits)["find" := Commit(None, None, None, Some(found[0].0), Some(found[0].1),
                                                               None, false)]
      ensures r == KeyError ==> CB_VARIANT in commits && commits[CB_VARIANT].clNumber == None
    {
      if FIND in commits && HasCl(commits[FIND]) {
        return True;
      }
      if CB_VARIANT !in commits || commits[CB_VARIANT].changeId == None {
        return False;
      }
      var found := upstream(commits[CB_VARIANT].changeId.value);
      if |found| == 0 {
        // the error message quotes the changelist number
        return if commits[CB_VARIANT].clNumber == None then KeyError else False;
      }
      if |found| != 1 {
        return False;
      }
      commits := commits[FIND := Commit(None, None, None, Some(found[0].0), Some(found[0].1), None, false)];
      return True;
    }

    /** The inner loop of calc_cq_depend. */
    method CollectEntries(deps: seq<string>) returns (r: Outcome, entries: seq<string>)
      ensures r == True <==> forall d <- deps :: d in commits && HasCl(commits[d])
      ensures r == True ==> Entries(commits, deps) == Some(entries)
    {
      hide EntryOf;
      entries := [];
      for j := 0 to |deps|
        invariant forall d <- deps[..j] :: d in commits && HasCl(commits[d])
        invariant Entries(commits, deps[..j]) == Some(entries)
      {
        var d := deps[j];
        assert deps[..j + 1] == deps[..j] + [d];
        assert d in deps;
        if d !in commits {
          return KeyError, entries;
        }
        if commits[d].gerrit == None || commits[d].clNumber == None {
          return False, entries;
        }
        EntriesAppend(commits, deps[..j], d);
        entries := entries + [EntryOf(commits[d])];
      }
      assert deps[..|deps|] == deps;
      return True, entries;
    }

    /** calc_cq_depend: records the line of every key that has dependencies; it succeeds exactly if
        all those keys have records and all their dependencies have changelists. */
    method CalcCqDepend() returns (r: Outcome)
      requires board.depends.Keys == Elements(board.dependKeys)
      modifies `commits
      ensures r == True <==> CanCalc(board, old(commits))
      ensures r == True ==> Calculated(board, old(commits), commits)
      ensures r == True ==>
                forall k <- board.dependKeys ::
                  && k in commits && commits[k].cqDepend.Some? && k in board.depends
                  && (forall d <- board.depends[k] :: d in old(commits) && HasCl(old(commits)[d]))
                  && NamesAll(old(commits), board.depends[k], commits[k].cqDepend.value)
    {
      hide CqLine, HasCl, CalculatedUpTo;
      var deps := board.dependKeys;
      NothingCalculated(board, commits);
      for i := 0 to |deps|
        invariant CalculatedUpTo(board, old(commits), deps[..i], commits)
        invariant forall k <- deps[..i] ::
                    k in old(commits) && forall d <- board.depends[k] :: d in old(commits) && HasCl(old(commits)[d])
      {
        var key := deps[i];
        assert key in Elements(deps) && key in deps;
        assert deps[..i + 1] == deps[..i] + [key];
        CalculatedSame(board, old(commits), deps[..i], commits, board.depends[key]);
        var r', entries := CollectEntries(board.depends[key]);
        if r' != True {
          return r';
        }
        if key !in commits {
          return KeyError;
        }
        CalculatedNext(board, old(commits), deps[..i], commits, key, entries);
        commits := commits[key := commits[key].(cqDepend := Some(CqLine(entries)))];
      }
      assert deps[..|deps|] == deps;
      LinesNameAll(board, old(commits), commits);
      return True;
    }

    /** add_cq_depend: every commit with a line gets it into its message, unless the message has one
        already, and is flagged.  `amend` is whether git can find and amend the commit. */
    method AddCqDepend(amend: string -> bool) returns (r: Outcome)
      modifies `commits, `messages
      ensures commits.Keys == old(commits).Keys
      ensures forall k <- commits ::
               || commits[k] == old(commits)[k]
               || (commits[k] == old(commits)[k].(needsReUpload := true) && commits[k].cqDepend.Some?)
      ensures Amended(old(commits), old(messages), messages)
      ensures r == True ==> forall k <- commits | old(commits)[k].cqDepend.Some? ::
                old(commits)[k].changeId.Some? && old(commits)[k].changeId.value in messages && commits[k].needsReUpload
      ensures r == False ==> exists k <- commits :: NotAmended(commits[k], amend)
      ensures r != KeyError
    {
      var todo := commits.Keys;
      while todo != {}
        invariant commits.Keys == old(commits).Keys && todo <= commits.Keys
        invariant forall k <- commits ::
                   || commits[k] == old(commits)[k]
                   || (commits[k] == old(commits)[k].(needsReUpload := true) && commits[k].cqDepend.Some?)
        invariant Amended(old(commits), old(messages), messages)
        invariant forall k <- commits.Keys - todo | old(commits)[k].cqDepend.Some? ::
                    old(commits)[k].changeId.Some? && old(commits)[k].changeId.value in messages
                        && commits[k].needsReUpload
      {
        var key :| key in todo;
        var commit := commits[key];
        if commit.cqDepend.Some? {
          if commit.dir == None || commit.changeId == None {
            return False;
          }
          var changeId := commit.changeId.value;
          if !amend(changeId) {
            return False;
          }
          if changeId !in messages {
            messages := messages[changeId := commit.cqDepend.value];
          }
          commits := commits[key := commit.(needsReUpload := true)];
        }
        todo := todo - {key};
      }
      return True;
    }

    /** re_upload: uploads the flagged commits and takes the flags down. */
    method ReUpload(upload: (string, string) -> bool) returns (r: Outcome, uploaded: set<(string, string)>)
      modifies `commits
      ensures commits.Keys == old(commits).Keys
      ensures forall k <- commits ::
               commits[k] == old(commits)[k] || commits[k] == old(commits)[k].(needsReUpload := false)
      ensures forall k <- commits | commits[k] != old(commits)[k] :: DoneAt(commits[k], uploaded)
      ensures forall p <- uploaded ::
                && upload(p.0, p.1)
                && exists k <- commits ::
                     old(commits)[k].needsReUpload && IsPlace(commits[k]) && PlaceOf(commits[k]) == p
      ensures r == False ==> exists k <- commits :: commits[k].needsReUpload && Refused(commits[k], upload)
      ensures r == True ==> forall k <- commits :: !commits[k].needsReUpload
      ensures r == KeyError ==> exists k <- commits :: commits[k].needsReUpload && !IsPlace(commits[k])
    {
      uploaded := {};
      var todo := commits.Keys;
      while todo != {}
        invariant commits.Keys == old(commits).Keys && todo <= commits.Keys
        invariant forall k <- commits ::
                   commits[k] == old(commits)[k] || commits[k] == old(commits)[k].(needsReUpload := false)
        invariant forall k <- commits.Keys - todo :: !commits[k].needsReUpload
        invariant forall k <- todo :: commits[k] == old(commits)[k]
        invariant forall k <- commits | commits[k] != old(commits)[k] :: DoneAt(commits[k], uploaded)
        invariant forall p <- uploaded ::
                    && upload(p.0, p.1)
                    && exists k <- commits ::
                         old(commits)[k].needsReUpload && IsPlace(commits[k]) && PlaceOf(commits[k]) == p
      {
        var key :| key in todo;
        var commit := commits[key];
        if commit.needsReUpload {
          if commit.branchName == None || commit.dir == None {
            return KeyError, uploaded;
          }
          var place := (commit.branchName.value, commit.dir.value);
          if !upload(place.0, place.1) {
            return False, uploaded;
          }
          uploaded := uploaded + {place};
          commits := commits[key := commit.(needsReUpload := false)];
        }
        todo := todo - {key};
      }
      return True, uploaded;
    }

    /** abort: abandons each branch in each directory once.  `abandon` is whether git succeeds. */
    method Abort(abandon: (string, string) -> bool) returns (r: Outcome, abandoned: set<(string, string)>)
      ensures forall p <- abandoned ::
                abandon(p.0, p.1) && exists k <- commits :: IsPlace(commits[k]) && PlaceOf(commits[k]) == p
      ensures r == True ==> forall k <- commits :: DoneAt(commits[k], abandoned)
      ensures r == KeyError ==> exists k <- commits :: !IsPlace(commits[k])
      ensures r == False ==> exists k <- commits :: Refused(commits[k], abandon)
    {
      abandoned := {};
      var todo := commits.Keys;
      while todo != {}
        invariant todo <= commits.Keys
        invariant forall p <- abandoned ::
                    abandon(p.0, p.1) && exists k <- commits :: IsPlace(commits[k]) && PlaceOf(commits[k]) == p
        invariant forall k <- commits.Keys - todo :: DoneAt(commits[k], abandoned)
      {
        var key :| key in todo;
        var commit := commits[key];
        if commit.branchName == None || commit.dir == None {
          return KeyError, abandoned;
        }
        var place := (commit.branchName.value, commit.dir.value);
        if place !in abandoned {
          if !abandon(place.0, place.1) {
            return False, abandoned;
          }
          abandoned := abandoned + {place};
        }
        todo := todo - {key};
      }
      return True, abandoned;
    }
  }

  /** The messages have gained lines, each the recorded line of a commit. */
  ghost predicate Amended(c: Commits, before: map<string, string>, after: map<string, string>) {
    && before.Keys <= after.Keys
    && forall id <- after ::
         if id in before then after[id] == before[id]
         else exists k <- c :: c[k].changeId == Some(id) && c[k].cqDepend == Some(after[id])
  }
}
