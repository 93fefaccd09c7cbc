/** Cq-Depend bookkeeping over whole runs of new_variant, restarts included
    (contrib/variant/new_variant.py and the board modules beside it). */
module VariantCqDepend {
  import opened Prelude
  import opened VariantStatus
  import opened VariantRuns

  const FINDERS := [PUSH, UPLOAD, FIND]
  const CQ_STEPS := [PUSH, UPLOAD, FIND, CALC_CQ_DEPEND, ADD_CQ_DEPEND, RE_UPLOAD]

  /** s is on the list before the i-th step. */
  ghost predicate Past(b: Board, i: int, s: string) {
    IndexOf(b.stepList, s) < i
  }

  ghost predicate Before(b: Board, s: string, t: string) {
    s in b.stepList && t in b.stepList ==> IndexOf(b.stepList, s) < IndexOf(b.stepList, t)
  }

  /** Something before calc_cq_depend finds the changelist of the commit. */
  ghost predicate Provided(b: Board, d: string) {
    || (d in b.pushList && PUSH in b.stepList)
    || (d in b.uploadList && UPLOAD in b.stepList)
    || (d == FIND && FIND in b.stepList)
  }

  ghost predicate Created(b: Board, k: string) {
    exists s <- b.stepList :: CreatedBy(s) == Some(k)
  }

  /** The order that the steps which deal with changelists ask of a board table. */
  ghost predicate InCqOrder(b: Board) {
    && (forall s <- b.stepList, t <- CQ_STEPS | CreatedBy(s).Some? :: Before(b, s, t))
    && (forall s <- FINDERS :: Before(b, s, CALC_CQ_DEPEND))
    && Before(b, CALC_CQ_DEPEND, ADD_CQ_DEPEND) && Before(b, ADD_CQ_DEPEND, RE_UPLOAD)
    && (RE_UPLOAD in b.stepList ==> ADD_CQ_DEPEND in b.stepList)
    && (ADD_CQ_DEPEND in b.stepList ==> CALC_CQ_DEPEND in b.stepList)
  }

  /** A record under the key is ever made. */
  ghost predicate Known(b: Board, k: string) {
    Created(b, k) || (k == FIND && FIND in b.stepList)
  }

  /** Every key of `depends` and every dependency is a commit that is made, and the changelist of
      every dependency is looked up. */
  ghost predicate DependsAreMet(b: Board)
    requires b.depends.Keys == Elements(b.dependKeys)
  {
    forall k <- b.dependKeys ::
      && Known(b, k) && k in Elements(b.dependKeys)
      && forall d <- b.depends[k] :: Known(b, d) && Provided(b, d)
  }

  ghost predicate IsOrdered(b: Board) {
    IsBoard(b) && InCqOrder(b)
  }

  /** What a board table has to be like. */
  ghost predicate IsCqBoard(b: Board) {
    IsOrdered(b) && DependsAreMet(b)
  }

  // ---------- the records before the i-th step ----------

  ghost predicate KeysInv(b: Board, i: int, c: Commits) {
    && (forall s <- b.stepList | CreatedBy(s).Some? && Past(b, i, s) :: CreatedBy(s).value in c)
    && (FIND in c ==> c[FIND].changeId == None && c[FIND].branchName == None)
    && (forall k <- c :: k == FIND || IsCommitted(c[k]))
    && (forall k <- c, l <- c :: k != l && c[k].changeId.Some? ==> c[k].changeId != c[l].changeId)
  }

  ghost predicate FoundInv(b: Board, i: int, c: Commits) {
    && (Past(b, i, PUSH) ==> forall k <- b.pushList :: k in c && HasCl(c[k]))
    && (Past(b, i, UPLOAD) ==> forall k <- b.uploadList :: k in c && HasCl(c[k]))
    && (Past(b, i, FIND) ==> FIND in c && HasCl(c[FIND]))
  }

  ghost predicate LinesInv(b: Board, i: int, c: Commits) {
    forall k <- c ::
      if Past(b, i, CALC_CQ_DEPEND) && k in b.dependKeys
      then c[k].cqDepend.Some? && LineFor(b, c, k, c[k].cqDepend.value)
      else c[k].cqDepend == None
  }

  ghost predicate MessagesInv(b: Board, i: int, c: Commits, m: map<string, string>) {
    && (forall id <- m :: exists k <- c :: c[k].changeId == Some(id) && c[k].cqDepend == Some(m[id]))
    && (Past(b, i, ADD_CQ_DEPEND) ==>
        forall k <- c | c[k].cqDepend.Some? :: c[k].changeId.Some? && c[k].changeId.value in m)
    && (Past(b, i, ADD_CQ_DEPEND) && !Past(b, i, RE_UPLOAD) ==>
        forall k <- c | c[k].cqDepend.Some? :: c[k].needsReUpload)
    && (Past(b, i, RE_UPLOAD) ==> forall k <- c :: !c[k].needsReUpload)
    && (forall k <- c | c[k].needsReUpload :: c[k].cqDepend.Some?)
  }

  ghost predicate CqInv(b: Board, i: int, c: Commits, m: map<string, string>) {
    KeysInv(b, i, c) && FoundInv(b, i, c) && LinesInv(b, i, c) && MessagesInv(b, i, c, m)
  }

  // ---------- positions ----------

  lemma PastNext(b: Board, i: nat, s: string)
    requires IsBoard(b) && i < |b.stepList|
    ensures Past(b, i + 1, s) <==> Past(b, i, s) || s == b.stepList[i]
    ensures s == b.stepList[i] ==> !Past(b, i, s)
  {
    hide InCqOrder;
    IndexInside(b.stepList, s);
    IndexAt(b.stepList, i);
  }

  /** What comes later in the list, or not at all, is not past yet. */
  lemma Ahead(b: Board, i: nat, t: string)
    requires IsBoard(b) && i < |b.stepList| && Before(b, b.stepList[i], t)
    ensures !Past(b, i + 1, t)
  {
    IndexInside(b.stepList, t);
    IndexAt(b.stepList, i);
    assert b.stepList[i] in b.stepList;
  }

  lemma AheadOfAll(b: Board, i: nat)
    requires IsOrdered(b) && i < |b.stepList| && CreatedBy(b.stepList[i]).Some?
    ensures forall t <- CQ_STEPS :: !Past(b, i + 1, t)
  {
    hide Past, CreatedBy;
    assert b.stepList[i] in b.stepList;
    forall t <- CQ_STEPS ensures !Past(b, i + 1, t) {
      Ahead(b, i, t);
    }
  }

  /** Before a step that none comes between: the steps after calc_cq_depend. */
  lemma AheadOfLines(b: Board, i: nat)
    requires IsOrdered(b) && i < |b.stepList| && b.stepList[i] in FINDERS + [CALC_CQ_DEPEND]
    ensures b.stepList[i] != CALC_CQ_DEPEND ==> !Past(b, i + 1, CALC_CQ_DEPEND)
    ensures !Past(b, i + 1, ADD_CQ_DEPEND) && !Past(b, i + 1, RE_UPLOAD)
  {
    hide CreatedBy;
    var s := b.stepList[i];
    assert s in b.stepList;
    assert FINDERS + [CALC_CQ_DEPEND] == [PUSH, UPLOAD, FIND, CALC_CQ_DEPEND];
    if s != CALC_CQ_DEPEND {
      assert s in FINDERS;
      Ahead(b, i, CALC_CQ_DEPEND);
    }
    LastTwoAhead(b, i);
  }

  lemma LastTwoAhead(b: Board, i: nat)
    requires IsBoard(b) && InCqOrder(b) && i < |b.stepList|
    requires b.stepList[i] == CALC_CQ_DEPEND || Before(b, b.stepList[i], CALC_CQ_DEPEND)
    ensures !Past(b, i + 1, ADD_CQ_DEPEND) && !Past(b, i + 1, RE_UPLOAD)
  {
    hide CreatedBy;
    assert b.stepList[i] in b.stepList;
    Ahead(b, i, ADD_CQ_DEPEND);
    Ahead(b, i, RE_UPLOAD);
  }

  // ---------- the four parts, one by one ----------

  lemma KeysMove(b: Board, i: nat, c: Commits)
    requires IsBoard(b) && i < |b.stepList| && KeysInv(b, i, c) && CreatedBy(b.stepList[i]) == None
    ensures KeysInv(b, i + 1, c)
  {
    hide Past, CreatedBy, IsCommitted;
    forall s <- b.stepList | CreatedBy(s).Some? && Past(b, i + 1, s) ensures Past(b, i, s) {
      PastNext(b, i, s);
    }
  }

  lemma FoundMove(b: Board, i: nat, c: Commits)
    requires IsBoard(b) && i < |b.stepList| && FoundInv(b, i, c) && b.stepList[i] !in FINDERS
    ensures FoundInv(b, i + 1, c)
  {
    PastNext(b, i, PUSH);
    PastNext(b, i, UPLOAD);
    PastNext(b, i, FIND);
    hide Past, HasCl, IsBoard;
    assert PUSH in FINDERS && UPLOAD in FINDERS && FIND in FINDERS;
  }

  lemma LinesMove(b: Board, i: nat, c: Commits)
    requires IsBoard(b) && i < |b.stepList| && LinesInv(b, i, c) && b.stepList[i] != CALC_CQ_DEPEND
    ensures LinesInv(b, i + 1, c)
  {
    hide Past, LineFor;
    PastNext(b, i, CALC_CQ_DEPEND);
  }

  lemma MessagesMove(b: Board, i: nat, c: Commits, m: map<string, string>)
    requires IsBoard(b) && i < |b.stepList| && MessagesInv(b, i, c, m)
    requires b.stepList[i] != ADD_CQ_DEPEND && b.stepList[i] != RE_UPLOAD
    ensures MessagesInv(b, i + 1, c, m)
  {
    hide Past;
    PastNext(b, i, ADD_CQ_DEPEND);
    PastNext(b, i, RE_UPLOAD);
  }

  /** Nothing has been calculated yet, so no message has a line. */
  lemma NothingYet(b: Board, i: int, c: Commits, m: map<string, string>)
    requires LinesInv(b, i, c) && MessagesInv(b, i, c, m) && !Past(b, i, CALC_CQ_DEPEND)
    ensures m == map[] && forall k <- c :: c[k].cqDepend == None && !c[k].needsReUpload
  {
  }

  lemma StillNothing(b: Board, i: int, c: Commits)
    requires !Past(b, i, CALC_CQ_DEPEND) && !Past(b, i, ADD_CQ_DEPEND) && !Past(b, i, RE_UPLOAD)
    requires forall k <- c :: c[k].cqDepend == None && !c[k].needsReUpload
    ensures LinesInv(b, i, c) && MessagesInv(b, i, c, map[])
  {
  }

  /** c' differs from c in lines and flags only. */
  ghost predicate SameRecords(c: Commits, c': Commits) {
    && c'.Keys == c.Keys
    && forall k <- c :: c'[k] == c[k].(cqDepend := c'[k].cqDepend, needsReUpload := c'[k].needsReUpload)
  }

  lemma RecordsKeep(b: Board, i: int, c: Commits, c': Commits)
    requires KeysInv(b, i, c) && FoundInv(b, i, c) && SameRecords(c, c')
    ensures KeysInv(b, i, c') && FoundInv(b, i, c')
  {
    hide Past, CreatedBy;
  }

  /** A line stays right while the changelists stay what they are. */
  lemma LineKept(b: Board, c: Commits, c': Commits, k: string, line: string)
    requires LineFor(b, c, k, line) && SameRecords(c, c')
    ensures LineFor(b, c', k, line)
  {
    EntriesSame(c, c', b.depends[k]);
  }

  lemma LinesKeep(b: Board, i: int, c: Commits, c': Commits)
    requires LinesInv(b, i, c) && SameRecords(c, c') && forall k <- c :: c'[k].cqDepend == c[k].cqDepend
    ensures LinesInv(b, i, c')
  {
    hide Past, LineFor;
    forall k <- c | c[k].cqDepend.Some? && LineFor(b, c, k, c[k].cqDepend.value)
      ensures LineFor(b, c', k, c'[k].cqDepend.value) {
      LineKept(b, c, c', k, c[k].cqDepend.value);
    }
  }

  /** Every line of a message comes from a record. */
  ghost predicate FromRecords(c: Commits, m: map<string, string>) {
    forall id <- m :: exists k <- c :: c[k].changeId == Some(id) && c[k].cqDepend == Some(m[id])
  }

  lemma FromRecordsKept(c: Commits, c': Commits, m: map<string, string>)
    requires FromRecords(c, m) && SameRecords(c, c') && forall k <- c :: c'[k].cqDepend == c[k].cqDepend
    ensures FromRecords(c', m)
  {
    forall id <- m ensures exists k <- c' :: c'[k].changeId == Some(id) && c'[k].cqDepend == Some(m[id]) {
      var k :| k in c && c[k].changeId == Some(id) && c[k].cqDepend == Some(m[id]);
      assert k in c';
    }
  }

  lemma AmendedKeeps(b: Board, i: int, c: Commits, m: map<string, string>, m': map<string, string>)
    requires MessagesInv(b, i, c, m) && Amended(c, m, m')
    ensures MessagesInv(b, i, c, m') && FromRecords(c, m')
  {
    hide Past;
  }

  // ---------- lookups ----------

  lemma LearntKeysFound(b: Board, i: int, c: Commits, keys: seq<string>, c': Commits)
    requires KeysInv(b, i, c) && FoundInv(b, i, c) && Learnt(c, keys, c')
    ensures KeysInv(b, i, c') && FoundInv(b, i, c')
  {
    hide Past, CreatedBy;
  }

  lemma LearntKeeps(b: Board, i: int, c: Commits, m: map<string, string>, keys: seq<string>, c': Commits)
    requires CqInv(b, i, c, m) && Learnt(c, keys, c')
    requires !Past(b, i, CALC_CQ_DEPEND) && !Past(b, i, ADD_CQ_DEPEND) && !Past(b, i, RE_UPLOAD)
    ensures CqInv(b, i, c', m) && forall k <- c' :: c'[k].cqDepend == None && !c'[k].needsReUpload
  {
    NothingYet(b, i, c, m);
    LearntKeysFound(b, i, c, keys, c');
    assert forall k <- c' :: c'[k].cqDepend == None && !c'[k].needsReUpload;
    hide KeysInv, FoundInv, Past, LineFor, Learnt;
    StillNothing(b, i, c');
  }

  /** The step for the pushed, or the uploaded, commits is done. */
  lemma ListDone(b: Board, i: nat, c: Commits, m: map<string, string>, keys: seq<string>, c': Commits)
    requires IsOrdered(b) && i < |b.stepList| && CqInv(b, i, c, m)
    requires (b.stepList[i] == PUSH && keys == b.pushList) || (b.stepList[i] == UPLOAD && keys == b.uploadList)
    requires Learnt(c, keys, c') && forall k <- keys :: k in c' && HasCl(c'[k])
    ensures CqInv(b, i + 1, c', m) && CqInv(b, i, c', m)
  {
    AheadOfLines(b, i);
    PastNext(b, i, CALC_CQ_DEPEND);
    PastNext(b, i, ADD_CQ_DEPEND);
    PastNext(b, i, RE_UPLOAD);
    PastNext(b, i, PUSH);
    PastNext(b, i, UPLOAD);
    PastNext(b, i, FIND);
    LearntKeeps(b, i, c, m, keys, c');
    hide KeysInv, LinesInv, MessagesInv, Past, HasCl, Learnt, InCqOrder;
    NothingYet(b, i, c, m);
    KeysMove(b, i, c');
    StillNothing(b, i + 1, c');
  }

  lemma FindDone(b: Board, i: nat, c: Commits, m: map<string, string>, c': Commits)
    requires IsOrdered(b) && i < |b.stepList| && CqInv(b, i, c, m)
    requires b.stepList[i] == FIND && StepOk(b, FIND, c, m, c', m)
    ensures CqInv(b, i + 1, c', m)
  {
    AheadOfLines(b, i);
    PastNext(b, i, CALC_CQ_DEPEND);
    NothingYet(b, i, c, m);
    FindKeys(b, i, c, m, c');
    FindFound(b, i, c, m, c');
    assert forall k <- c' :: c'[k].cqDepend == None && !c'[k].needsReUpload;
    hide KeysInv, FoundInv, LinesInv, MessagesInv, Past, StepOk, InCqOrder;
    KeysMove(b, i, c');
    StillNothing(b, i + 1, c');
  }

  lemma FindKeys(b: Board, i: int, c: Commits, m: map<string, string>, c': Commits)
    requires KeysInv(b, i, c) && StepOk(b, FIND, c, m, c', m)
    ensures KeysInv(b, i, c')
  {
    hide Past, CreatedBy, CanCalc, Calculated, Amended, Learnt, NewRecord;
  }

  lemma FindFound(b: Board, i: nat, c: Commits, m: map<string, string>, c': Commits)
    requires IsBoard(b) && i < |b.stepList| && FoundInv(b, i, c)
    requires b.stepList[i] == FIND && StepOk(b, FIND, c, m, c', m)
    ensures FoundInv(b, i + 1, c')
  {
    PastNext(b, i, PUSH);
    PastNext(b, i, UPLOAD);
    PastNext(b, i, FIND);
    hide Past, CreatedBy, CanCalc, Calculated, Amended, Learnt, NewRecord, IsBoard;
  }

  // ---------- a new commit ----------

  lemma CreateDone(b: Board, i: nat, c: Commits, m: map<string, string>, k: string, c': Commits)
    requires IsOrdered(b) && i < |b.stepList| && CqInv(b, i, c, m)
    requires CreatedBy(b.stepList[i]) == Some(k) && k in c' && NewRecord(c, m, k, c'[k]) && c' == c[k := c'[k]]
    ensures CqInv(b, i + 1, c', m)
  {
    AheadOfAll(b, i);
    NotTheRest(b, i);
    PastNext(b, i, CALC_CQ_DEPEND);
    NothingYet(b, i, c, m);
    CreateKeys(b, i, c, m, k, c');
    hide KeysInv, LinesInv, MessagesInv, Past, InCqOrder, CreatedBy;
    StillNothing(b, i + 1, c');
  }

  lemma NotTheRest(b: Board, i: nat)
    requires forall t <- CQ_STEPS :: !Past(b, i + 1, t)
    ensures !Past(b, i + 1, PUSH) && !Past(b, i + 1, UPLOAD) && !Past(b, i + 1, FIND)
    ensures !Past(b, i + 1, CALC_CQ_DEPEND) && !Past(b, i + 1, ADD_CQ_DEPEND) && !Past(b, i + 1, RE_UPLOAD)
  {
    hide Past;
    assert PUSH in CQ_STEPS && UPLOAD in CQ_STEPS && FIND in CQ_STEPS;
    assert CALC_CQ_DEPEND in CQ_STEPS && ADD_CQ_DEPEND in CQ_STEPS && RE_UPLOAD in CQ_STEPS;
  }

  lemma CreateKeys(b: Board, i: nat, c: Commits, m: map<string, string>, k: string, c': Commits)
    requires IsBoard(b) && i < |b.stepList| && KeysInv(b, i, c)
    requires CreatedBy(b.stepList[i]) == Some(k) && k in c' && NewRecord(c, m, k, c'[k]) && c' == c[k := c'[k]]
    ensures KeysInv(b, i + 1, c')
  {
    assert k != FIND;
    hide Past, CreatedBy, IsCommitted;
    forall s <- b.stepList | CreatedBy(s).Some? && Past(b, i + 1, s) ensures CreatedBy(s).value in c' {
      PastNext(b, i, s);
    }
  }

  // ---------- lines, messages, uploads ----------

  lemma CalcDone(b: Board, i: nat, c: Commits, m: map<string, string>, c': Commits)
    requires IsOrdered(b) && i < |b.stepList| && CqInv(b, i, c, m)
    requires b.stepList[i] == CALC_CQ_DEPEND && CanCalc(b, c) && Calculated(b, c, c')
    ensures CqInv(b, i + 1, c', m)
  {
    AheadOfLines(b, i);
    PastNext(b, i, CALC_CQ_DEPEND);
    NothingYet(b, i, c, m);
    CalcLines(b, i, c, c');
    hide KeysInv, FoundInv, LinesInv, LineFor, Past, InCqOrder, CanCalc;
    RecordsKeep(b, i, c, c');
    KeysMove(b, i, c');
    FoundMove(b, i, c');
  }

  lemma CalcLines(b: Board, i: nat, c: Commits, c': Commits)
    requires IsBoard(b) && i < |b.stepList| && Calculated(b, c, c') && b.stepList[i] == CALC_CQ_DEPEND
    requires forall k <- c :: c[k].cqDepend == None
    ensures LinesInv(b, i + 1, c') && SameRecords(c, c')
  {
    PastNext(b, i, CALC_CQ_DEPEND);
    hide Past, LineFor, IsBoard;
    forall k <- b.dependKeys ensures LineFor(b, c', k, c'[k].cqDepend.value) {
      LineKept(b, c, c', k, c'[k].cqDepend.value);
    }
  }

  /** add_cq_depend and re_upload touch flags only. */
  ghost predicate FlagsOnly(c: Commits, c': Commits) {
    c'.Keys == c.Keys
    && forall k <- c ::
        && c'[k] == c[k].(needsReUpload := c'[k].needsReUpload)
        && (c'[k].needsReUpload ==> c[k].needsReUpload || c[k].cqDepend.Some?)
  }

  lemma FlagsKeep(b: Board, i: nat, c: Commits, c': Commits)
    requires IsBoard(b) && i < |b.stepList|
    requires KeysInv(b, i, c) && FoundInv(b, i, c) && LinesInv(b, i, c) && FlagsOnly(c, c')
    requires b.stepList[i] == ADD_CQ_DEPEND || b.stepList[i] == RE_UPLOAD
    ensures KeysInv(b, i + 1, c') && FoundInv(b, i + 1, c') && LinesInv(b, i + 1, c')
  {
    assert SameRecords(c, c');
    hide KeysInv, FoundInv, LinesInv, Past;
    RecordsKeep(b, i, c, c');
    LinesKeep(b, i, c, c');
    KeysMove(b, i, c');
    FoundMove(b, i, c');
    LinesMove(b, i, c');
  }

  lemma AddDone(b: Board, i: nat, c: Commits, m: map<string, string>, c': Commits, m': map<string, string>)
    requires IsOrdered(b) && i < |b.stepList| && CqInv(b, i, c, m) && FlagsOnly(c, c')
    requires b.stepList[i] == ADD_CQ_DEPEND && Amended(c, m, m')
    requires forall k <- c | c[k].cqDepend.Some? ::
              c[k].changeId.Some? && c[k].changeId.value in m' && c'[k].needsReUpload
    ensures CqInv(b, i + 1, c', m') && CqInv(b, i, c, m')
  {
    AmendedKeeps(b, i, c, m, m');
    LastAhead(b, i);
    FlagsKeep(b, i, c, c');
    AddMessages(b, i, c, c', m');
  }

  lemma LastAhead(b: Board, i: nat)
    requires IsOrdered(b) && i < |b.stepList| && b.stepList[i] == ADD_CQ_DEPEND
    ensures !Past(b, i + 1, RE_UPLOAD)
  {
    hide CreatedBy, IsBoard;
    Ahead(b, i, RE_UPLOAD);
  }

  lemma AddMessages(b: Board, i: nat, c: Commits, c': Commits, m: map<string, string>)
    requires FromRecords(c, m) && FlagsOnly(c, c') && !Past(b, i + 1, RE_UPLOAD)
             && forall k <- c | c[k].needsReUpload :: c[k].cqDepend.Some?
    requires forall k <- c | c[k].cqDepend.Some? ::
              c[k].changeId.Some? && c[k].changeId.value in m && c'[k].needsReUpload
    ensures MessagesInv(b, i + 1, c', m)
  {
    hide Past;
    FromRecordsKept(c, c', m);
  }

  lemma ReUploadDone(b: Board, i: nat, c: Commits, m: map<string, string>, c': Commits)
    requires IsOrdered(b) && i < |b.stepList| && CqInv(b, i, c, m)
    requires b.stepList[i] == RE_UPLOAD && c'.Keys == c.Keys && forall k <- c :: c'[k] == c[k].(needsReUpload := false)
    ensures CqInv(b, i + 1, c', m)
  {
    ReUploadMessages(b, i, c, m, c');
    assert FlagsOnly(c, c');
    hide KeysInv, FoundInv, LinesInv, MessagesInv, Past, InCqOrder;
    FlagsKeep(b, i, c, c');
  }

  lemma ReUploadMessages(b: Board, i: nat, c: Commits, m: map<string, string>, c': Commits)
    requires IsOrdered(b) && i < |b.stepList| && MessagesInv(b, i, c, m)
    requires b.stepList[i] == RE_UPLOAD && c'.Keys == c.Keys && forall k <- c :: c'[k] == c[k].(needsReUpload := false)
    ensures MessagesInv(b, i + 1, c', m)
  {
    PastNext(b, i, ADD_CQ_DEPEND);
    PastNext(b, i, RE_UPLOAD);
    hide Past, InCqOrder, IsBoard;
    assert SameRecords(c, c');
    FromRecordsKept(c, c', m);
  }

  /** A step that deals with no changelist changes nothing but the position. */
  lemma NothingNew(b: Board, i: nat, c: Commits, m: map<string, string>)
    requires IsOrdered(b) && i < |b.stepList| && CqInv(b, i, c, m)
    requires CreatedBy(b.stepList[i]) == None && b.stepList[i] !in CQ_STEPS
    ensures CqInv(b, i + 1, c, m)
  {
    var s := b.stepList[i];
    assert s !in FINDERS && s != CALC_CQ_DEPEND && s != ADD_CQ_DEPEND && s != RE_UPLOAD;
    hide KeysInv, FoundInv, LinesInv, MessagesInv, InCqOrder;
    KeysMove(b, i, c);
    FoundMove(b, i, c);
    LinesMove(b, i, c);
    MessagesMove(b, i, c, m);
  }

  // ---------- every step ----------

  /** A step of the list that succeeds hands the next one what it relies on. */
  lemma StepKeepsCq(b: Board, i: nat, c: Commits, m: map<string, string>, c': Commits, m': map<string, string>)
    requires IsOrdered(b) && i < |b.stepList| && CqInv(b, i, c, m)
    requires StepOk(b, b.stepList[i], c, m, c', m')
    ensures CqInv(b, i + 1, c', m')
    ensures CqInv(b, i, if b.stepList[i] in [PUSH, UPLOAD] then c' else c, m')
  {
    hide IsOrdered, CqInv, Learnt, CanCalc, Calculated, Amended, NewRecord, HasCl, IsBoard;
    var s := b.stepList[i];
    if s == PUSH {
      ListDone(b, i, c, m, b.pushList, c');
    } else if s == UPLOAD {
      ListDone(b, i, c, m, b.uploadList, c');
    } else if s == FIND {
      FindDone(b, i, c, m, c');
    } else if s == CALC_CQ_DEPEND {
      CalcDone(b, i, c, m, c');
    } else if s == ADD_CQ_DEPEND {
      AddDone(b, i, c, m, c', m');
    } else if s == RE_UPLOAD {
      ReUploadDone(b, i, c, m, c');
    } else if CreatedBy(s).Some? {
      CreateDone(b, i, c, m, CreatedBy(s).value, c');
    } else {
      NothingNew(b, i, c, m);
    }
  }

  /** A step that stops half-way leaves a file that fits the step. */
  lemma PartialKeepsCq(b: Board, i: nat, c: Commits, m: map<string, string>, c': Commits, m': map<string, string>)
    requires IsOrdered(b) && i < |b.stepList| && CqInv(b, i, c, m)
    requires StepPartial(b, b.stepList[i], c, m, c', m')
    ensures CqInv(b, i, c', m')
  {
    hide IsOrdered, Learnt, Amended, IsBoard, KeysInv, FoundInv, LinesInv, MessagesInv;
    var s := b.stepList[i];
    if s in [PUSH, UPLOAD] {
      NotLaterYet(b, i);
      LearntKeeps(b, i, c, m, if s == PUSH then b.pushList else b.uploadList, c');
    } else if s == ADD_CQ_DEPEND {
      AmendedKeeps(b, i, c, m, m');
    }
  }

  lemma NotLaterYet(b: Board, i: nat)
    requires IsOrdered(b) && i < |b.stepList| && b.stepList[i] in [PUSH, UPLOAD]
    ensures !Past(b, i, CALC_CQ_DEPEND) && !Past(b, i, ADD_CQ_DEPEND) && !Past(b, i, RE_UPLOAD)
  {
    AheadOfLines(b, i);
    hide Past, InCqOrder;
    PastNext(b, i, CALC_CQ_DEPEND);
    PastNext(b, i, ADD_CQ_DEPEND);
    PastNext(b, i, RE_UPLOAD);
  }
}
