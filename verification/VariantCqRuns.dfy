/** What whole runs of new_variant, with any failures and restarts, do to the Cq-Depend lines
    (contrib/variant/new_variant.py and the board modules beside it). */
module VariantCqRuns {
  import opened Prelude
  import opened VariantStatus
  import opened VariantRuns
  import opened VariantCqDepend

  ghost predicate NoAbort(log: seq<Attempt>) {
    forall a <- log :: a.step != ABORT
  }

  ghost function Position(b: Board, step: Option<string>): int {
    if step.Some? then IndexOf(b.stepList, step.value) else |b.stepList|
  }

  /** The records, the messages and the uploads are those that the i-th step expects. */
  ghost predicate FitsAt(b: Board, i: int, c: Commits, m: map<string, string>, sent: set<string>) {
    CqInv(b, i, c, m) && (Past(b, i, RE_UPLOAD) ==> m.Keys <= sent)
  }

  ghost predicate Fits(b: Board, step: Option<string>, c: Commits, m: map<string, string>, sent: set<string>) {
    && (step.Some? ==> step.value in b.stepList)
    && FitsAt(b, Position(b, step), c, m, sent)
  }

  ghost predicate FileFits(b: Board, s: State) {
    s.file.Some? ==> s.file.value.step.Some? && Fits(b, s.file.value.step, s.file.value.commits, s.messages, s.sent)
  }

  ghost predicate ProcFits(b: Board, s: State) {
    s.proc.Some? && s.proc.value.step != Some(ABORT) ==>
      var q := s.proc.value;
      if q.phase == Performed
      then q.step.Some? && q.step.value in b.stepList
          && FitsAt(b, Position(b, q.step) + 1, q.commits, s.messages, s.sent)
      else Fits(b, q.step, q.commits, s.messages, s.sent)
  }

  ghost predicate StateInv(b: Board, s: State) {
    && DriverInv(b, s)
    && (!s.begun ==> s.messages == map[])
    && (NoAbort(s.log) ==> FileFits(b, s) && ProcFits(b, s))
  }

  /** What a step that succeeds leaves in the messages has been uploaded once re_upload is past. */
  lemma StepSends(b: Board, i: nat, c: Commits, m: map<string, string>, sent: set<string>, c': Commits,
                  m': map<string, string>)
    requires IsOrdered(b) && i < |b.stepList| && FitsAt(b, i, c, m, sent) && StepOk(b, b.stepList[i], c, m, c', m')
    ensures Past(b, i, RE_UPLOAD) ==> m' == m
    ensures b.stepList[i] == RE_UPLOAD ==> m' == m && m.Keys <= FlaggedIds(c)
  {
    assert b.stepList[i] in b.stepList;
    if b.stepList[i] == ADD_CQ_DEPEND {
      LastAhead(b, i);
      PastNext(b, i, RE_UPLOAD);
    }
    if b.stepList[i] == RE_UPLOAD {
      PastNext(b, i, RE_UPLOAD);
      AddIsPast(b, i);
      hide Past, InCqOrder, IsBoard, KeysInv, FoundInv, LinesInv;
    }
    hide Learnt, CanCalc, Calculated, Amended, NewRecord, CreatedBy;
  }

  lemma AddIsPast(b: Board, i: nat)
    requires IsOrdered(b) && i < |b.stepList| && b.stepList[i] == RE_UPLOAD
    ensures Past(b, i, ADD_CQ_DEPEND)
  {
    hide CreatedBy;
    assert b.stepList[i] in b.stepList;
    IndexAt(b.stepList, i);
  }

  ghost function SentAfter(b: Board, i: nat, c: Commits, m: map<string, string>, sent: set<string>,
                           m': map<string, string>): set<string>
    requires i < |b.stepList|
  {
    StillSent(sent, m, m') + if b.stepList[i] == RE_UPLOAD then FlaggedIds(c) else {}
  }

  lemma StepKeepsFit(b: Board, i: nat, c: Commits, m: map<string, string>, sent: set<string>, c': Commits,
                     m': map<string, string>)
    requires IsOrdered(b) && i < |b.stepList| && FitsAt(b, i, c, m, sent) && StepOk(b, b.stepList[i], c, m, c', m')
    ensures FitsAt(b, i + 1, c', m', SentAfter(b, i, c, m, sent, m'))
    ensures FitsAt(b, i, if b.stepList[i] in [PUSH, UPLOAD] then c' else c, m', SentAfter(b, i, c, m, sent, m'))
  {
    StepKeepsCq(b, i, c, m, c', m');
    StepSends(b, i, c, m, sent, c', m');
    PastNext(b, i, RE_UPLOAD);
    hide CqInv, StepOk, IsOrdered, Past, FlaggedIds;
  }

  lemma PartialKeepsFit(b: Board, i: nat, c: Commits, m: map<string, string>, sent: set<string>, c': Commits,
                        m': map<string, string>)
    requires IsOrdered(b) && i < |b.stepList| && FitsAt(b, i, c, m, sent) && StepPartial(b, b.stepList[i], c, m, c', m')
    ensures FitsAt(b, i, c', m', StillSent(sent, m, m'))
  {
    PartialKeepsCq(b, i, c, m, c', m');
    if b.stepList[i] == ADD_CQ_DEPEND {
      LastAhead(b, i);
      PastNext(b, i, RE_UPLOAD);
    }
    hide CqInv, IsOrdered, Past, Learnt, Amended;
  }

  lemma NothingAtFirst(b: Board)
    requires IsBoard(b)
    ensures Fits(b, Some(b.stepList[0]), map[], map[], {})
  {
    IndexAt(b.stepList, 0);
    forall s ensures !Past(b, 0, s) {
      IndexInside(b.stepList, s);
    }
  }

  /** The last step may have succeeded without there having been an abort before. */
  lemma NoAbortBefore(b: Board, s: State, e: Event)
    requires Allowed(b, s, e) && NoAbort(Apply(b, s, e).log)
    ensures NoAbort(s.log)
  {
    hide StepOk, StepPartial;
    var s' := Apply(b, s, e);
    forall a <- s.log ensures a.step != ABORT {
      var i :| 0 <= i < |s.log| && s.log[i] == a;
      assert s'.log[i] in s'.log;
    }
  }

  lemma SucceedFits(b: Board, s: State, c: Commits, m: map<string, string>)
    requires IsOrdered(b) && StateInv(b, s) && NoAbort(s.log) && Allowed(b, s, Succeed(c, m))
    ensures var s' := Apply(b, s, Succeed(c, m)); FileFits(b, s') && ProcFits(b, s')
  {
    hide FitsAt, StepOk, IsOrdered, LogInv, IsBoard, StepPartial, Eligible;
    var q := s.proc.value;
    assert s.log[|s.log| - 1] in s.log;
    assert q.step.value != ABORT;
    var i := IndexOf(b.stepList, q.step.value);
    IndexInside(b.stepList, q.step.value);
    StepKeepsFit(b, i, q.commits, s.messages, s.sent, c, m);
  }

  lemma StopFits(b: Board, s: State, c: Commits, m: map<string, string>, gone: bool)
    requires IsOrdered(b) && StateInv(b, s) && NoAbort(s.log) && Allowed(b, s, Stop(c, m, gone))
    ensures var s' := Apply(b, s, Stop(c, m, gone)); FileFits(b, s') && ProcFits(b, s')
  {
    hide FitsAt, StepOk, IsOrdered, LogInv, IsBoard, StepPartial, Eligible;
    var q := s.proc.value;
    assert s.log[|s.log| - 1] in s.log;
    assert q.step.value != ABORT;
    var i := IndexOf(b.stepList, q.step.value);
    IndexInside(b.stepList, q.step.value);
    PartialKeepsFit(b, i, q.commits, s.messages, s.sent, c, m);
  }

  lemma AdvanceFits(b: Board, s: State)
    requires IsOrdered(b) && StateInv(b, s) && NoAbort(s.log) && Allowed(b, s, Advance)
    ensures var s' := Apply(b, s, Advance); FileFits(b, s') && ProcFits(b, s')
  {
    hide FitsAt, StepOk, LogInv, StepPartial, Eligible, InCqOrder;
    var q := s.proc.value;
    assert s.log[|s.log| - 1] in s.log;
    assert q.step.value != ABORT;
    var i := IndexOf(b.stepList, q.step.value);
    IndexInside(b.stepList, q.step.value);
    NextAfter(b, i);
    if i + 1 < |b.stepList| {
      IndexAt(b.stepList, i + 1);
    }
  }

  lemma BeforeBegin(b: Board, s: State, e: Event)
    requires DriverInv(b, s) && Allowed(b, s, e) && (!s.begun ==> s.messages == map[])
    ensures var s' := Apply(b, s, e); !s'.begun ==> s'.messages == map[]
  {
    hide StepOk, StepPartial, LogInv, IsBoard;
  }

  lemma StateStep(b: Board, s: State, e: Event)
    requires IsOrdered(b) && StateInv(b, s) && Allowed(b, s, e)
    ensures StateInv(b, Apply(b, s, e))
  {
    DriverStep(b, s, e);
    BeforeBegin(b, s, e);
    hide DriverInv, FitsAt, Fits, StepOk, StepPartial, IsOrdered, NextStep, IsBoard;
    var s' := Apply(b, s, e);
    if NoAbort(s'.log) {
      NoAbortBefore(b, s, e);
      match e
      case Succeed(c, m) => SucceedFits(b, s, c, m);
      case Stop(c, m, gone) => StopFits(b, s, c, m, gone);
      case Advance => AdvanceFits(b, s);
      case Begin => NothingAtFirst(b);
      case Save =>
        assert s'.log[|s.log|] in s'.log;
      case _ =>
    }
  }

  lemma {:induction false} StateRun(b: Board, s: State, es: seq<Event>)
    requires IsOrdered(b) && StateInv(b, s) && Run(b, s, es).Some?
    ensures StateInv(b, Run(b, s, es).value)
    decreases |es|
  {
    hide StateInv, IsOrdered, Allowed, Apply;
    if es != [] {
      StateStep(b, s, es[0]);
      StateRun(b, Apply(b, s, es[0]), es[1..]);
    }
  }

  // ---------- a board table as it should be ----------

  /** Records exist only of what the steps create, and changelists only of what they look up; the
      record of the upstream changelist names no branch. */
  ghost predicate KnownOnly(b: Board, c: Commits) {
    forall k <- c :: Known(b, k) && (HasCl(c[k]) ==> Provided(b, k)) && (k == FIND ==> c[k].branchName == None)
  }

  /** When calc_cq_depend begins, all that is known is there, and its changelist if it is looked up. */
  lemma ReadyToCalc(b: Board, c: Commits)
    requires IsOrdered(b) && DependsAreMet(b) && CALC_CQ_DEPEND in b.stepList
    requires KeysInv(b, IndexOf(b.stepList, CALC_CQ_DEPEND), c) && FoundInv(b, IndexOf(b.stepList, CALC_CQ_DEPEND), c)
    ensures CanCalc(b, c)
  {
    hide IndexOf, CreatedBy, IsCommitted, HasCl, IsBoard;
    assert CALC_CQ_DEPEND in CQ_STEPS && PUSH in FINDERS && UPLOAD in FINDERS && FIND in FINDERS;
    forall k <- b.dependKeys ensures k in c {
      if Created(b, k) {
        var s :| s in b.stepList && CreatedBy(s) == Some(k);
        assert Before(b, s, CALC_CQ_DEPEND);
      }
    }
    forall k, d | k in b.dependKeys && k in b.depends && d in b.depends[k] ensures d in c && HasCl(c[d]) {
      assert Provided(b, d);
    }
  }

  lemma CalcNeeds(b: Board, c: Commits)
    requires b.depends.Keys == Elements(b.dependKeys) && KnownOnly(b, c) && CanCalc(b, c)
    ensures DependsAreMet(b)
  {
    hide Known, Provided, HasCl;
  }

  /** In every run, with any failures and restarts, a process that has come to calc_cq_depend without
      an abort finds all the records and changelists it needs exactly if the board table is such that
      every key of `depends` and every dependency is made, and every dependency looked up. */
  lemma CanCalcExactly(b: Board, es: seq<Event>)
    requires IsOrdered(b) && Run(b, INITIAL, es).Some?
    ensures var s := Run(b, INITIAL, es).value;
            NoAbort(s.log) && s.proc.Some? && s.proc.value.step == Some(CALC_CQ_DEPEND) && s.proc.value.phase == Running
            ==> (CanCalc(b, s.proc.value.commits) <==> DependsAreMet(b))
  {
    StateRun(b, INITIAL, es);
    KnownRun(b, INITIAL, es);
    var s := Run(b, INITIAL, es).value;
    hide Run, StepOk, StepPartial, CanCalc, DependsAreMet;
    if NoAbort(s.log) && s.proc.Some? && s.proc.value.step == Some(CALC_CQ_DEPEND) && s.proc.value.phase == Running {
      var c := s.proc.value.commits;
      assert KnownOnly(b, c) && CqInv(b, IndexOf(b.stepList, CALC_CQ_DEPEND), c, s.messages) by {
        hide DriverInv, CqInv, IsOrdered, IndexOf, KnownOnly;
      }
      hide DriverInv, IndexOf, KnownOnly, LinesInv, MessagesInv, FileFits, ProcFits;
      if DependsAreMet(b) {
        ReadyToCalc(b, c);
      }
      if CanCalc(b, c) {
        CalcNeeds(b, c);
      }
    }
  }

  /** Otherwise no run ever gets past calc_cq_depend, whether it is aborted or not. */
  lemma UnmetNeverCalculates(b: Board, es: seq<Event>, c: Commits, m: map<string, string>)
    requires IsBoard(b) && !DependsAreMet(b) && Run(b, INITIAL, es).Some?
    ensures var s := Run(b, INITIAL, es).value;
            s.proc.Some? && s.proc.value.step == Some(CALC_CQ_DEPEND) ==> !Allowed(b, s, Succeed(c, m))
  {
    KnownRun(b, INITIAL, es);
    var s := Run(b, INITIAL, es).value;
    if s.proc.Some? && s.proc.value.step == Some(CALC_CQ_DEPEND) && CanCalc(b, s.proc.value.commits) {
      hide DriverInv, CanCalc, DependsAreMet, KnownOnly;
      CalcNeeds(b, s.proc.value.commits);
    }
    hide DriverInv, CanCalc, Calculated, KnownOnly, DependsAreMet;
  }

  /** Exactly the commits with dependencies have a line in their message: that of their
      dependencies, in order.  And none is flagged for upload. */
  ghost predicate LinesDone(b: Board, c: Commits, m: map<string, string>) {
    && (forall k <- b.dependKeys :: k in c && IsCommitted(c[k]))
    && (forall k <- c :: LineDone(b, c, m, k))
    && (forall id <- m :: exists k <- b.dependKeys :: k in c && c[k].changeId == Some(id))
    && (forall k <- c :: !c[k].needsReUpload)
  }

  lemma AllPast(b: Board, i: int)
    requires IsBoard(b) && InCqOrder(b) && RE_UPLOAD in b.stepList && Past(b, i, RE_UPLOAD)
    ensures Past(b, i, CALC_CQ_DEPEND) && Past(b, i, ADD_CQ_DEPEND)
    ensures FIND in b.stepList ==> Past(b, i, FIND)
    ensures forall s <- b.stepList | CreatedBy(s).Some? :: Past(b, i, s)
  {
    hide CreatedBy, IndexOf, IsBoard;
    assert RE_UPLOAD in CQ_STEPS && FIND in FINDERS;
  }

  lemma DependKeysThere(b: Board, i: int, c: Commits, m: map<string, string>)
    requires IsCqBoard(b) && KeysInv(b, i, c) && FoundInv(b, i, c) && LinesInv(b, i, c) && MessagesInv(b, i, c, m)
    requires (forall s <- b.stepList | CreatedBy(s).Some? :: Past(b, i, s)) && (FIND in b.stepList ==> Past(b, i, FIND))
    requires Past(b, i, CALC_CQ_DEPEND) && Past(b, i, ADD_CQ_DEPEND)
    ensures forall k <- b.dependKeys :: k in c && IsCommitted(c[k])
  {
    hide Past, IndexOf, IsCommitted, Provided, LineFor, HasCl, CreatedBy;
    forall k <- b.dependKeys ensures k in c && IsCommitted(c[k]) {
      if Created(b, k) {
        var s :| s in b.stepList && CreatedBy(s) == Some(k);
      }
      assert k in c && c[k].cqDepend.Some? && c[k].changeId.Some?;
      assert k != FIND;
    }
  }

  lemma LineOf(b: Board, i: int, c: Commits, m: map<string, string>, k: string)
    requires KeysInv(b, i, c) && LinesInv(b, i, c) && MessagesInv(b, i, c, m)
    requires k in c && c[k].changeId.Some? && c[k].changeId.value in m
    ensures k in b.dependKeys && LineFor(b, c, k, m[c[k].changeId.value])
  {
    hide Past, LineFor, CreatedBy, IsCommitted;
    var l :| l in c && c[l].changeId == Some(c[k].changeId.value) && c[l].cqDepend == Some(m[c[k].changeId.value]);
    assert l == k;
  }

  lemma IdOf(b: Board, i: int, c: Commits, m: map<string, string>, id: string)
    requires LinesInv(b, i, c) && MessagesInv(b, i, c, m) && id in m
    ensures exists k <- b.dependKeys :: k in c && c[k].changeId == Some(id)
  {
    hide Past, LineFor;
    var k :| k in c && c[k].changeId == Some(id) && c[k].cqDepend == Some(m[id]);
    assert k in b.dependKeys;
  }

  /** A commit has its line in its message exactly if it has dependencies. */
  ghost predicate LineDone(b: Board, c: Commits, m: map<string, string>, k: string)
    requires k in c
  {
    && (IsCommitted(c[k]) ==> (c[k].changeId.value in m <==> k in b.dependKeys))
    && (c[k].changeId.Some? && c[k].changeId.value in m ==> LineFor(b, c, k, m[c[k].changeId.value]))
  }

  lemma LineIsDone(b: Board, i: int, c: Commits, m: map<string, string>, k: string)
    requires k in c && KeysInv(b, i, c) && LinesInv(b, i, c) && MessagesInv(b, i, c, m)
    requires Past(b, i, CALC_CQ_DEPEND) && Past(b, i, ADD_CQ_DEPEND)
    ensures LineDone(b, c, m, k)
  {
    hide Past, LineFor, CreatedBy;
    if c[k].changeId.Some? && c[k].changeId.value in m {
      LineOf(b, i, c, m, k);
    }
  }

  lemma LinesAreDone(b: Board, i: int, c: Commits, m: map<string, string>)
    requires IsCqBoard(b) && CqInv(b, i, c, m) && RE_UPLOAD in b.stepList && Past(b, i, RE_UPLOAD)
    ensures LinesDone(b, c, m)
  {
    hide LineDone, LineFor;
    AllPast(b, i);
    DependKeysThere(b, i, c, m);
    NoFlags(b, i, c, m);
    hide IsCqBoard, Past, FoundInv, KeysInv, LinesInv, MessagesInv, IsCommitted;
    forall k <- c ensures LineDone(b, c, m, k) {
      LineIsDone(b, i, c, m, k);
    }
    forall id <- m ensures exists k <- b.dependKeys :: k in c && c[k].changeId == Some(id) {
      IdOf(b, i, c, m, id);
    }
  }

  lemma NoFlags(b: Board, i: int, c: Commits, m: map<string, string>)
    requires MessagesInv(b, i, c, m) && Past(b, i, RE_UPLOAD)
    ensures forall k <- c :: !c[k].needsReUpload
  {
  }

  /** The message of each commit with dependencies names their changelists, all of them in order. */
  ghost predicate LinesName(b: Board, c: Commits, m: map<string, string>) {
    forall k <- b.dependKeys ::
      && k in c && k in b.depends && c[k].changeId.Some? && c[k].changeId.value in m
      && NamesAll(c, b.depends[k], m[c[k].changeId.value])
  }

  lemma DoneLinesName(b: Board, c: Commits, m: map<string, string>)
    requires LinesDone(b, c, m)
    ensures LinesName(b, c, m)
  {
    hide NamesAll, LineFor;
    forall k <- b.dependKeys
      ensures k in c && k in b.depends && c[k].changeId.Some? && c[k].changeId.value in m
      ensures NamesAll(c, b.depends[k], m[c[k].changeId.value])
    {
      assert LineDone(b, c, m, k) && IsCommitted(c[k]);
      assert LineFor(b, c, k, m[c[k].changeId.value]);
      LineNamesAll(b, c, k, m[c[k].changeId.value]);
    }
  }

  /** In every run of a proper board, with any failures and restarts, as long as there was no abort:
      once the status file is past re_upload the lines are done, and every commit that has one was
      uploaded after it got it. */
  lemma EveryRunAddsLines(b: Board, es: seq<Event>)
    requires IsCqBoard(b) && RE_UPLOAD in b.stepList && Run(b, INITIAL, es).Some?
    ensures var s := Run(b, INITIAL, es).value;
            NoAbort(s.log) && s.file.Some? && s.file.value.step.Some?
                && Past(b, IndexOf(b.stepList, s.file.value.step.value), RE_UPLOAD)
            ==> LinesDone(b, s.file.value.commits, s.messages) && s.messages.Keys <= s.sent
                && LinesName(b, s.file.value.commits, s.messages)
  {
    StateRun(b, INITIAL, es);
    var s := Run(b, INITIAL, es).value;
    hide DriverInv, CqInv, IsCqBoard, IndexOf, LinesDone, Past;
    if NoAbort(s.log) && s.file.Some? && s.file.value.step.Some?
        && Past(b, IndexOf(b.stepList, s.file.value.step.value), RE_UPLOAD) {
      LinesAreDone(b, IndexOf(b.stepList, s.file.value.step.value), s.file.value.commits, s.messages);
      DoneLinesName(b, s.file.value.commits, s.messages);
    }
  }

  // ---------- what any run keeps of the records ----------

  ghost predicate KnownInv(b: Board, s: State) {
    && DriverInv(b, s)
    && (s.file.Some? ==> KnownOnly(b, s.file.value.commits))
    && (s.proc.Some? ==> KnownOnly(b, s.proc.value.commits))
  }

  lemma LearntKnown(b: Board, c: Commits, keys: seq<string>, c': Commits)
    requires KnownOnly(b, c) && Learnt(c, keys, c') && forall k <- keys :: Provided(b, k)
    ensures KnownOnly(b, c')
  {
    hide Known, Provided;
  }

  lemma StepKnown(b: Board, s: string, c: Commits, m: map<string, string>, c': Commits, m': map<string, string>)
    requires s in b.stepList && KnownOnly(b, c) && StepOk(b, s, c, m, c', m')
    ensures KnownOnly(b, c')
  {
    if s == PUSH {
      LearntKnown(b, c, b.pushList, c');
    } else if s == UPLOAD {
      LearntKnown(b, c, b.uploadList, c');
    } else if s == FIND {
      FindKnown(b, c, c');
    } else {
      hide Learnt, Amended, CanCalc, LineFor, CreatedBy, Provided;
    }
  }

  lemma FindKnown(b: Board, c: Commits, c': Commits)
    requires FIND in b.stepList && KnownOnly(b, c) && (c' == c || exists cl :: c' == c[FIND := FoundRecord(cl)])
    ensures KnownOnly(b, c')
  {
    hide CreatedBy;
  }

  lemma PartialKnown(b: Board, s: string, c: Commits, m: map<string, string>, c': Commits, m': map<string, string>)
    requires s in b.stepList && KnownOnly(b, c) && StepPartial(b, s, c, m, c', m')
    ensures KnownOnly(b, c')
  {
    if s == PUSH {
      LearntKnown(b, c, b.pushList, c');
    } else if s == UPLOAD {
      LearntKnown(b, c, b.uploadList, c');
    }
  }

  lemma RunningListed(b: Board, s: State)
    requires DriverInv(b, s) && s.proc.Some? && s.proc.value.phase == Running
    ensures s.proc.value.step.Some? && (s.proc.value.step.value == ABORT || s.proc.value.step.value in b.stepList)
  {
  }

  lemma KnownStep(b: Board, s: State, e: Event)
    requires KnownInv(b, s) && Allowed(b, s, e)
    ensures KnownInv(b, Apply(b, s, e))
  {
    DriverStep(b, s, e);
    if e.Succeed? || e.Stop? {
      RunningListed(b, s);
    }
    assert ABORT != PUSH && ABORT != UPLOAD && CreatedBy(ABORT) == None;
    hide KnownOnly, DriverInv, CreatedBy;
    match e
    case Succeed(c, m) =>
      if s.proc.value.step.value == ABORT {
        assert c == s.proc.value.commits;
      } else {
        hide StepOk;
        StepKnown(b, s.proc.value.step.value, s.proc.value.commits, s.messages, c, m);
      }
    case Stop(c, m, gone) =>
      if s.proc.value.step.value == ABORT {
        assert c == s.proc.value.commits;
      } else {
        hide StepPartial;
        PartialKnown(b, s.proc.value.step.value, s.proc.value.commits, s.messages, c, m);
      }
    case Begin =>
      NothingKnown(b);
    case _ =>
  }

  lemma NothingKnown(b: Board)
    ensures KnownOnly(b, map[])
  {
  }

  lemma {:induction false} KnownRun(b: Board, s: State, es: seq<Event>)
    requires KnownInv(b, s) && Run(b, s, es).Some?
    ensures KnownInv(b, Run(b, s, es).value)
    decreases |es|
  {
    hide KnownInv, Allowed, Apply;
    if es != [] {
      KnownStep(b, s, es[0]);
      KnownRun(b, Apply(b, s, es[0]), es[1..]);
    }
  }

  // ---------- aborting ----------

  /** Whatever has happened before, no abort succeeds once the upstream changelist is recorded: its
      record has no branch to abandon. */
  lemma NoAbortAfterFind(b: Board, es: seq<Event>, c: Commits, m: map<string, string>)
    requires IsBoard(b) && Run(b, INITIAL, es).Some?
    ensures var s := Run(b, INITIAL, es).value;
            s.proc.Some? && s.proc.value.step == Some(ABORT) && FIND in s.proc.value.commits ==>
                !Allowed(b, s, Succeed(c, m))
  {
    KnownRun(b, INITIAL, es);
    var s := Run(b, INITIAL, es).value;
    if s.proc.Some? && s.proc.value.step == Some(ABORT) && FIND in s.proc.value.commits {
      hide DriverInv, StepOk, Run;
      NotAbortable(b, s.proc.value.commits, s.messages, c, m);
    }
  }

  lemma NotAbortable(b: Board, c: Commits, m: map<string, string>, c': Commits, m': map<string, string>)
    requires KnownOnly(b, c) && FIND in c
    ensures !StepOk(b, ABORT, c, m, c', m')
  {
    assert c[FIND].branchName == None;
    assert CreatedBy(ABORT) == None;
    hide KnownOnly, CreatedBy, Learnt, Amended, CanCalc, Calculated, NewRecord;
  }

  /** A run of a proper board that is aborted for the first time can be aborted exactly as long as
      the upstream changelist is not recorded. */
  lemma AbortWorksExactlyBeforeFind(b: Board, es: seq<Event>)
    requires IsCqBoard(b) && Run(b, INITIAL, es).Some?
    ensures var s := Run(b, INITIAL, es).value;
            NoAbort(s.log) && s.file.Some?
            ==> (StepOk(b, ABORT, s.file.value.commits, s.messages, s.file.value.commits, s.messages) <==>
                 FIND !in s.file.value.commits)
  {
    StateRun(b, INITIAL, es);
    var s := Run(b, INITIAL, es).value;
    if NoAbort(s.log) && s.file.Some? {
      AbortableRecords(b, Position(b, s.file.value.step), s.file.value.commits, s.messages);
    }
  }

  lemma AbortableRecords(b: Board, i: int, c: Commits, m: map<string, string>)
    requires KeysInv(b, i, c)
    ensures StepOk(b, ABORT, c, m, c, m) <==> FIND !in c
  {
    hide Past, Learnt, Amended, CanCalc, Calculated, NewRecord;
    assert CreatedBy(ABORT) == None;
    hide CreatedBy;
  }
}
