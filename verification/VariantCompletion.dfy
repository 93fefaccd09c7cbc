/** Runs of new_variant that come to their end: with scripts, git and gerrit doing their part, every
    run of a proper board that was not aborted can be completed, wherever it stopped
    (contrib/variant/new_variant.py). */
module VariantCompletion {
  import opened Prelude
  import opened VariantStatus
  import opened VariantRuns
  import opened VariantCqDepend
  import opened VariantCqRuns
  import opened VariantBoards

  /** A board table whose lists name commits that are made, and whose keys of `depends` are commits
      that can be amended. */
  ghost predicate IsProperBoard(b: Board) {
    && IsCqBoard(b) && FIND !in b.dependKeys
    && (forall k <- b.pushList :: Created(b, k)) && (forall k <- b.uploadList :: Created(b, k))
    && (FIND in b.stepList ==> Created(b, CB_VARIANT))
  }

  // ---------- each step can succeed ----------

  lemma CreatedThere(b: Board, i: nat, c: Commits, k: string)
    requires IsOrdered(b) && i < |b.stepList| && b.stepList[i] in CQ_STEPS && KeysInv(b, i, c) && Created(b, k)
    ensures k in c && IsCommitted(c[k])
  {
    hide IsBoard, IsCommitted;
    var s :| s in b.stepList && CreatedBy(s) == Some(k);
    assert Before(b, s, b.stepList[i]);
    assert IndexOf(b.stepList, b.stepList[i]) == i by {
      assert IsBoard(b);
      IndexOfStep(b, i);
    }
    assert k != FIND;
    hide CreatedBy;
  }

  lemma IndexOfStep(b: Board, i: nat)
    requires IsBoard(b) && i < |b.stepList|
    ensures IndexOf(b.stepList, b.stepList[i]) == i && b.stepList[i] in b.stepList
  {
    IndexAt(b.stepList, i);
  }

  /** The commits of the list that lack a changelist are found. */
  ghost function AllLearnt(c: Commits, keys: seq<string>): Commits {
    map k | k in c :: if k in keys && !HasCl(c[k]) then WithCl(c[k], ("chromium", "1")) else c[k]
  }

  lemma ListPossible(b: Board, i: nat, c: Commits, keys: seq<string>)
    requires IsOrdered(b) && i < |b.stepList| && b.stepList[i] in CQ_STEPS && KeysInv(b, i, c)
    requires forall k <- keys :: Created(b, k)
    ensures Learnt(c, keys, AllLearnt(c, keys))
    ensures forall k <- keys :: k in AllLearnt(c, keys) && HasCl(AllLearnt(c, keys)[k])
  {
    forall k <- keys ensures k in c {
      CreatedThere(b, i, c, k);
    }
    hide Created, KeysInv, IsOrdered;
  }

  lemma FindPossible(b: Board, i: nat, c: Commits, m: map<string, string>) returns (c': Commits)
    requires IsProperBoard(b) && i < |b.stepList| && b.stepList[i] == FIND && KeysInv(b, i, c)
    ensures StepOk(b, FIND, c, m, c', m)
  {
    if Found(c) {
      c' := c;
    } else {
      assert b.stepList[i] in b.stepList && FIND in CQ_STEPS;
      CreatedThere(b, i, c, CB_VARIANT);
      hide IsProperBoard, KeysInv;
      c' := c[FIND := FoundRecord(("chromium", "1"))];
    }
  }

  ghost function AllCalculated(b: Board, c: Commits): Commits
    requires b.depends.Keys == Elements(b.dependKeys)
    requires forall k <- b.dependKeys :: k in Elements(b.dependKeys) && forall d <- b.depends[k] :: d in c
  {
    map k | k in c ::
      if k in b.dependKeys && k in b.depends && Entries(c, b.depends[k]).Some?
      then c[k].(cqDepend := Some(CqLine(Entries(c, b.depends[k]).value))) else c[k]
  }

  lemma {:induction false} EntriesThere(c: Commits, keys: seq<string>)
    requires forall k <- keys :: k in c && HasCl(c[k])
    ensures Entries(c, keys).Some?
  {
    if keys != [] {
      EntriesThere(c, keys[1..]);
      assert keys[0] in keys;
    }
  }

  lemma CalcPossible(b: Board, c: Commits)
    requires b.depends.Keys == Elements(b.dependKeys) && CanCalc(b, c)
    ensures Calculated(b, c, AllCalculated(b, c))
  {
    hide HasCl, CqLine;
    forall k <- b.dependKeys ensures k in b.depends && Entries(c, b.depends[k]).Some? {
      assert k in Elements(b.dependKeys);
      EntriesThere(c, b.depends[k]);
    }
    hide Entries;
  }

  ghost predicate HasLine(c: Commit) {
    c.cqDepend.Some? && c.changeId.Some?
  }

  /** Every message that should have a line and lacks it gets it. */
  ghost function AllAmended(c: Commits, m: map<string, string>): map<string, string>
    requires forall k <- c, l <- c :: k != l && c[k].changeId.Some? ==> c[k].changeId != c[l].changeId
  {
    m + map k | k in c && HasLine(c[k]) && c[k].changeId.value !in m :: c[k].changeId.value := c[k].cqDepend.value
  }

  lemma LinesCommitted(b: Board, i: nat, c: Commits)
    requires IsProperBoard(b) && KeysInv(b, i, c) && LinesInv(b, i, c)
    ensures forall k <- c | c[k].cqDepend.Some? :: IsCommitted(c[k])
  {
    hide Past, LineFor, IsCqBoard, Created, IsCommitted;
    forall k <- c | c[k].cqDepend.Some? ensures IsCommitted(c[k]) {
      assert k in b.dependKeys && k != FIND;
    }
  }

  lemma LinesAmended(c: Commits, m: map<string, string>)
    requires forall k <- c, l <- c :: k != l && c[k].changeId.Some? ==> c[k].changeId != c[l].changeId
    requires forall k <- c | c[k].cqDepend.Some? :: IsCommitted(c[k])
    ensures forall k <- c | c[k].cqDepend.Some? :: c[k].changeId.Some? && c[k].changeId.value in AllAmended(c, m)
  {
    forall k <- c | c[k].cqDepend.Some? ensures c[k].changeId.Some? && c[k].changeId.value in AllAmended(c, m) {
      assert HasLine(c[k]);
    }
  }

  lemma AddPossible(b: Board, i: nat, c: Commits, m: map<string, string>) returns (c': Commits, m': map<string, string>)
    requires IsProperBoard(b) && i < |b.stepList| && b.stepList[i] == ADD_CQ_DEPEND && KeysInv(b, i, c)
             && LinesInv(b, i, c)
    ensures StepOk(b, ADD_CQ_DEPEND, c, m, c', m')
  {
    hide IsProperBoard, AllAmended;
    LinesCommitted(b, i, c);
    LinesAmended(c, m);
    AmendedAll(c, m);
    hide KeysInv, LinesInv, Amended, IsCommitted, Learnt, CanCalc, Calculated, NewRecord;
    c' := map k | k in c :: if c[k].cqDepend.Some? then c[k].(needsReUpload := true) else c[k];
    m' := AllAmended(c, m);
  }

  lemma AmendedKeeps(c: Commits, m: map<string, string>)
    requires forall k <- c, l <- c :: k != l && c[k].changeId.Some? ==> c[k].changeId != c[l].changeId
    ensures m.Keys <= AllAmended(c, m).Keys && forall id <- m :: AllAmended(c, m)[id] == m[id]
  {
  }

  lemma AmendedAll(c: Commits, m: map<string, string>)
    requires forall k <- c, l <- c :: k != l && c[k].changeId.Some? ==> c[k].changeId != c[l].changeId
    ensures Amended(c, m, AllAmended(c, m))
  {
    var m' := AllAmended(c, m);
    AmendedKeeps(c, m);
    forall id <- m' | id !in m ensures exists k <- c :: c[k].changeId == Some(id) && c[k].cqDepend == Some(m'[id]) {
      var k :| k in c && HasLine(c[k]) && c[k].changeId.value !in m && c[k].changeId.value == id;
      assert m'[id] == c[k].cqDepend.value;
    }
  }

  lemma ReUploadPossible(b: Board, i: nat, c: Commits, m: map<string, string>) returns (c': Commits)
    requires IsProperBoard(b) && i < |b.stepList| && b.stepList[i] == RE_UPLOAD
    requires KeysInv(b, i, c) && LinesInv(b, i, c) && MessagesInv(b, i, c, m)
    ensures StepOk(b, RE_UPLOAD, c, m, c', m)
  {
    hide IsProperBoard, Past;
    LinesCommitted(b, i, c);
    assert forall k <- c | c[k].needsReUpload :: c[k].cqDepend.Some?;
    hide KeysInv, LinesInv, MessagesInv, Amended, Learnt, CanCalc, Calculated, NewRecord;
    c' := map k | k in c :: c[k].(needsReUpload := false);
  }

  /** There is always a change id that is not in use. */
  lemma {:induction false} FreshId(ids: set<string>) returns (id: string)
    ensures forall other <- ids :: |other| < |id|
  {
    if ids == {} {
      id := "I";
    } else {
      var other :| other in ids;
      var longer := FreshId(ids - {other});
      id := if |longer| > |other| then longer else other + "I";
    }
  }

  lemma CreatePossible(c: Commits, m: map<string, string>, k: string) returns (r: Commit)
    ensures NewRecord(c, m, k, r)
  {
    var used := set l | l in c && c[l].changeId.Some? :: c[l].changeId.value;
    var id := FreshId(m.Keys + used);
    r := Commit(Some("branch"), Some("dir"), Some(id), None, None, None, false);
    forall l <- c | l != k ensures c[l].changeId != r.changeId {
      if c[l].changeId.Some? {
        assert c[l].changeId.value in m.Keys + used;
      }
    }
  }

  lemma CalcReady(b: Board, i: nat, c: Commits)
    requires IsCqBoard(b) && i < |b.stepList| && b.stepList[i] == CALC_CQ_DEPEND && KeysInv(b, i, c)
             && FoundInv(b, i, c)
    ensures CanCalc(b, c)
  {
    IndexOfStep(b, i);
    hide KeysInv, FoundInv, DependsAreMet, InCqOrder, IndexOf;
    ReadyToCalc(b, c);
  }

  /** The steps that deal with changelists. */
  lemma CqStepPossible(b: Board, i: nat, c: Commits, m: map<string, string>) returns (c': Commits,
                                                                                      m': map<string, string>)
    requires IsProperBoard(b) && i < |b.stepList| && CqInv(b, i, c, m) && b.stepList[i] in CQ_STEPS
    ensures StepOk(b, b.stepList[i], c, m, c', m')
  {
    var s := b.stepList[i];
    c', m' := c, m;
    hide KeysInv, FoundInv, LinesInv, MessagesInv, IsCqBoard, Created, Learnt, Amended, CanCalc, Calculated,
         NewRecord, HasCl, CreatedBy;
    if s == PUSH {
      ListPossible(b, i, c, b.pushList);
      c' := AllLearnt(c, b.pushList);
    } else if s == UPLOAD {
      ListPossible(b, i, c, b.uploadList);
      c' := AllLearnt(c, b.uploadList);
    } else if s == FIND {
      c' := FindPossible(b, i, c, m);
    } else if s == CALC_CQ_DEPEND {
      CalcReady(b, i, c);
      TableIsBoard(b);
      CalcPossible(b, c);
      c' := AllCalculated(b, c);
    } else if s == ADD_CQ_DEPEND {
      c', m' := AddPossible(b, i, c, m);
    } else {
      c' := ReUploadPossible(b, i, c, m);
    }
  }

  /** The steps that make a commit, and all others. */
  lemma OtherStepPossible(b: Board, s: string, c: Commits, m: map<string, string>) returns (c': Commits)
    requires s !in CQ_STEPS && s != ABORT
    ensures StepOk(b, s, c, m, c', m)
  {
    hide Learnt, Amended, CanCalc, Calculated, NewRecord, CreatedBy;
    c' := c;
    if CreatedBy(s).Some? {
      var r := CreatePossible(c, m, CreatedBy(s).value);
      c' := c[CreatedBy(s).value := r];
    }
  }

  lemma StepPossible(b: Board, i: nat, c: Commits, m: map<string, string>) returns (c': Commits,
                                                                                    m': map<string, string>)
    requires IsProperBoard(b) && i < |b.stepList| && CqInv(b, i, c, m)
    ensures StepOk(b, b.stepList[i], c, m, c', m')
  {
    assert b.stepList[i] in b.stepList;
    TableIsBoard(b);
    hide IsProperBoard, CqInv, StepOk;
    if b.stepList[i] in CQ_STEPS {
      c', m' := CqStepPossible(b, i, c, m);
    } else {
      m' := m;
      c' := OtherStepPossible(b, b.stepList[i], c, m);
    }
  }

  lemma TableIsBoard(b: Board)
    requires IsProperBoard(b)
    ensures b.depends.Keys == Elements(b.dependKeys) && ABORT !in b.stepList
  {
  }

  // ---------- from step to step ----------

  /** A process is about to perform, or is performing, the i-th step, and nothing was aborted. */
  ghost predicate IsAt(b: Board, s: State, i: nat, phase: Phase) {
    && StateInv(b, s) && NoAbort(s.log) && i < |b.stepList|
    && s.proc.Some? && s.proc.value.phase == phase && s.proc.value.step == Some(b.stepList[i])
  }

  lemma RunNext(b: Board, s: State, e: Event, es: seq<Event>)
    requires Allowed(b, s, e)
    ensures Run(b, s, [e] + es) == Run(b, Apply(b, s, e), es)
  {
    hide Allowed, Apply;
    assert ([e] + es)[0] == e && ([e] + es)[1..] == es;
  }

  lemma NotAborted(log: seq<Attempt>, a: Attempt)
    requires NoAbort(log) && a.step != ABORT
    ensures NoAbort(log + [a]) && (log != [] ==> NoAbort(log[..|log| - 1] + [a]))
  {
  }

  lemma Begins(b: Board, s: State, i: nat)
    requires IsProperBoard(b) && IsAt(b, s, i, Top)
    ensures Allowed(b, s, Save) && IsAt(b, Apply(b, s, Save), i, Running)
  {
    hide IsProperBoard, StateInv;
    assert b.stepList[i] != ABORT by {
      IsListed(b, i);
    }
    StateStepProper(b, s, Save);
    NotAborted(s.log, Attempt(b.stepList[i], false, s.proc.value.first));
  }

  lemma IsListed(b: Board, i: nat)
    requires IsProperBoard(b) && i < |b.stepList|
    ensures b.stepList[i] != ABORT && b.stepList[i] in b.stepList
  {
  }

  lemma StateStepProper(b: Board, s: State, e: Event)
    requires IsProperBoard(b) && StateInv(b, s) && Allowed(b, s, e)
    ensures StateInv(b, Apply(b, s, e))
  {
    hide StateInv, Allowed, Apply, IsOrdered;
    StateStep(b, s, e);
  }

  /** What the process holds at the i-th step. */
  lemma HoldsAt(b: Board, s: State, i: nat)
    requires IsProperBoard(b) && IsAt(b, s, i, Running)
    ensures CqInv(b, i, s.proc.value.commits, s.messages) && s.log != [] && s.log[|s.log| - 1].step == b.stepList[i]
    ensures s.file.Some?
  {
    IndexOfStep(b, i);
    IsListed(b, i);
    hide CqInv, IsProperBoard, LogInv, Eligible, IndexOf, IsBoard;
  }

  lemma Succeeds(b: Board, s: State, i: nat) returns (e: Event)
    requires IsProperBoard(b) && IsAt(b, s, i, Running)
    ensures e.Succeed? && Allowed(b, s, e) && IsAt(b, Apply(b, s, e), i, Performed)
    ensures var log := Apply(b, s, e).log; log != [] && log[|log| - 1].step == b.stepList[i] && log[|log| - 1].ok
  {
    HoldsAt(b, s, i);
    IsListed(b, i);
    hide IsProperBoard, StateInv, CqInv, StepOk;
    var c, m := StepPossible(b, i, s.proc.value.commits, s.messages);
    e := Succeed(c, m);
    StateStepProper(b, s, e);
    NotAborted(s.log, s.log[|s.log| - 1].(ok := true));
  }

  lemma Advances(b: Board, s: State, i: nat)
    requires IsProperBoard(b) && IsAt(b, s, i, Performed) && i + 1 < |b.stepList|
    ensures Allowed(b, s, Advance) && IsAt(b, Apply(b, s, Advance), i + 1, Top)
  {
    IsListed(b, i);
    StateStepProper(b, s, Advance);
    NextAfter(b, i);
    hide StateInv, IsProperBoard, NextStep;
  }

  /** From one step the run comes to any later one. */
  lemma {:induction false} ComesTo(b: Board, s: State, i: nat, t: nat) returns (es: seq<Event>)
    requires IsProperBoard(b) && IsAt(b, s, i, Top) && i <= t < |b.stepList|
    ensures Run(b, s, es).Some? && IsAt(b, Run(b, s, es).value, t, Running)
    decreases t - i
  {
    hide IsProperBoard, IsAt, Allowed, Apply;
    Begins(b, s, i);
    var s1 := Apply(b, s, Save);
    if i == t {
      es := [Save];
      RunNext(b, s, Save, []);
      assert [Save] + [] == [Save];
    } else {
      var e := Succeeds(b, s1, i);
      var s2 := Apply(b, s1, e);
      Advances(b, s2, i);
      var s3 := Apply(b, s2, Advance);
      var rest := ComesTo(b, s3, i + 1, t);
      es := [Save] + ([e] + ([Advance] + rest));
      hide Run;
      RunNext(b, s2, Advance, rest);
      RunNext(b, s1, e, [Advance] + rest);
      RunNext(b, s, Save, [e] + ([Advance] + rest));
    }
  }

  // ---------- from anywhere ----------

  /** However a run stopped, a continued process takes up the step of the status file. */
  lemma Restarts(b: Board, s: State) returns (es: seq<Event>, i: nat)
    requires IsProperBoard(b) && StateInv(b, s) && NoAbort(s.log) && s.file.Some?
    ensures Run(b, s, es).Some? && IsAt(b, Run(b, s, es).value, i, Top)
  {
    var s0 := s;
    es := [];
    if s.proc.Some? {
      var e := if s.proc.value.phase == Running then Stop(s.proc.value.commits, s.messages, false) else Kill;
      StopAllowed(b, s, e);
      StateStepProper(b, s, e);
      s0 := Apply(b, s, e);
      es := [e];
      RunNext(b, s, e, []);
      assert [e] + [] == [e];
    }
    assert s0.proc == None && s0.file.Some? && NoAbort(s0.log) && StateInv(b, s0);
    i := Continues(b, s0);
    hide StateInv, IsProperBoard, IsAt;
    RunNext(b, s0, Continue, []);
    assert [Continue] + [] == [Continue];
    RunTwice(b, s, es, [Continue]);
    es := es + [Continue];
  }

  lemma StopAllowed(b: Board, s: State, e: Event)
    requires IsProperBoard(b) && StateInv(b, s) && NoAbort(s.log) && s.file.Some? && s.proc.Some?
    requires e == if s.proc.value.phase == Running then Stop(s.proc.value.commits, s.messages, false) else Kill
    ensures Allowed(b, s, e)
    ensures var s' := Apply(b, s, e); s'.proc == None && s'.file.Some? && s'.log == s.log
  {
    hide FileFits, ProcFits, IsProperBoard, LogInv, Eligible, IsBoard;
  }

  lemma Continues(b: Board, s: State) returns (i: nat)
    requires IsProperBoard(b) && StateInv(b, s) && NoAbort(s.log) && s.proc == None && s.file.Some?
    ensures Allowed(b, s, Continue) && IsAt(b, Apply(b, s, Continue), i, Top)
  {
    StateStepProper(b, s, Continue);
    assert s.file.value.step.Some? && s.file.value.step.value in b.stepList by {
      hide FitsAt, DriverInv, ProcFits;
    }
    hide StateInv, IsProperBoard;
    i :| 0 <= i < |b.stepList| && b.stepList[i] == s.file.value.step.value;
  }

  lemma {:induction false} RunTwice(b: Board, s: State, es: seq<Event>, more: seq<Event>)
    requires Run(b, s, es).Some?
    ensures Run(b, s, es + more) == Run(b, Run(b, s, es).value, more)
    decreases |es|
  {
    hide Allowed, Apply;
    if es == [] {
      assert es + more == more;
    } else {
      assert (es + more)[0] == es[0] && (es + more)[1..] == es[1..] + more;
      RunTwice(b, Apply(b, s, es[0]), es[1..], more);
    }
  }

  lemma FirstProcess(b: Board)
    requires IsProperBoard(b)
    ensures Allowed(b, INITIAL, Begin) && IsAt(b, Apply(b, INITIAL, Begin), 0, Top)
  {
    StateStepProper(b, INITIAL, Begin);
    hide StateInv, IsProperBoard;
  }

  /** The run has come to the end of the list and removed the status file. */
  ghost predicate IsFinished(b: Board, s: State) {
    s.file == None && s.log != [] && s.log[|s.log| - 1].step == CLEAN_UP && s.log[|s.log| - 1].ok && NoAbort(s.log)
  }

  lemma Finishes(b: Board, s: State, i: nat) returns (es: seq<Event>)
    requires IsProperBoard(b) && IsAt(b, s, i, Top)
    ensures Run(b, s, es).Some? && IsFinished(b, Run(b, s, es).value)
  {
    hide *;
    EndsInCleanUp(b, s, i);
    var t := |b.stepList| - 1;
    es := ComesTo(b, s, i, t);
    var s1 := Run(b, s, es).value;
    var e := CleansUp(b, s1, t);
    RunThen(b, s, es, e);
    es := es + [e];
  }

  lemma EndsInCleanUp(b: Board, s: State, i: nat)
    requires IsProperBoard(b) && IsAt(b, s, i, Top)
    ensures i < |b.stepList| && b.stepList[|b.stepList| - 1] == CLEAN_UP
  {
    hide StateInv;
  }

  lemma RunThen(b: Board, s: State, es: seq<Event>, e: Event)
    requires Run(b, s, es).Some? && Allowed(b, Run(b, s, es).value, e)
    ensures Run(b, s, es + [e]) == Some(Apply(b, Run(b, s, es).value, e))
  {
    hide Allowed, Apply;
    var s1 := Run(b, s, es).value;
    RunNext(b, s1, e, []);
    assert [e] + [] == [e];
    RunTwice(b, s, es, [e]);
  }

  lemma CleansUp(b: Board, s: State, t: nat) returns (e: Event)
    requires IsProperBoard(b) && IsAt(b, s, t, Running) && b.stepList[t] == CLEAN_UP
    ensures Allowed(b, s, e) && IsFinished(b, Apply(b, s, e))
  {
    e := Succeeds(b, s, t);
    hide IsProperBoard, StateInv, StepOk;
  }

  /** Every run of a proper board that was not aborted and has not cleaned up, however its steps
      failed and its processes died, can be continued to the end. */
  lemma EveryRunCanFinish(b: Board, es: seq<Event>) returns (more: seq<Event>)
    requires IsProperBoard(b) && Run(b, INITIAL, es).Some?
    requires var s := Run(b, INITIAL, es).value; NoAbort(s.log) && (s.begun ==> s.file.Some?)
    ensures Run(b, INITIAL, es + more).Some? && IsFinished(b, Run(b, INITIAL, es + more).value)
  {
    var s := Run(b, INITIAL, es).value;
    StateOfRun(b, es);
    var first: seq<Event>, i;
    if s.begun {
      first, i := Restarts(b, s);
    } else {
      first, i := [Begin], 0;
      NotBegun(b, s);
      StateStepProper(b, s, Begin);
      RunNext(b, s, Begin, []);
      assert [Begin] + [] == [Begin];
    }
    hide IsProperBoard, IsAt, StateInv, IsFinished;
    var s1 := Run(b, s, first).value;
    var rest := Finishes(b, s1, i);
    RunTwice(b, s, first, rest);
    more := first + rest;
    RunTwice(b, INITIAL, es, more);
  }

  lemma StateOfRun(b: Board, es: seq<Event>)
    requires IsProperBoard(b) && Run(b, INITIAL, es).Some?
    ensures StateInv(b, Run(b, INITIAL, es).value)
  {
    StateRun(b, INITIAL, es);
  }

  lemma NotBegun(b: Board, s: State)
    requires IsProperBoard(b) && StateInv(b, s) && !s.begun
    ensures Allowed(b, s, Begin) && b.stepList != [] && s.log == []
  {
    hide FileFits, ProcFits, LogInv;
  }

  // ---------- runs for the hatch board ----------

  lemma HatchIsProper()
    ensures IsProperBoard(HATCH)
  {
    HatchIsCqBoard();
    HatchKeys();
    hide IsCqBoard, Created;
    forall k | k in HATCH.pushList || k in HATCH.uploadList ensures Created(HATCH, k) {
      HatchMakes(k);
    }
    HatchConfigs();
  }

  /** There is a run of the hatch board that comes to any of its steps, and what it finds there. */
  lemma HatchComesTo(t: nat) returns (es: seq<Event>)
    requires t < |HATCH.stepList|
    ensures Run(HATCH, INITIAL, es).Some? && IsAt(HATCH, Run(HATCH, INITIAL, es).value, t, Running)
  {
    HatchIsProper();
    hide IsProperBoard, IsAt, Allowed, Apply;
    FirstProcess(HATCH);
    var rest := ComesTo(HATCH, Apply(HATCH, INITIAL, Begin), 0, t);
    es := [Begin] + rest;
    RunNext(HATCH, INITIAL, Begin, rest);
  }

  /** It comes to calc_cq_depend and can calculate. */
  lemma HatchCalculates() returns (es: seq<Event>)
    ensures Run(HATCH, INITIAL, es).Some?
    ensures var s := Run(HATCH, INITIAL, es).value;
            && NoAbort(s.log) && s.proc.Some? && s.proc.value.step == Some(CALC_CQ_DEPEND)
               && s.proc.value.phase == Running
            && CanCalc(HATCH, s.proc.value.commits)
  {
    es := HatchComesTo(13);
    assert HATCH.stepList[13] == CALC_CQ_DEPEND;
    HatchIsCqBoard();
    hide StateInv, CanCalc, DependsAreMet, IsOrdered, Run;
    CanCalcExactly(HATCH, es);
  }

  /** And to clean_up, with all lines uploaded and the upstream changelist on record, which no abort
      can undo any more. */
  lemma HatchUploadsLines() returns (es: seq<Event>)
    ensures Run(HATCH, INITIAL, es).Some?
    ensures var s := Run(HATCH, INITIAL, es).value;
            && NoAbort(s.log) && s.file.Some? && FIND in s.file.value.commits
            && LinesDone(HATCH, s.file.value.commits, s.messages) && s.messages.Keys <= s.sent && s.messages != map[]
            && !StepOk(HATCH, ABORT, s.file.value.commits, s.messages, s.file.value.commits, s.messages)
  {
    es := HatchComesTo(16);
    var s := Run(HATCH, INITIAL, es).value;
    HatchIsProper();
    HoldsAt(HATCH, s, 16);
    SavedAt(HATCH, s, 16);
    HatchPast();
    assert FIND in s.file.value.commits by {
      hide KeysInv, LinesInv, MessagesInv, StateInv, Run, IsProperBoard, Past;
    }
    hide CqInv, StateInv, Run, IndexOf, LinesDone, IsCqBoard, StepOk, Created, Past;
    EveryRunAddsLines(HATCH, es);
    AbortWorksExactlyBeforeFind(HATCH, es);
    SomeMessage(HATCH, s.file.value.commits, s.messages);
  }

  lemma HatchPast()
    ensures IndexOf(HATCH.stepList, HATCH.stepList[16]) == 16 && Past(HATCH, 16, FIND) && Past(HATCH, 16, RE_UPLOAD)
    ensures RE_UPLOAD in HATCH.stepList
  {
    HatchAt(12);
    HatchAt(15);
    HatchAt(16);
    hide IndexOf;
    assert HATCH.stepList[12] == FIND && HATCH.stepList[15] == RE_UPLOAD && HATCH.stepList[15] in HATCH.stepList;
  }

  lemma SavedAt(b: Board, s: State, i: nat)
    requires IsProperBoard(b) && IsAt(b, s, i, Running)
    ensures s.file == Some(Saved(Some(b.stepList[i]), s.proc.value.commits))
  {
    hide IsProperBoard, LogInv, Eligible, FileFits, ProcFits, IsBoard;
  }

  lemma SomeMessage(b: Board, c: Commits, m: map<string, string>)
    requires LinesDone(b, c, m) && b.dependKeys != []
    ensures m != map[]
  {
    hide LineFor;
    var k := b.dependKeys[0];
    assert k in b.dependKeys && LineDone(b, c, m, k);
  }
}
