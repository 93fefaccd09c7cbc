/** Runs of new_variant over any number of processes: new, continued and aborted ones, with steps
    that fail and processes that are killed between any two statements that matter
    (contrib/variant/new_variant.py, contrib/variant/variant_status.py). */
module VariantRuns {
  import opened Prelude
  import opened VariantStatus

  // ---------- the driver ----------

  /** Where the main loop is: at its head, inside perform_step, or past it. */
  datatype Phase = Top | Running | Performed

  /** A process: its copy of the status, and whether it has not performed a step yet. */
  datatype Process = Process(step: Option<string>, commits: Commits, phase: Phase, first: bool)

  /** A step that was begun: whether it succeeded, and whether it was the first of its process. */
  datatype Attempt = Attempt(step: string, ok: bool, first: bool)

  datatype State = State(
    begun: bool,
    file: Option<Saved>,
    proc: Option<Process>,
    messages: map<string, string>,
    sent: set<string>,        // change ids that were uploaded since their message last changed
    log: seq<Attempt>)

  datatype Event =
    | Begin                                                   // --board
    | Continue                                                // --continue
    | AbortFlag                                               // --abort
    | Save                                                    // head of the loop: save, begin the step
    | Succeed(commits: Commits, messages: map<string, string>) // the step returns True
    | Stop(commits: Commits, messages: map<string, string>, gone: bool) // it fails, or the process dies in it
    | Advance                                                 // move_to_next_step
    | Kill                                                    // the process dies elsewhere, or ends

  ghost function IndexOf(steps: seq<string>, s: string): int {
    if steps == [] then 0 else if steps[0] == s then 0 else 1 + IndexOf(steps[1..], s)
  }

  /** move_to_next_step; None when the step is the last or unknown (the process exits). */
  ghost function NextStep(b: Board, s: string): Option<string> {
    if s == ABORT then Some(CLEAN_UP)
    else
      var i := IndexOf(b.stepList, s);
      if 0 <= i < |b.stepList| - 1 then Some(b.stepList[i + 1]) else None
  }

  // the steps that record a commit under their own name
  const OWN_COMMITS :=
      ["fw_build_config", "cb_variant", "cb_config", "cras_config", "ec_image", "add_pub_yaml", "add_priv_yaml"]

  /** The commit that a step records when it succeeds. */
  function CreatedBy(s: string): Option<string> {
    if s in OWN_COMMITS then Some(s)
    else if s == "add_fit" then Some("commit_fit")
    else None
  }

  /** get_git_commit_data of a commit that git has just made. */
  ghost predicate NewRecord(c: Commits, m: map<string, string>, k: string, r: Commit) {
    && IsCommitted(r) && r.gerrit == None && r.clNumber == None && r.cqDepend == None && !r.needsReUpload
    && r.changeId.value !in m
    && forall l <- c :: l != k ==> c[l].changeId != r.changeId
  }

  /** What a step has done when it returns True (the contracts of VariantStatus). */
  ghost predicate StepOk(b: Board, s: string, c: Commits, m: map<string, string>, c': Commits,
                         m': map<string, string>) {
    if s == PUSH then Learnt(c, b.pushList, c') && m' == m && forall k <- b.pushList :: k in c' && HasCl(c'[k])
    else if s == UPLOAD then
      Learnt(c, b.uploadList, c') && m' == m && forall k <- b.uploadList :: k in c' && HasCl(c'[k])
    else if s == FIND then
      && m' == m
      && if Found(c) then c' == c
         else CB_VARIANT in c && c[CB_VARIANT].changeId.Some? && exists cl :: c' == c[FIND := FoundRecord(cl)]
    else if s == CALC_CQ_DEPEND then
      b.depends.Keys == Elements(b.dependKeys) && CanCalc(b, c) && Calculated(b, c, c') && m' == m
    else if s == ADD_CQ_DEPEND then
      && c'.Keys == c.Keys && Amended(c, m, m')
      && (forall k <- c :: c'[k] == c[k] || (c'[k] == c[k].(needsReUpload := true) && c[k].cqDepend.Some?))
      && forall k <- c | c[k].cqDepend.Some? :: c[k].changeId.Some? && c[k].changeId.value in m' && c'[k].needsReUpload
    else if s == RE_UPLOAD then
      && c'.Keys == c.Keys && m' == m
      && forall k <- c ::
          c'[k] == c[k].(needsReUpload := false) && (c[k].needsReUpload ==> c[k].branchName.Some? && c[k].dir.Some?)
    else if CreatedBy(s).Some? then
      var k := CreatedBy(s).value;
      m' == m && k in c' && NewRecord(c, m, k, c'[k]) && c' == c[k := c'[k]]
    else if s == ABORT then
      c' == c && m' == m && forall k <- c :: c[k].branchName.Some? && c[k].dir.Some?
    else c' == c && m' == m
  }

  /** What a step may have done to the file and to the messages when it fails or is killed: only the
      lookups save on the way, and only amending touches messages. */
  ghost predicate StepPartial(b: Board, s: string, c: Commits, m: map<string, string>, c': Commits,
                              m': map<string, string>) {
    && (if s == PUSH then Learnt(c, b.pushList, c') else if s == UPLOAD then Learnt(c, b.uploadList, c') else c' == c)
    && (if s == ADD_CQ_DEPEND then Amended(c, m, m') else m' == m)
  }

  /** The change ids of the commits that re_upload uploads. */
  ghost function FlaggedIds(c: Commits): set<string> {
    set k | k in c && c[k].needsReUpload && c[k].changeId.Some? :: c[k].changeId.value
  }

  /** The uploads that still count when the messages have changed from m to m'. */
  ghost function StillSent(sent: set<string>, m: map<string, string>, m': map<string, string>): set<string> {
    set id | id in sent && (id in m <==> id in m') && (id in m && id in m' ==> m'[id] == m[id])
  }

  ghost predicate Allowed(b: Board, s: State, e: Event) {
    match e
    case Begin => !s.begun && s.proc == None && b.stepList != []
    case Continue => s.proc == None && s.file.Some?
    case AbortFlag => s.proc == None && s.file.Some?
    case Save => s.proc.Some? && s.proc.value.phase == Top && s.proc.value.step.Some?
    case Succeed(c, m) =>
      && s.proc.Some? && s.proc.value.phase == Running && s.proc.value.step.Some? && s.log != []
      && StepOk(b, s.proc.value.step.value, s.proc.value.commits, s.messages, c, m)
    case Stop(c, m, gone) =>
      && s.proc.Some? && s.proc.value.phase == Running && s.proc.value.step.Some?
      && StepPartial(b, s.proc.value.step.value, s.proc.value.commits, s.messages, c, m)
      && (gone ==> s.proc.value.step.value == CLEAN_UP)
    case Advance => s.proc.Some? && s.proc.value.phase == Performed && s.proc.value.step.Some?
    case Kill => s.proc.Some? && s.proc.value.phase != Running
  }

  ghost function Apply(b: Board, s: State, e: Event): State
    requires Allowed(b, s, e)
  {
    match e
    case Begin =>
      var first := Some(b.stepList[0]);
      s.(begun := true, file := Some(Saved(first, map[])), proc := Some(Process(first, map[], Top, true)))
    case Continue =>
      s.(proc := Some(Process(s.file.value.step, s.file.value.commits, Top, true)))
    case AbortFlag =>
      s.(proc := Some(Process(Some(ABORT), s.file.value.commits, Top, true)))
    case Save =>
      var q := s.proc.value;
      s.(file := Some(Saved(q.step, q.commits)), proc := Some(q.(phase := Running, first := false)),
         log := s.log + [Attempt(q.step.value, false, q.first)])
    case Succeed(c, m) =>
      var q := s.proc.value;
      s.(file := if q.step.value == CLEAN_UP then None
                 else if q.step.value in [PUSH, UPLOAD] then Some(Saved(q.step, c))
                 else s.file,
         proc := Some(q.(commits := c, phase := Performed)), messages := m,
         sent := StillSent(s.sent, s.messages, m) + if q.step.value == RE_UPLOAD then FlaggedIds(q.commits) else {},
         log := s.log[..|s.log| - 1] + [s.log[|s.log| - 1].(ok := true)])
    case Stop(c, m, gone) =>
      s.(file := if gone then None else Some(Saved(s.proc.value.step, c)), proc := None, messages := m,
         sent := StillSent(s.sent, s.messages, m))
    case Advance =>
      var q := s.proc.value;
      if q.step.value != ABORT && q.step.value !in b.stepList then s.(proc := None)
      else s.(proc := Some(q.(step := NextStep(b, q.step.value), phase := Top)))
    case Kill => s.(proc := None)
  }

  ghost function Run(b: Board, s: State, es: seq<Event>): Option<State>
    decreases |es|
  {
    if es == [] then Some(s)
    else if Allowed(b, s, es[0]) then Run(b, Apply(b, s, es[0]), es[1..])
    else None
  }

  const INITIAL := State(false, None, None, map[], {}, [])

  /** The list of steps is a list of different steps that ends with clean_up. */
  ghost predicate IsBoard(b: Board) {
    && Distinct(b.stepList) && b.stepList != [] && b.stepList[|b.stepList| - 1] == CLEAN_UP
    && ABORT !in b.stepList
    && b.depends.Keys == Elements(b.dependKeys)
  }

  lemma {:induction false} IndexInside(steps: seq<string>, s: string)
    ensures s in steps ==> 0 <= IndexOf(steps, s) < |steps| && steps[IndexOf(steps, s)] == s
    ensures s !in steps ==> IndexOf(steps, s) == |steps|
  {
    if steps != [] && steps[0] != s {
      IndexInside(steps[1..], s);
      assert s in steps <==> s in steps[1..];
    }
  }

  lemma IndexAt(steps: seq<string>, i: nat)
    requires Distinct(steps) && i < |steps|
    ensures IndexOf(steps, steps[i]) == i
  {
    IndexInside(steps, steps[i]);
  }

  lemma NextAfter(b: Board, i: nat)
    requires IsBoard(b) && i < |b.stepList|
    ensures NextStep(b, b.stepList[i]) == if i + 1 < |b.stepList| then Some(b.stepList[i + 1]) else None
    ensures NextStep(b, CLEAN_UP) == None
  {
    IndexAt(b.stepList, i);
    IndexAt(b.stepList, |b.stepList| - 1);
    assert b.stepList[i] in b.stepList;
  }

  // ---------- the order of the steps ----------

  /** How one attempt may follow another. */
  ghost predicate Follows(b: Board, a: Attempt, d: Attempt) {
    && (d.first || a.ok)
    && (d.step == a.step ==> d.first)
    && (d.step == a.step || d.step == ABORT || (a.ok && NextStep(b, a.step) == Some(d.step)))
    && (d.step == ABORT ==> d.first)
  }

  ghost predicate LogInv(b: Board, log: seq<Attempt>) {
    && b.stepList != []
    && (log != [] ==> log[0].first && (log[0].step == b.stepList[0] || log[0].step == ABORT))
    && (forall i :: 0 < i < |log| ==> Follows(b, log[i - 1], log[i]))
    && (forall i :: 0 <= i < |log| ==> log[i].step == ABORT || log[i].step in b.stepList)
  }

  /** The step that a continued process will perform. */
  ghost predicate Eligible(b: Board, log: seq<Attempt>, s: string)
    requires b.stepList != []
  {
    if log == [] then s == b.stepList[0]
    else
      var last := log[|log| - 1];
      s == last.step || (last.ok && NextStep(b, last.step) == Some(s))
  }

  ghost predicate DriverInv(b: Board, s: State) {
    && IsBoard(b) && LogInv(b, s.log)
    && (!s.begun ==> s.file == None && s.proc == None && s.log == [])
    && (s.file.Some? ==> s.file.value.step.Some? && Eligible(b, s.log, s.file.value.step.value))
    && (s.begun && s.file == None ==> s.log != [] && s.log[|s.log| - 1].step == CLEAN_UP)
    && (s.log != [] && s.log[|s.log| - 1].step == CLEAN_UP && s.log[|s.log| - 1].ok ==> s.file == None)
    && (s.proc.Some? ==>
          var q := s.proc.value;
          match q.phase
          case Top =>
            if q.first then s.file.Some? && q.step.Some? && (Eligible(b, s.log, q.step.value) || q.step.value == ABORT)
            else s.log != [] && s.log[|s.log| - 1].ok && q.step == NextStep(b, s.log[|s.log| - 1].step)
          case Running =>
            && s.log != [] && !s.log[|s.log| - 1].ok && q.step == Some(s.log[|s.log| - 1].step) && !q.first
            && s.file == Some(Saved(q.step, q.commits))
          case Performed =>
            s.log != [] && s.log[|s.log| - 1].ok && q.step == Some(s.log[|s.log| - 1].step) && !q.first)
  }

  lemma NextInList(b: Board, s: string)
    requires IsBoard(b) && NextStep(b, s).Some?
    ensures NextStep(b, s).value in b.stepList && NextStep(b, s).value != s
    ensures NextStep(b, s).value != ABORT
  {
    IndexInside(b.stepList, s);
    var i := IndexOf(b.stepList, s);
    if s != ABORT && s in b.stepList {
      assert b.stepList[i + 1] != b.stepList[i];
    }
  }

  lemma DriverStep(b: Board, s: State, e: Event)
    requires DriverInv(b, s) && Allowed(b, s, e)
    ensures DriverInv(b, Apply(b, s, e))
  {
    hide StepOk, StepPartial;
    var s' := Apply(b, s, e);
    match e
    case Save =>
      var q := s.proc.value;
      var d := Attempt(q.step.value, false, q.first);
      SaveKeepsLog(b, s, d);
    case Succeed(c, m) =>
      SucceedKeepsLog(b, s.log);
    case Stop(c, m, gone) =>
    case Advance =>
      NextAfter(b, 0);
    case Begin =>
    case Continue =>
    case AbortFlag =>
    case Kill =>
  }

  lemma SaveKeepsLog(b: Board, s: State, d: Attempt)
    requires DriverInv(b, s) && Allowed(b, s, Save)
    requires d == Attempt(s.proc.value.step.value, false, s.proc.value.first)
    ensures LogInv(b, s.log + [d]) && (d.step == CLEAN_UP ==> s.file.Some? || !d.ok)
  {
    var log := s.log + [d];
    if s.log == [] {
      assert b.stepList[0] in b.stepList;
    } else {
      var last := s.log[|s.log| - 1];
      if NextStep(b, last.step).Some? {
        NextInList(b, last.step);
      }
      assert Follows(b, last, d);
    }
  }

  lemma SucceedKeepsLog(b: Board, log: seq<Attempt>)
    requires LogInv(b, log) && log != []
    ensures LogInv(b, log[..|log| - 1] + [log[|log| - 1].(ok := true)])
  {
    var n := |log| - 1;
    var log' := log[..n] + [log[n].(ok := true)];
    forall i | 0 < i < |log'| ensures Follows(b, log'[i - 1], log'[i]) {
      assert Follows(b, log[i - 1], log[i]);
    }
  }

  lemma {:induction false} DriverRun(b: Board, s: State, es: seq<Event>)
    requires DriverInv(b, s) && Run(b, s, es).Some?
    ensures DriverInv(b, Run(b, s, es).value)
    decreases |es|
  {
    if es != [] {
      DriverStep(b, s, es[0]);
      DriverRun(b, Apply(b, s, es[0]), es[1..]);
    }
  }

  /** Over every run: the status file exists from the beginning until clean_up, and not after a
      clean_up that succeeded; and attempts follow one another as they should. */
  lemma EveryRunKeepsOrder(b: Board, es: seq<Event>)
    requires IsBoard(b) && Run(b, INITIAL, es).Some?
    ensures var s := Run(b, INITIAL, es).value;
            && LogInv(b, s.log)
            && (s.begun && s.file == None ==> s.log != [] && s.log[|s.log| - 1].step == CLEAN_UP)
            && (s.log != [] && s.log[|s.log| - 1] == Attempt(CLEAN_UP, true, s.log[|s.log| - 1].first) ==>
                s.file == None)
            && (s.file.Some? ==> s.begun)
  {
    DriverRun(b, INITIAL, es);
  }

  /** Until the first abort, the steps of the list are performed in order: none is skipped, one
      moves on only after a success, and a step is repeated only by a new process. */
  lemma {:induction false} StepsInOrder(b: Board, log: seq<Attempt>, i: nat)
    requires IsBoard(b) && LogInv(b, log) && i < |log|
    requires forall j :: 0 <= j <= i ==> log[j].step != ABORT
    ensures var k := IndexOf(b.stepList, log[i].step);
            && 0 <= k < |b.stepList| && b.stepList[k] == log[i].step && k <= i
            && (forall l :: 0 <= l <= k ==> exists j :: 0 <= j <= i && log[j].step == b.stepList[l])
            && (i > 0 ==> (k == IndexOf(b.stepList, log[i - 1].step) && log[i].first)
                          || (k == IndexOf(b.stepList, log[i - 1].step) + 1 && log[i - 1].ok))
  {
    IndexInside(b.stepList, log[i].step);
    if i == 0 {
      IndexAt(b.stepList, 0);
    } else {
      StepsInOrder(b, log, i - 1);
      assert Follows(b, log[i - 1], log[i]);
      var k := IndexOf(b.stepList, log[i - 1].step);
      if log[i].step != log[i - 1].step {
        NextAfter(b, k);
        IndexAt(b.stepList, k + 1);
      }
      forall l | 0 <= l <= IndexOf(b.stepList, log[i].step)
        ensures exists j :: 0 <= j <= i && log[j].step == b.stepList[l] {
        if l <= k {
          var j :| 0 <= j <= i - 1 && log[j].step == b.stepList[l];
        } else {
          assert log[i].step == b.stepList[l];
        }
      }
    }
  }

  /** Once an abort was begun, only abort and clean_up are ever performed. */
  lemma {:induction false} OnlyCleanUpAfterAbort(b: Board, log: seq<Attempt>, i: nat, j: nat)
    requires IsBoard(b) && LogInv(b, log) && i <= j < |log| && log[i].step == ABORT
    ensures log[j].step == ABORT || log[j].step == CLEAN_UP
    decreases j
  {
    if i < j {
      OnlyCleanUpAfterAbort(b, log, i, j - 1);
      assert Follows(b, log[j - 1], log[j]);
      NextAfter(b, 0);
    }
  }
}
