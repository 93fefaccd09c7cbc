/** Every fair run of willis's worker pool ends.  The reporter's loop may go round any number of
    times, and may win the mutex any number of times; an actor that could step again and again does
    step at some time (contrib/willis.go). */
module WorkerPoolFairness {
  import opened Prelude
  import opened WorkerPool

  /** An infinite run: the state at each time, and whose turn it is.  Who cannot step does not. */
  datatype Infinite = Infinite(state: nat -> State, turn: nat -> Actor)

  ghost predicate StepAt(job: Job, r: Infinite, n: nat) {
    r.state(n + 1) ==
    if CanStep(job, r.state(n), r.turn(n)) then Next(job, r.state(n), r.turn(n)) else r.state(n)
  }

  ghost predicate IsRun(job: Job, r: Infinite) {
    Init(job, r.state(0)) && forall n: nat :: StepAt(job, r, n)
  }

  ghost predicate Acts(job: Job, r: Infinite, a: Actor, n: nat) {
    r.turn(n) == a && CanStep(job, r.state(n), a)
  }

  /** At some time from n on, a can step. */
  ghost predicate CanLater(job: Job, r: Infinite, a: Actor, n: nat) {
    exists m :: m >= n && CanStep(job, r.state(m), a)
  }

  ghost predicate ActsLater(job: Job, r: Infinite, a: Actor, n: nat) {
    exists m :: m >= n && Acts(job, r, a, m)
  }

  /** Who can step again and again does step. */
  ghost predicate Fair(job: Job, r: Infinite) {
    forall a, n: nat :: (forall k: nat :: k >= n ==> CanLater(job, r, a, k)) ==> ActsLater(job, r, a, n)
  }

  ghost predicate FairRun(job: Job, r: Infinite) {
    IsJob(job) && IsRun(job, r) && Fair(job, r)
  }

  lemma {:induction false} AlwaysInv(job: Job, r: Infinite, n: nat)
    requires IsJob(job) && IsRun(job, r)
    ensures Inv(job, r.state(n))
  {
    if n == 0 {
      InitInv(job, r.state(0));
    } else {
      hide Inv, Next, CanStep;
      AlwaysInv(job, r, n - 1);
      assert StepAt(job, r, n - 1);
      if CanStep(job, r.state(n - 1), r.turn(n - 1)) {
        StepKeepsInv(job, r.state(n - 1), r.turn(n - 1));
      }
    }
  }

  // ---------- a run that gets no nearer to the end ----------

  predicate Looping(pc: ReporterPc) {
    pc.LockR? || pc.Report? || pc.Select? || pc.UnlockLoop? || pc.Sleep?
  }

  /** The steps that may be taken without an end: the reporter's loop while main does not ask it to
      stop. */
  predicate Idles(s: State, a: Actor) {
    a == Reporter && Looping(s.reporter) && !(s.reporter == Select && s.main == Blocked)
  }

  lemma IdleOrCloser(job: Job, s: State, a: Actor)
    requires Inv(job, s) && CanStep(job, s, a)
    ensures if Idles(s, a) then Rest(job, Next(job, s, a)) == Rest(job, s)
            else Rest(job, Next(job, s, a)) < Rest(job, s)
  {
    hide Inv, WorkersRest, MainRest;
    if !Idles(s, a) {
      StepMakesProgress(job, s, a);
    }
  }

  /** From time n on nothing but the reporter's loop makes steps. */
  ghost predicate Stalls(job: Job, r: Infinite, n: nat) {
    forall m: nat :: m >= n && CanStep(job, r.state(m), r.turn(m)) ==> Idles(r.state(m), r.turn(m))
  }

  /** What the reporter's loop leaves alone. */
  ghost predicate SameOthers(s: State, s': State) {
    && s'.workers == s.workers && s'.main == s.main && s'.tokens == s.tokens && s'.wg == s.wg
    && s'.closed == s.closed
    && (if Looping(s.reporter) then Looping(s'.reporter) else s'.reporter == s.reporter)
  }

  lemma {:induction false} Stalled(job: Job, r: Infinite, n: nat, m: nat)
    requires IsRun(job, r) && Stalls(job, r, n) && n <= m
    ensures SameOthers(r.state(n), r.state(m))
  {
    if n < m {
      Stalled(job, r, n, m - 1);
      assert StepAt(job, r, m - 1);
      hide Stalls;
      if CanStep(job, r.state(m - 1), r.turn(m - 1)) {
        assert Idles(r.state(m - 1), r.turn(m - 1)) by { IdleAt(job, r, n, m - 1); }
      }
    }
  }

  lemma IdleAt(job: Job, r: Infinite, n: nat, m: nat)
    requires Stalls(job, r, n) && n <= m && CanStep(job, r.state(m), r.turn(m))
    ensures Idles(r.state(m), r.turn(m))
  {
  }

  // ---------- the reporter gives the mutex back ----------

  ghost predicate WorkerHolds(s: State) {
    s.holder.Some? && s.holder.value.Worker?
  }

  lemma ReporterCan(job: Job, s: State, s': State)
    requires Inv(job, s) && Inv(job, s') && SameOthers(s, s') && Looping(s.reporter) && !WorkerHolds(s)
    ensures CanStep(job, s', Reporter) && !WorkerHolds(s') && Looping(s'.reporter)
  {
    hide CountInv, ResultsInv, MainInv;
    SameWorkerHolds(s, s');
  }

  /** A worker that holds the mutex is seen in its section. */
  lemma SameWorkerHolds(s: State, s': State)
    requires MutexInv(s) && MutexInv(s') && s'.workers == s.workers
    ensures WorkerHolds(s) ==> s'.holder == s.holder
    ensures WorkerHolds(s') ==> s'.holder == s.holder
  {
    if WorkerHolds(s) {
      assert InSection(s.workers[s.holder.value.i]);
    }
    if WorkerHolds(s') {
      assert InSection(s.workers[s'.holder.value.i]);
    }
  }

  /** The reporter's next step, while the run stalls. */
  lemma ReporterSteps(job: Job, r: Infinite, n: nat) returns (m: nat)
    requires FairRun(job, r) && Stalls(job, r, n) && Looping(r.state(n).reporter) && !WorkerHolds(r.state(n))
    ensures m >= n && r.state(m).reporter == r.state(n).reporter
    ensures CanStep(job, r.state(m), Reporter) && r.state(m + 1) == ReporterNext(r.state(m))
    ensures !WorkerHolds(r.state(m))
  {
    forall k: nat | k >= n ensures CanLater(job, r, Reporter, k) {
      ReporterCanAt(job, r, n, k);
      LaterFromNow(job, r, Reporter, k);
    }
    assert ActsLater(job, r, Reporter, n);
    var later :| later >= n && Acts(job, r, Reporter, later);
    m := FirstTurn(job, r, n, later);
    ReporterCanAt(job, r, n, m);
    assert StepAt(job, r, m);
  }

  lemma ReporterCanAt(job: Job, r: Infinite, n: nat, k: nat)
    requires FairRun(job, r) && Stalls(job, r, n) && n <= k
    requires Looping(r.state(n).reporter) && !WorkerHolds(r.state(n))
    ensures CanStep(job, r.state(k), Reporter) && !WorkerHolds(r.state(k))
  {
    AlwaysInv(job, r, n);
    AlwaysInv(job, r, k);
    Stalled(job, r, n, k);
    hide *;
    ReporterCan(job, r.state(n), r.state(k));
  }

  lemma LaterFromNow(job: Job, r: Infinite, a: Actor, n: nat)
    requires CanStep(job, r.state(n), a)
    ensures CanLater(job, r, a, n)
  {
  }

  lemma {:induction false} FirstTurn(job: Job, r: Infinite, n: nat, later: nat) returns (m: nat)
    requires IsRun(job, r) && Stalls(job, r, n) && n <= later && Acts(job, r, Reporter, later)
    ensures m >= n && r.state(m).reporter == r.state(n).reporter && Acts(job, r, Reporter, m)
    decreases later - n
  {
    if Acts(job, r, Reporter, n) {
      m := n;
    } else {
      assert StepAt(job, r, n);
      if CanStep(job, r.state(n), r.turn(n)) {
        IdleAt(job, r, n, n);
      }
      m := FirstTurn(job, r, n + 1, later);
    }
  }

  function ToSelect(pc: ReporterPc): nat {
    match pc
    case UnlockLoop => 4 case Sleep => 3 case LockR => 2 case Report => 1 case _ => 0
  }

  lemma {:induction false} ReachSelect(job: Job, r: Infinite, n: nat) returns (m: nat)
    requires FairRun(job, r) && Stalls(job, r, n) && Looping(r.state(n).reporter) && !WorkerHolds(r.state(n))
    ensures m >= n && r.state(m).reporter == Select && !WorkerHolds(r.state(m))
    decreases ToSelect(r.state(n).reporter)
  {
    hide FairRun;
    if r.state(n).reporter == Select {
      m := n;
    } else {
      var k := ReporterSteps(job, r, n);
      m := ReachSelect(job, r, k + 1);
    }
  }

  /** While the run stalls, main is not waiting for the reporter, and the mutex gets free. */
  lemma MutexGetsFree(job: Job, r: Infinite, n: nat) returns (m: nat)
    requires FairRun(job, r) && Stalls(job, r, n) && Looping(r.state(n).reporter) && !WorkerHolds(r.state(n))
    ensures m >= n && r.state(m).reporter == Sleep && r.state(m).holder == None && r.state(m).main != Blocked
    ensures SameOthers(r.state(n), r.state(m))
  {
    hide FairRun;
    var i := ReachSelect(job, r, n);
    var j := ReporterSteps(job, r, i);
    SelectNotBlocked(job, r, n, j);
    var k := ReporterSteps(job, r, j + 1);
    m := k + 1;
    SameLater(job, r, n, j + 1, m);
  }

  lemma SelectNotBlocked(job: Job, r: Infinite, n: nat, j: nat)
    requires Stalls(job, r, n) && n <= j && r.state(j).reporter == Select
    requires r.state(j + 1) == ReporterNext(r.state(j)) && FairRun(job, r) && CanStep(job, r.state(j), Reporter)
    ensures r.state(j + 1).reporter == UnlockLoop && r.state(j + 1).main != Blocked && !WorkerHolds(r.state(j + 1))
  {
    AlwaysInv(job, r, j);
    assert StepAt(job, r, j);
    hide Inv, Stalls, Next, CanStep, Init;
    if CanStep(job, r.state(j), r.turn(j)) {
      IdleAt(job, r, n, j);
    }
    ReporterHolds(job, r.state(j));
  }

  lemma ReporterHolds(job: Job, s: State)
    requires Inv(job, s) && s.reporter == Select
    ensures s.holder == Some(Reporter)
  {
  }

  lemma SameLater(job: Job, r: Infinite, n: nat, j: nat, m: nat)
    requires FairRun(job, r) && Stalls(job, r, n) && n <= j <= m
    ensures SameOthers(r.state(n), r.state(m)) && r.state(m).main == r.state(j).main
  {
    Stalled(job, r, n, j);
    Stalled(job, r, n, m);
  }

  // ---------- a fair run does not stall ----------

  /** An actor other than the looping reporter cannot be able to step again and again. */
  lemma NoneRecurs(job: Job, r: Infinite, n: nat, a: Actor)
    requires FairRun(job, r) && Stalls(job, r, n)
    requires a != Reporter || !Looping(r.state(n).reporter)
    ensures exists k: nat :: k >= n && !CanLater(job, r, a, k)
  {
    if forall k: nat :: k >= n ==> CanLater(job, r, a, k) {
      assert ActsLater(job, r, a, n);
      var m :| m >= n && Acts(job, r, a, m);
      Stalled(job, r, n, m);
      IdleAt(job, r, n, m);
    }
  }

  lemma SameCan(job: Job, s: State, s': State, a: Actor)
    requires Inv(job, s) && Inv(job, s') && SameOthers(s, s') && CanStep(job, s, a)
    requires (s'.holder == s.holder && s'.reporter == s.reporter) || (a != Reporter && s'.holder == None)
             || (a != Reporter && WorkerHolds(s) && s.holder == Some(a))
    ensures CanStep(job, s', a)
  {
    hide CountInv, ResultsInv, MainInv;
    SameWorkerHolds(s, s');
  }

  lemma SameHolder(job: Job, s: State, s': State)
    requires Inv(job, s) && Inv(job, s') && SameOthers(s, s') && !Looping(s.reporter)
    ensures s'.holder == s.holder
  {
    hide CountInv, ResultsInv, MainInv;
    SameWorkerHolds(s, s');
  }

  lemma WorkerHasStep(job: Job, s: State)
    requires Inv(job, s) && WorkerHolds(s)
    ensures CanStep(job, s, s.holder.value)
  {
    hide CountInv, ResultsInv;
  }

  lemma StallsWithReporterStill(job: Job, r: Infinite, n: nat)
    requires FairRun(job, r) && Stalls(job, r, n)
    ensures Looping(r.state(n).reporter) || r.state(n).main == Over
  {
    AlwaysInv(job, r, n);
    hide Inv, Next, CanStep, Stalls, Init, Rest, Distance;
    if !Looping(r.state(n).reporter) && r.state(n).main != Over {
      var a := SomeStepHelps(job, r.state(n));
      forall k: nat | k >= n ensures CanLater(job, r, a, k) {
        Stalled(job, r, n, k);
        AlwaysInv(job, r, k);
        SameHolder(job, r.state(n), r.state(k));
        SameCan(job, r.state(n), r.state(k), a);
        LaterFromNow(job, r, a, k);
      }
      NoneRecurs(job, r, n, a);
    }
  }

  lemma StallsWithWorkerInside(job: Job, r: Infinite, n: nat)
    requires FairRun(job, r) && Stalls(job, r, n)
    ensures !WorkerHolds(r.state(n))
  {
    AlwaysInv(job, r, n);
    hide Inv, Next, CanStep, Stalls, Init;
    if WorkerHolds(r.state(n)) {
      var a := r.state(n).holder.value;
      WorkerHasStep(job, r.state(n));
      forall k: nat | k >= n ensures CanLater(job, r, a, k) {
        Stalled(job, r, n, k);
        AlwaysInv(job, r, k);
        SameCan(job, r.state(n), r.state(k), a);
        LaterFromNow(job, r, a, k);
      }
      NoneRecurs(job, r, n, a);
    }
  }

  /** With the mutex free and main not waiting for the reporter, someone else can help. */
  lemma SomeoneElseHelps(job: Job, s: State) returns (a: Actor)
    requires Inv(job, s) && s.reporter == Sleep && s.holder == None && s.main !in {Blocked, Over}
    ensures CanStep(job, s, a) && a != Reporter
  {
    a := SomeStepHelps(job, s);
    hide Inv, WorkersRest, MainRest;
  }

  lemma StallsWithReporterLooping(job: Job, r: Infinite, n: nat)
    requires FairRun(job, r) && Stalls(job, r, n)
    requires Looping(r.state(n).reporter) && !WorkerHolds(r.state(n))
    ensures r.state(n).main == Over
  {
    if r.state(n).main != Over {
      var m := MutexGetsFree(job, r, n);
      AlwaysInv(job, r, m);
      hide FairRun, Inv, Stalls, CanStep;
      var a := SomeoneElseHelps(job, r.state(m));
      StallsOn(job, r, n, m);
      forall k: nat | k >= m ensures CanLater(job, r, a, k) {
        FreeAgain(job, r, m, k, a);
      }
      NoneRecurs(job, r, m, a);
    }
  }

  lemma StallsOn(job: Job, r: Infinite, n: nat, m: nat)
    requires Stalls(job, r, n) && n <= m
    ensures Stalls(job, r, m)
  {
  }

  lemma FreeAgain(job: Job, r: Infinite, m: nat, k: nat, a: Actor)
    requires FairRun(job, r) && Stalls(job, r, m) && m <= k
    requires Looping(r.state(m).reporter) && !WorkerHolds(r.state(m)) && CanStep(job, r.state(m), a) && a != Reporter
    ensures CanLater(job, r, a, k)
  {
    AlwaysInv(job, r, m);
    StallsOn(job, r, m, k);
    Stalled(job, r, m, k);
    ReporterCanAt(job, r, m, k);
    var l := MutexGetsFree(job, r, k);
    AlwaysInv(job, r, l);
    Stalled(job, r, m, l);
    hide Inv, FairRun, Stalls, CanStep;
    SameCan(job, r.state(m), r.state(l), a);
  }

  lemma NeverStalls(job: Job, r: Infinite, n: nat)
    requires FairRun(job, r) && Stalls(job, r, n)
    ensures r.state(n).main == Over
  {
    hide *;
    StallsWithWorkerInside(job, r, n);
    StallsWithReporterStill(job, r, n);
    if Looping(r.state(n).reporter) {
      StallsWithReporterLooping(job, r, n);
    }
  }

  // ---------- the end ----------

  lemma {:induction false} RestFalls(job: Job, r: Infinite, n: nat, m: nat)
    requires IsJob(job) && IsRun(job, r) && n <= m
    ensures Rest(job, r.state(m)) <= Rest(job, r.state(n))
  {
    if n < m {
      RestFalls(job, r, n, m - 1);
      AlwaysInv(job, r, m - 1);
      assert StepAt(job, r, m - 1);
      hide Inv, Next, CanStep, Init, Rest;
      if CanStep(job, r.state(m - 1), r.turn(m - 1)) {
        IdleOrCloser(job, r.state(m - 1), r.turn(m - 1));
      }
    }
  }

  /** Every fair run comes to the end of main, for any number of repositories and cores, however often
      the reporter goes round. */
  lemma {:induction false} EveryFairRunEnds(job: Job, r: Infinite, n: nat) returns (end: nat)
    requires FairRun(job, r)
    ensures end >= n && r.state(end).main == Over
    decreases Rest(job, r.state(n))
  {
    hide Inv, Next, CanStep, Init, Rest;
    if Stalls(job, r, n) {
      NeverStalls(job, r, n);
      end := n;
    } else {
      var m: nat :| m >= n && CanStep(job, r.state(m), r.turn(m)) && !Idles(r.state(m), r.turn(m));
      RestFalls(job, r, n, m);
      AlwaysInv(job, r, m);
      IdleOrCloser(job, r.state(m), r.turn(m));
      assert StepAt(job, r, m);
      end := EveryFairRunEnds(job, r, m + 1);
    }
  }

  // ---------- there are fair runs ----------

  lemma {:induction false} RunSplit(job: Job, s: State, schedule: seq<Actor>, n: nat)
    requires Run(job, s, schedule).Some? && n < |schedule|
    ensures Run(job, s, schedule[..n]).Some? && Run(job, s, schedule[..n + 1]).Some?
    ensures var before := Run(job, s, schedule[..n]).value;
            CanStep(job, before, schedule[n]) && Run(job, s, schedule[..n + 1]).value == Next(job, before, schedule[n])
    decreases n
  {
    hide CanStep, Next;
    if n == 0 {
      assert schedule[..1][1..] == [];
    } else {
      assert schedule[..n][1..] == schedule[1..][..n - 1] && schedule[..n + 1][1..] == schedule[1..][..n];
      RunSplit(job, Next(job, s, schedule[0]), schedule[1..], n - 1);
    }
  }

  lemma {:induction false} RunThen(job: Job, s: State, schedule: seq<Actor>, a: Actor)
    requires Run(job, s, schedule).Some? && CanStep(job, Run(job, s, schedule).value, a)
    ensures Run(job, s, schedule + [a]) == Some(Next(job, Run(job, s, schedule).value, a))
    decreases |schedule|
  {
    hide CanStep, Next;
    if schedule == [] {
      assert ([] + [a])[1..] == [];
    } else {
      assert (schedule + [a])[1..] == schedule[1..] + [a];
      RunThen(job, Next(job, s, schedule[0]), schedule[1..], a);
    }
  }

  /** Nobody can take a step any more. */
  ghost predicate Quiet(job: Job, s: State) {
    forall a :: !CanStep(job, s, a)
  }

  lemma OverIsQuiet(job: Job, s: State)
    requires Inv(job, s) && s.main == Over && s.reporter != UnlockLast
    ensures Quiet(job, s)
  {
    hide CountInv, ResultsInv, MutexInv;
  }

  lemma QuietRun(job: Job, s: State) returns (schedule: seq<Actor>)
    requires Inv(job, s)
    ensures Run(job, s, schedule).Some? && Quiet(job, Run(job, s, schedule).value)
  {
    schedule := EveryStateCanFinish(job, s);
    RunKeepsInv(job, s, schedule);
    var end := Run(job, s, schedule).value;
    hide Inv, Run;
    if end.reporter == UnlockLast {
      RunThen(job, s, schedule, Reporter);
      StepKeepsInv(job, end, Reporter);
      OverIsQuiet(job, Next(job, end, Reporter));
      schedule := schedule + [Reporter];
    } else {
      OverIsQuiet(job, end);
    }
  }

  /** The run that follows a schedule and then rests. */
  ghost function Following(job: Job, s: State, schedule: seq<Actor>): Infinite
    requires Run(job, s, schedule).Some?
  {
    Infinite((n: nat) => StateAt(job, s, schedule, n), (n: nat) => if n < |schedule| then schedule[n] else Main)
  }

  ghost function StateAt(job: Job, s: State, schedule: seq<Actor>, n: nat): State {
    var r := Run(job, s, if n <= |schedule| then schedule[..n] else schedule);
    if r.Some? then r.value else s
  }

  /** Every job has a fair run, so EveryFairRunEnds is about something. */
  lemma FairRunExists(job: Job, s: State) returns (r: Infinite)
    requires IsJob(job) && Init(job, s)
    ensures FairRun(job, r) && r.state(0) == s
  {
    InitInv(job, s);
    var schedule := QuietRun(job, s);
    hide Inv, Init, CanStep, Next;
    r := Following(job, s, schedule);
    assert schedule[..|schedule|] == schedule;
    forall n: nat ensures StepAt(job, r, n) {
      if n < |schedule| {
        RunSplit(job, s, schedule, n);
      }
    }
    forall a, n: nat ensures (forall k: nat :: k >= n ==> CanLater(job, r, a, k)) ==> ActsLater(job, r, a, n) {
      assert !CanLater(job, r, a, n + |schedule|);
    }
  }
}
