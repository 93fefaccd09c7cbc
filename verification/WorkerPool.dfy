/** The worker pool of willis: one goroutine per repository, throttled by a buffered channel, a
    mutex around the shared counters and results, a progress reporter, and the shutdown handshake
    with it (contrib/willis.go).  Every statement that touches something shared is a step. */
module WorkerPool {
  import opened Prelude

  // ---------- the program ----------

  datatype WorkerPc =
    | Unborn      // not started yet
    | Acquire     // ch <- true
    | Lock1       // countMtx.Lock()
    | IncStarted  // startedCounter++
    | IncRunning  // runningCounter++
    | Unlock1     // countMtx.Unlock()
    | Check       // checkGitTree
    | Lock2       // countMtx.Lock()
    | Store       // results[relpath] = report
    | DecRunning  // runningCounter--
    | Unlock2     // countMtx.Unlock()
    | Release     // <-ch
    | Done        // wg.Done()
    | Dead

  datatype MainPc =
    | Add(i: nat)   // wg.Add(1) for repository i
    | Go(i: nat)    // go func() { ... }()
    | GoReporter
    | Wait          // wg.Wait()
    | Send          // finishProgressReporting <- true, not blocked yet
    | Blocked       // blocked in the send
    | Receive       // <-progressReportingFinished
    | Over          // printResults

  datatype ReporterPc =
    | Idle        // not started yet
    | LockR       // countMtx.Lock()
    | Report      // reportProgress(startedCounter, runningCounter)
    | Select      // select
    | UnlockLoop  // default: countMtx.Unlock()
    | Sleep
    | Close       // close(progressReportingFinished)
    | UnlockLast  // countMtx.Unlock()
    | Returned

  datatype Actor = Main | Reporter | Worker(i: nat)

  /** The repositories: the results key and the report of each, and the number of cores. */
  datatype Job = Job(keys: seq<string>, reports: seq<string>, maxGoCount: nat)

  datatype State = State(
    workers: seq<WorkerPc>,
    main: MainPc,
    reporter: ReporterPc,
    holder: Option<Actor>,    // who holds countMtx
    tokens: nat,              // messages in ch
    wg: int,
    started: int,
    running: int,
    results: map<string, string>,
    closed: bool)

  ghost predicate IsJob(job: Job) {
    |job.keys| == |job.reports| && job.maxGoCount >= 1
  }

  ghost predicate Init(job: Job, s: State) {
    && s.workers == seq(|job.keys|, _ => Unborn)
    && s.main == (if |job.keys| == 0 then GoReporter else Add(0))
    && s.reporter == Idle && s.holder == None && s.tokens == 0
    && s.wg == 0 && s.started == 0 && s.running == 0 && s.results == map[] && !s.closed
  }

  // ---------- steps ----------

  predicate Enabled(job: Job, s: State, a: Actor) {
    match a
    case Main =>
      (match s.main
       case Wait => s.wg == 0
       case Blocked => false // the reporter's receive completes the send
       case Receive => s.closed
       case Over => false
       case _ => true)
    case Reporter =>
      (match s.reporter
       case Idle => false
       case LockR => s.holder == None
       case Returned => false
       case _ => true)
    case Worker(i) =>
      i < |s.workers| &&
      (match s.workers[i]
       case Unborn => false
       case Acquire => s.tokens < job.maxGoCount
       case Lock1 => s.holder == None
       case Lock2 => s.holder == None
       case Dead => false
       case _ => true)
  }

  function WorkerNext(job: Job, s: State, i: nat): State
    requires i < |s.workers| <= |job.keys| <= |job.reports| && s.workers[i] !in {Unborn, Dead}
    requires s.workers[i] == Release ==> s.tokens > 0
  {
    var go := (pc: WorkerPc) => s.workers[i := pc];
    match s.workers[i]
    case Acquire => s.(workers := go(Lock1), tokens := s.tokens + 1)
    case Lock1 => s.(workers := go(IncStarted), holder := Some(Worker(i)))
    case IncStarted => s.(workers := go(IncRunning), started := s.started + 1)
    case IncRunning => s.(workers := go(Unlock1), running := s.running + 1)
    case Unlock1 => s.(workers := go(Check), holder := None)
    case Check => s.(workers := go(Lock2))
    case Lock2 => s.(workers := go(Store), holder := Some(Worker(i)))
    case Store => s.(workers := go(DecRunning), results := s.results[job.keys[i] := job.reports[i]])
    case DecRunning => s.(workers := go(Unlock2), running := s.running - 1)
    case Unlock2 => s.(workers := go(Release), holder := None)
    case Release => s.(workers := go(Done), tokens := s.tokens - 1)
    case Done => s.(workers := go(Dead), wg := s.wg - 1)
  }

  function MainNext(job: Job, s: State): State
    requires s.main !in {Blocked, Over}
  {
    match s.main
    case Add(i) => s.(main := Go(i), wg := s.wg + 1)
    case Go(i) =>
      s.(main := if i + 1 < |job.keys| then Add(i + 1) else GoReporter,
         workers := if i < |s.workers| then s.workers[i := Acquire] else s.workers)
    case GoReporter => s.(main := Wait, reporter := LockR)
    case Wait => s.(main := Send)
    case Send => s.(main := Blocked)
    case Receive => s.(main := Over)
  }

  function ReporterNext(s: State): State
    requires s.reporter !in {Idle, Returned}
  {
    match s.reporter
    case LockR => s.(reporter := Report, holder := Some(Reporter))
    case Report => s.(reporter := Select)
    case Select =>
      if s.main == Blocked then s.(reporter := Close, main := Receive) else s.(reporter := UnlockLoop)
    case UnlockLoop => s.(reporter := Sleep, holder := None)
    case Sleep => s.(reporter := LockR)
    case Close => s.(reporter := UnlockLast, closed := true)
    case UnlockLast => s.(reporter := Returned, holder := None)
  }

  predicate CanStep(job: Job, s: State, a: Actor) {
    && Enabled(job, s, a)
    && (a.Worker? ==> |s.workers| <= |job.keys| <= |job.reports| && (s.workers[a.i] == Release ==> s.tokens > 0))
  }

  function Next(job: Job, s: State, a: Actor): State
    requires CanStep(job, s, a)
  {
    match a
    case Main => MainNext(job, s)
    case Reporter => ReporterNext(s)
    case Worker(i) => WorkerNext(job, s, i)
  }

  // ---------- counting workers ----------

  datatype Group =
    | HasToken   // holds a token of the throttle
    | HasStarted // has incremented startedCounter
    | IsRunning  // between its increment and its decrement of runningCounter
    | IsLive     // has not called wg.Done()

  predicate In(g: Group, pc: WorkerPc) {
    match g
    case HasToken => !pc.Unborn? && !pc.Acquire? && !pc.Done? && !pc.Dead?
    case HasStarted => !pc.Unborn? && !pc.Acquire? && !pc.Lock1? && !pc.IncStarted?
    case IsRunning => pc.Unlock1? || pc.Check? || pc.Lock2? || pc.Store? || pc.DecRunning?
    case IsLive => !pc.Unborn? && !pc.Dead?
  }

  ghost function Count(g: Group, ws: seq<WorkerPc>): nat {
    if ws == [] then 0 else Count(g, ws[..|ws| - 1]) + if In(g, ws[|ws| - 1]) then 1 else 0
  }

  lemma {:induction false} CountUpdate(g: Group, ws: seq<WorkerPc>, i: nat, pc: WorkerPc)
    requires i < |ws|
    ensures Count(g, ws[i := pc]) == Count(g, ws) - (if In(g, ws[i]) then 1 else 0) + if In(g, pc) then 1 else 0
  {
    var n := |ws| - 1;
    if i < n {
      assert ws[i := pc][..n] == ws[..n][i := pc];
      CountUpdate(g, ws[..n], i, pc);
    } else {
      assert ws[i := pc][..n] == ws[..n];
    }
  }

  lemma CountUpdates(ws: seq<WorkerPc>, i: nat, pc: WorkerPc)
    requires i < |ws|
    ensures forall g ::
              Count(g, ws[i := pc]) == Count(g, ws) - (if In(g, ws[i]) then 1 else 0) + if In(g, pc) then 1 else 0
  {
    forall g
      ensures Count(g, ws[i := pc]) == Count(g, ws) - (if In(g, ws[i]) then 1 else 0) + if In(g, pc) then 1 else 0
    {
      CountUpdate(g, ws, i, pc);
    }
  }

  lemma {:induction false} CountNone(g: Group, ws: seq<WorkerPc>)
    ensures Count(g, ws) == 0 <==> forall i :: 0 <= i < |ws| ==> !In(g, ws[i])
  {
    if ws != [] {
      CountNone(g, ws[..|ws| - 1]);
    }
  }

  /** Inside one of the two critical sections. */
  predicate InSection(pc: WorkerPc) {
    pc.IncStarted? || pc.IncRunning? || pc.Unlock1? || pc.Store? || pc.DecRunning? || pc.Unlock2?
  }

  predicate HasStored(pc: WorkerPc) {
    pc.DecRunning? || pc.Unlock2? || pc.Release? || pc.Done? || pc.Dead?
  }

  // ---------- the invariant ----------

  ghost predicate ReporterInSection(r: ReporterPc) {
    r.Report? || r.Select? || r.UnlockLoop? || r.Close? || r.UnlockLast?
  }

  ghost predicate MutexInv(s: State) {
    && (forall i :: 0 <= i < |s.workers| ==> (InSection(s.workers[i]) <==> s.holder == Some(Worker(i))))
    && (ReporterInSection(s.reporter) <==> s.holder == Some(Reporter))
    && s.holder != Some(Main)
    && (s.holder.Some? && s.holder.value.Worker? ==> s.holder.value.i < |s.workers|)
  }

  ghost predicate CountInv(job: Job, s: State) {
    && s.tokens == Count(HasToken, s.workers) && s.tokens <= job.maxGoCount
    && s.started == Count(HasStarted, s.workers)
    && s.running == Count(IsRunning, s.workers)
    && s.wg == Count(IsLive, s.workers) + if s.main.Go? then 1 else 0
  }

  /** How many workers main has started. */
  ghost function Born(job: Job, s: State): nat {
    match s.main
    case Add(i) => i
    case Go(i) => i
    case _ => |job.keys|
  }

  ghost predicate MainInv(job: Job, s: State) {
    && |s.workers| == |job.keys|
    && ((s.main.Add? || s.main.Go?) ==> s.main.i < |job.keys|)
    && (forall i :: 0 <= i < |s.workers| ==> (s.workers[i] == Unborn <==> i >= Born(job, s)))
    && (s.main in {Send, Blocked, Receive, Over} ==> forall i :: 0 <= i < |s.workers| ==> s.workers[i] == Dead)
    && (s.reporter == Idle <==> s.main.Add? || s.main.Go? || s.main.GoReporter?)
    && (s.reporter in {Close, UnlockLast, Returned} <==> s.main in {Receive, Over})
    && (s.closed <==> s.reporter in {UnlockLast, Returned})
    && (s.main == Over ==> s.closed)
  }

  /** Worker i has stored its report under its key. */
  ghost predicate Reported(job: Job, ws: seq<WorkerPc>, i: nat, key: string, report: string) {
    && i < |ws| && i < |job.keys| && i < |job.reports|
    && HasStored(ws[i]) && job.keys[i] == key && job.reports[i] == report
  }

  ghost predicate ResultsInv(job: Job, s: State) {
    && (forall i :: 0 <= i < |s.workers| && i < |job.keys| && HasStored(s.workers[i]) ==> job.keys[i] in s.results)
    && (forall k <- s.results :: exists i :: Reported(job, s.workers, i, k, s.results[k]))
  }

  ghost predicate Inv(job: Job, s: State) {
    IsJob(job) && MainInv(job, s) && MutexInv(s) && CountInv(job, s) && ResultsInv(job, s)
  }

  lemma InitInv(job: Job, s: State)
    requires IsJob(job) && Init(job, s)
    ensures Inv(job, s)
  {
    CountNone(HasToken, s.workers);
    CountNone(HasStarted, s.workers);
    CountNone(IsRunning, s.workers);
    CountNone(IsLive, s.workers);
  }

  lemma WorkerKeepsInv(job: Job, s: State, i: nat)
    requires Inv(job, s) && CanStep(job, s, Worker(i))
    ensures Inv(job, WorkerNext(job, s, i))
  {
    hide ResultsInv, CountInv, MutexInv, MainInv;
    WorkerKeepsMutex(job, s, i);
    WorkerKeepsCounts(job, s, i);
    WorkerKeepsMain(job, s, i);
    WorkerKeepsResults(job, s, i);
  }

  lemma WorkerKeepsMutex(job: Job, s: State, i: nat)
    requires MutexInv(s) && CanStep(job, s, Worker(i))
    ensures MutexInv(WorkerNext(job, s, i))
  {
  }

  lemma WorkerKeepsMain(job: Job, s: State, i: nat)
    requires MainInv(job, s) && CanStep(job, s, Worker(i))
    ensures MainInv(job, WorkerNext(job, s, i))
  {
  }

  lemma WorkerKeepsCounts(job: Job, s: State, i: nat)
    requires CountInv(job, s) && CanStep(job, s, Worker(i))
    ensures CountInv(job, WorkerNext(job, s, i))
  {
    hide Count;
    var pc := WorkerNext(job, s, i).workers[i];
    CountUpdate(HasToken, s.workers, i, pc);
    CountUpdate(HasStarted, s.workers, i, pc);
    CountUpdate(IsRunning, s.workers, i, pc);
    CountUpdate(IsLive, s.workers, i, pc);
  }

  lemma WorkerKeepsResults(job: Job, s: State, i: nat)
    requires ResultsInv(job, s) && CanStep(job, s, Worker(i))
    ensures ResultsInv(job, WorkerNext(job, s, i))
  {
    var s' := WorkerNext(job, s, i);
    assert s'.workers == s.workers[i := s'.workers[i]];
    assert HasStored(s.workers[i]) ==> HasStored(s'.workers[i]);
    assert s'.results == if s.workers[i] == Store then s.results[job.keys[i] := job.reports[i]] else s.results;
    assert HasStored(s'.workers[i]) ==> HasStored(s.workers[i]) || s.workers[i] == Store;
    ResultsKept(job, s, s', i);
  }

  lemma ResultsKept(job: Job, s: State, s': State, i: nat)
    requires ResultsInv(job, s) && i < |s.workers| <= |job.keys| <= |job.reports|
    requires |s'.workers| == |s.workers| && s'.workers == s.workers[i := s'.workers[i]]
    requires HasStored(s.workers[i]) ==> HasStored(s'.workers[i])
    requires s'.results == s.results
             || (HasStored(s'.workers[i]) && s'.results == s.results[job.keys[i] := job.reports[i]])
    requires HasStored(s'.workers[i]) ==> HasStored(s.workers[i]) || job.keys[i] in s'.results
    ensures ResultsInv(job, s')
  {
    forall k <- s'.results ensures exists j :: Reported(job, s'.workers, j, k, s'.results[k]) {
      if k in s.results && s.results[k] == s'.results[k] {
        var j :| Reported(job, s.workers, j, k, s.results[k]);
        assert Reported(job, s'.workers, j, k, s'.results[k]);
      } else {
        assert Reported(job, s'.workers, i, k, s'.results[k]);
      }
    }
  }

  lemma MainKeepsInv(job: Job, s: State)
    requires Inv(job, s) && CanStep(job, s, Main)
    ensures Inv(job, MainNext(job, s))
  {
    hide ResultsInv, MutexInv, CountInv;
    var s' := MainNext(job, s);
    if s.main.Go? {
      var i := s.main.i;
      assert s'.workers == s.workers[i := s'.workers[i]];
      ResultsKept(job, s, s', i);
    } else {
      assert ResultsInv(job, s') by { SameResults(job, s, s'); }
    }
    MainKeepsMutex(job, s);
    MainKeepsCounts(job, s);
    if s.main == Wait {
      WaitedForAll(job, s);
    }
  }

  lemma SameResults(job: Job, s: State, s': State)
    requires ResultsInv(job, s) && s'.workers == s.workers && s'.results == s.results
    ensures ResultsInv(job, s')
  {
  }

  lemma MainKeepsMutex(job: Job, s: State)
    requires MainInv(job, s) && MutexInv(s) && CanStep(job, s, Main)
    ensures MutexInv(MainNext(job, s))
  {
  }

  lemma MainKeepsCounts(job: Job, s: State)
    requires MainInv(job, s) && CountInv(job, s) && CanStep(job, s, Main)
    ensures CountInv(job, MainNext(job, s))
  {
    if s.main.Go? {
      CountUpdates(s.workers, s.main.i, Acquire);
    }
  }

  lemma WaitedForAll(job: Job, s: State)
    requires MainInv(job, s) && CountInv(job, s) && s.main == Wait && s.wg == 0
    ensures forall i :: 0 <= i < |s.workers| ==> s.workers[i] == Dead
  {
    CountNone(IsLive, s.workers);
  }

  lemma ReporterKeepsInv(job: Job, s: State)
    requires Inv(job, s) && CanStep(job, s, Reporter)
    ensures Inv(job, ReporterNext(s))
  {
    hide ResultsInv, MutexInv, CountInv;
    ReporterKeepsMutex(job, s);
    ReporterKeepsCounts(job, s);
    SameResults(job, s, ReporterNext(s));
  }

  lemma ReporterKeepsMutex(job: Job, s: State)
    requires MutexInv(s) && CanStep(job, s, Reporter)
    ensures MutexInv(ReporterNext(s))
  {
  }

  lemma ReporterKeepsCounts(job: Job, s: State)
    requires CountInv(job, s) && CanStep(job, s, Reporter)
    ensures CountInv(job, ReporterNext(s))
  {
  }

  lemma StepKeepsInv(job: Job, s: State, a: Actor)
    requires Inv(job, s) && CanStep(job, s, a)
    ensures Inv(job, Next(job, s, a))
  {
    match a
    case Main => MainKeepsInv(job, s);
    case Reporter => ReporterKeepsInv(job, s);
    case Worker(i) => WorkerKeepsInv(job, s, i);
  }

  // ---------- safety of every run ----------

  /** The state after the actors took the steps that the schedule grants them. */
  function Run(job: Job, s: State, schedule: seq<Actor>): Option<State>
    decreases |schedule|
  {
    if schedule == [] then Some(s)
    else if CanStep(job, s, schedule[0]) then Run(job, Next(job, s, schedule[0]), schedule[1..])
    else None
  }

  lemma {:induction false} RunKeepsInv(job: Job, s: State, schedule: seq<Actor>)
    requires Inv(job, s) && Run(job, s, schedule).Some?
    ensures Inv(job, Run(job, s, schedule).value)
    decreases |schedule|
  {
    if schedule != [] {
      StepKeepsInv(job, s, schedule[0]);
      RunKeepsInv(job, Next(job, s, schedule[0]), schedule[1..]);
    }
  }

  /** The next step of the actor reads or writes the shared counters or results. */
  predicate TouchesShared(s: State, a: Actor) {
    match a
    case Main => s.main == Over
    case Reporter => s.reporter == Report
    case Worker(i) => i < |s.workers| && s.workers[i] in {IncStarted, IncRunning, Store, DecRunning}
  }

  /** In every reachable state: the throttle holds, the counters say what they should, and no two
      actors are about to touch the shared data. */
  lemma EveryRunIsSafe(job: Job, s: State, schedule: seq<Actor>)
    requires IsJob(job) && Init(job, s) && Run(job, s, schedule).Some?
    ensures var r := Run(job, s, schedule).value;
            && Count(HasToken, r.workers) == r.tokens <= job.maxGoCount
            && r.running == Count(IsRunning, r.workers) && r.started == Count(HasStarted, r.workers)
            && (forall a :: TouchesShared(r, a) && a != Main ==> r.holder == Some(a))
            && (forall a, b :: TouchesShared(r, a) && TouchesShared(r, b) ==> a == b)
  {
    hide ResultsInv, Count, Init;
    InitInv(job, s);
    RunKeepsInv(job, s, schedule);
    var r := Run(job, s, schedule).value;
    assert forall i: nat :: TouchesShared(r, Worker(i)) ==> InSection(r.workers[i]);
    assert r.main == Over ==> forall i :: 0 <= i < |r.workers| ==> r.workers[i] == Dead;
  }

  /** Once wg.Wait has returned, every repository has its report (under a key of its own, exactly
      its own report), nothing is running and the throttle is empty. */
  lemma AllReportedAfterWait(job: Job, s: State, schedule: seq<Actor>)
    requires IsJob(job) && Init(job, s) && Run(job, s, schedule).Some?
    requires Run(job, s, schedule).value.main in {Send, Blocked, Receive, Over}
    ensures var r := Run(job, s, schedule).value;
            && r.running == 0 && r.tokens == 0 && r.wg == 0
            && r.results.Keys == Elements(job.keys)
            && (forall i :: 0 <= i < |job.keys| && OwnKey(job, i) ==> r.results[job.keys[i]] == job.reports[i])
  {
    InitInv(job, s);
    RunKeepsInv(job, s, schedule);
    var r := Run(job, s, schedule).value;
    hide MutexInv, Count, Init, Run;
    CountNone(HasToken, r.workers);
    CountNone(IsRunning, r.workers);
    CountNone(IsLive, r.workers);
    hide ResultsInv;
    AllReported(job, r);
  }

  /** No other repository has the key of repository i. */
  ghost predicate OwnKey(job: Job, i: nat)
    requires i < |job.keys|
  {
    forall j :: 0 <= j < |job.keys| && job.keys[j] == job.keys[i] ==> j == i
  }

  lemma AllReported(job: Job, r: State)
    requires IsJob(job) && ResultsInv(job, r) && |r.workers| == |job.keys|
    requires forall i :: 0 <= i < |r.workers| ==> r.workers[i] == Dead
    ensures r.results.Keys == Elements(job.keys)
    ensures forall i :: 0 <= i < |job.keys| && OwnKey(job, i) ==> r.results[job.keys[i]] == job.reports[i]
  {
    forall k ensures k in r.results <==> k in Elements(job.keys) {
      if k in r.results {
        var i :| Reported(job, r.workers, i, k, r.results[k]);
      }
      if k in Elements(job.keys) {
        var i :| 0 <= i < |job.keys| && job.keys[i] == k;
        assert HasStored(r.workers[i]);
      }
    }
    forall i | 0 <= i < |job.keys| && OwnKey(job, i) ensures r.results[job.keys[i]] == job.reports[i] {
      assert job.keys[i] in Elements(job.keys);
      var j :| Reported(job, r.workers, j, job.keys[i], r.results[job.keys[i]]);
      assert j == i;
    }
  }

  // ---------- no state is stuck ----------

  /** The steps a worker, main and the reporter's farewell still need. */
  ghost function WorkerRest(pc: WorkerPc): nat {
    match pc
    case Unborn => 13 case Acquire => 12 case Lock1 => 11 case IncStarted => 10 case IncRunning => 9
    case Unlock1 => 8 case Check => 7 case Lock2 => 6 case Store => 5 case DecRunning => 4
    case Unlock2 => 3 case Release => 2 case Done => 1 case Dead => 0
  }

  ghost function WorkersRest(ws: seq<WorkerPc>): nat {
    if ws == [] then 0 else WorkersRest(ws[..|ws| - 1]) + WorkerRest(ws[|ws| - 1])
  }

  ghost function MainRest(job: Job, m: MainPc): nat {
    match m
    case Add(i) => if i < |job.keys| then 2 * (|job.keys| - i) + 6 else 0
    case Go(i) => if i < |job.keys| then 2 * (|job.keys| - i) + 5 else 0
    case GoReporter => 6 case Wait => 5 case Send => 4 case Blocked => 3 case Receive => 2 case Over => 0
  }

  ghost function Farewell(r: ReporterPc): nat {
    match r
    case Close => 2 case UnlockLast => 1 case Returned => 0 case _ => 3
  }

  ghost function Rest(job: Job, s: State): nat {
    WorkersRest(s.workers) + MainRest(job, s.main) + Farewell(s.reporter)
  }

  /** How far the reporter is from what others wait for: from the receive if main is blocked, and
      from giving the mutex back otherwise. */
  ghost function Distance(s: State): nat {
    if s.main == Blocked then
      match s.reporter
      case UnlockLoop => 5 case Sleep => 4 case LockR => 3 case Report => 2 case Select => 1 case _ => 0
    else
      match s.reporter
      case Report => 3 case Select => 2 case UnlockLoop => 1 case _ => 0
  }

  lemma {:induction false} RestUpdate(ws: seq<WorkerPc>, i: nat, pc: WorkerPc)
    requires i < |ws|
    ensures WorkersRest(ws[i := pc]) == WorkersRest(ws) - WorkerRest(ws[i]) + WorkerRest(pc)
  {
    var n := |ws| - 1;
    if i < n {
      assert ws[i := pc][..n] == ws[..n][i := pc];
      RestUpdate(ws[..n], i, pc);
    } else {
      assert ws[i := pc][..n] == ws[..n];
    }
  }

  lemma WorkerProgress(job: Job, s: State, i: nat)
    requires CanStep(job, s, Worker(i))
    ensures Rest(job, WorkerNext(job, s, i)) < Rest(job, s)
  {
    hide WorkersRest;
    RestUpdate(s.workers, i, WorkerNext(job, s, i).workers[i]);
  }

  lemma MainProgress(job: Job, s: State)
    requires MainInv(job, s) && CanStep(job, s, Main)
    ensures Rest(job, MainNext(job, s)) < Rest(job, s)
  {
    hide WorkersRest;
    if s.main.Go? {
      RestUpdate(s.workers, s.main.i, Acquire);
    }
  }

  /** Every step other than the reporter's loop brings the end closer. */
  lemma StepMakesProgress(job: Job, s: State, a: Actor)
    requires Inv(job, s) && CanStep(job, s, a)
    requires a == Reporter ==> s.reporter in {Close, UnlockLast} || (s.reporter == Select && s.main == Blocked)
    ensures Rest(job, Next(job, s, a)) < Rest(job, s)
  {
    hide ResultsInv, CountInv, MutexInv;
    match a
    case Main => MainProgress(job, s);
    case Reporter =>
    case Worker(i) => WorkerProgress(job, s, i);
  }

  /** Before main ends there is a step that brings the end closer, or one that brings the reporter
      closer to what the others wait for. */
  lemma SomeStepHelps(job: Job, s: State) returns (a: Actor)
    requires Inv(job, s) && s.main != Over
    ensures CanStep(job, s, a)
    ensures var s' := Next(job, s, a);
            Rest(job, s') < Rest(job, s) || (Rest(job, s') == Rest(job, s) && Distance(s') < Distance(s))
  {
    hide ResultsInv, WorkersRest, Count;
    if s.holder == Some(Reporter) {
      a := Reporter;
      if s.reporter in {Close, UnlockLast} || (s.reporter == Select && s.main == Blocked) {
        StepMakesProgress(job, s, a);
      }
    } else if s.holder.Some? {
      a := s.holder.value;
      TokenOf(job, s, a.i);
      StepMakesProgress(job, s, a);
    } else if i :| 0 <= i < |s.workers| && s.workers[i] !in {Unborn, Acquire, Dead} {
      a := Worker(i);
      if s.workers[i] == Release {
        TokenOf(job, s, i);
      }
      StepMakesProgress(job, s, a);
    } else if i :| 0 <= i < |s.workers| && s.workers[i] == Acquire {
      CountNone(HasToken, s.workers);
      a := Worker(i);
      StepMakesProgress(job, s, a);
    } else if s.main == Blocked {
      a := Reporter;
    } else {
      if s.main == Wait {
        CountNone(IsLive, s.workers);
      }
      if s.main == Receive && !s.closed {
        a := Reporter;
      } else {
        a := Main;
      }
      StepMakesProgress(job, s, a);
    }
  }

  lemma TokenOf(job: Job, s: State, i: nat)
    requires CountInv(job, s) && i < |s.workers| && In(HasToken, s.workers[i])
    ensures s.tokens > 0
  {
    CountNone(HasToken, s.workers);
  }

  /** From every reachable state the run can be completed: there is no deadlock, not even of some
      of the goroutines, and no dead end in the shutdown handshake. */
  lemma {:induction false} EveryStateCanFinish(job: Job, s: State) returns (schedule: seq<Actor>)
    requires Inv(job, s)
    ensures Run(job, s, schedule).Some? && Run(job, s, schedule).value.main == Over
    decreases Rest(job, s), Distance(s)
  {
    hide Inv, Rest, Distance, Next, CanStep;
    if s.main == Over {
      schedule := [];
    } else {
      var a := SomeStepHelps(job, s);
      StepKeepsInv(job, s, a);
      var rest := EveryStateCanFinish(job, Next(job, s, a));
      schedule := [a] + rest;
    }
  }
}
