/** Stage 1 run by many compiler processes at once over the shared caches.  Every cache call is
    one atomic step (the cache's lock is held throughout); everything else is local to a process
    (contrib/roafteriniter/roafteriniter.c, contrib/roafteriniter/cache.h).

    The caches are taken to have room; their running full ends the process that notices. */
module Stage1Interleaving {
  import opened Prelude
  import opened StructTypes

  // ---------- the machine ----------

  /** Where an activation of rai_interesting_struct_type stands. */
  datatype Phase =
    | Lookup         // about to ask the cache `interesting`
    | Claim          // about to test and set the cache `checked`
    | Fields(i: nat) // evaluating: at field i, or waiting for the verdict on it
    | Accept         // about to insert into the cache `interesting`

  datatype Frame = Frame(name: string, phase: Phase)

  /** A compiler process: the types of the globals still to visit, the activations (innermost
      last) and the verdict that the last finished activation returned. */
  datatype Process = Process(globals: seq<string>, stack: seq<Frame>, ret: Option<bool>)

  /** `log` and `raced` are history: who evaluated what, and the types whose evaluation was cut
      short because a field's type had been checked but was not (yet) interesting. */
  datatype State = State(
    interesting: set<string>,
    checked: set<string>,
    procs: seq<Process>,
    log: seq<(nat, string)>,
    raced: set<string>)

  predicate Active(q: Process) {
    q.globals != [] || q.stack != [] || q.ret.Some?
  }

  predicate Quiescent(s: State) {
    forall i :: 0 <= i < |s.procs| ==> !Active(s.procs[i])
  }

  function Top(q: Process): Frame
    requires q.stack != []
  {
    q.stack[|q.stack| - 1]
  }

  function Pop(q: Process, verdict: bool): Process
    requires q.stack != []
  {
    q.(stack := q.stack[..|q.stack| - 1], ret := Some(verdict))
  }

  function Goto(q: Process, phase: Phase): Process
    requires q.stack != []
  {
    q.(stack := q.stack[..|q.stack| - 1] + [Top(q).(phase := phase)], ret := None)
  }

  function Push(q: Process, name: string): Process {
    q.(stack := q.stack + [Frame(name, Lookup)], ret := None)
  }

  /** What the evaluation of t does at field i without touching the caches. */
  function FieldStep(p: Program, q: Process, t: string, i: nat): Process
    requires q.stack != [] && t in p
  {
    if i >= |p[t]| then
      if p[t] == [] then Pop(q, false) else Goto(q, Accept)
    else
      var m := p[t][i];
      if m.Other? || m == Pointer(None) then Goto(q, Fields(i + 1))
      else if m == Embedded(None) || m == Pointer(Some(t)) then Pop(q, false)
      else Push(q, m.target.value)
  }

  /** The next step of process k. */
  function Step(p: Program, s: State, k: nat): State
    requires k < |s.procs| && Active(s.procs[k])
    requires s.procs[k].stack != [] ==> Top(s.procs[k]).name in p
  {
    var q := s.procs[k];
    if q.ret.Some? then
      if q.stack == [] then
        s.(procs := s.procs[k := q.(ret := None)])
      else if q.ret.value && Top(q).phase.Fields? then
        s.(procs := s.procs[k := Goto(q, Fields(Top(q).phase.i + 1))])
      else
        s.(procs := s.procs[k := Pop(q, false)])
    else if q.stack == [] then
      s.(procs := s.procs[k := Push(q, q.globals[0]).(globals := q.globals[1..])])
    else
      var t := Top(q).name;
      match Top(q).phase
      case Lookup =>
        s.(procs := s.procs[k := if t in s.interesting then Pop(q, true) else Goto(q, Claim)])
      case Claim =>
        if t in s.checked then
          var callers := if |q.stack| > 1 then {q.stack[|q.stack| - 2].name} else {};
          s.(procs := s.procs[k := Pop(q, false)], raced := s.raced + callers)
        else
          s.(procs := s.procs[k := if t in BLACKLIST then Pop(q, false) else Goto(q, Fields(0))],
             checked := s.checked + {t},
             log := s.log + [(k, t)])
      case Fields(i) =>
        s.(procs := s.procs[k := FieldStep(p, q, t, i)])
      case Accept =>
        s.(procs := s.procs[k := Pop(q, true)], interesting := s.interesting + {t})
  }

  /** Fresh caches, and processes that have not begun. */
  ghost predicate Init(p: Program, s: State) {
    && s.interesting == {} && s.checked == {} && s.log == [] && s.raced == {}
    && forall i :: 0 <= i < |s.procs| ==>
         s.procs[i].stack == [] && s.procs[i].ret == None && forall t <- s.procs[i].globals :: t in p
  }

  // ---------- the invariant ----------

  predicate Evaluating(f: Frame) {
    f.phase.Fields? || f.phase.Accept?
  }

  /** Some interesting type lost its verdict to a race. */
  ghost predicate Missed(p: Program, s: State) {
    exists t <- s.raced :: Interesting(p, t)
  }

  ghost predicate FrameInv(p: Program, s: State, k: nat, f: Frame) {
    && f.name in p
    && (Evaluating(f) ==>
          && (k, f.name) in s.log && f.name !in s.interesting && f.name !in BLACKLIST)
    && (f.phase.Fields? ==>
          && f.phase.i <= |p[f.name]|
          && forall j :: 0 <= j < f.phase.i ==> MemberInteresting(p, p[f.name][j]))
    && (f.phase.Accept? ==> Interesting(p, f.name))
  }

  /** The frame f waits for a verdict on the type u. */
  ghost predicate Awaits(p: Program, f: Frame, u: string) {
    && f.name in p && f.phase.Fields? && f.phase.i < |p[f.name]|
    && var m := p[f.name][f.phase.i];
       Refers(m) && m.target.value == u
  }

  ghost predicate StackInv(p: Program, s: State, k: nat, q: Process) {
    && (forall t <- q.globals :: t in p)
    && (forall j :: 0 <= j < |q.stack| ==> FrameInv(p, s, k, q.stack[j]))
    && (forall j :: 0 < j < |q.stack| ==> Awaits(p, q.stack[j - 1], q.stack[j].name))
    && (forall i, j :: 0 <= i < j < |q.stack| && Evaluating(q.stack[j]) ==> q.stack[i].name != q.stack[j].name)
    && (forall j :: 0 <= j < |q.stack| && Evaluating(q.stack[j]) && q.stack[j].name in s.raced ==>
          j == |q.stack| - 1 && q.ret == Some(false))
  }

  ghost predicate RetInv(p: Program, s: State, q: Process) {
    q.ret.Some? && q.stack != [] ==>
      var f := Top(q);
      && f.phase.Fields? && f.name in p && f.phase.i < |p[f.name]|
      && Refers(p[f.name][f.phase.i])
      && if q.ret.value then MemberInteresting(p, p[f.name][f.phase.i])
         else Interesting(p, f.name) ==> Missed(p, s)
  }

  ghost predicate OnStack(s: State, t: string) {
    exists i, j :: 0 <= i < |s.procs| && 0 <= j < |s.procs[i].stack|
                   && Evaluating(s.procs[i].stack[j]) && s.procs[i].stack[j].name == t
  }

  ghost predicate Settled(p: Program, s: State, t: string) {
    t in s.interesting || OnStack(s, t) || !Interesting(p, t) || Missed(p, s)
  }

  /** No type is evaluated twice, by one process or by two. */
  ghost predicate EvaluatedOnce(s: State) {
    forall i, j :: 0 <= i < j < |s.log| ==> s.log[i].1 != s.log[j].1
  }

  ghost predicate SharedInv(p: Program, s: State) {
    && s.interesting <= s.checked <= p.Keys
    && (forall t <- s.interesting :: Interesting(p, t))
    && EvaluatedOnce(s)
    && (forall t :: t in s.checked <==> exists i :: 0 <= i < |s.log| && s.log[i].1 == t)
    && s.raced <= s.checked && s.raced !! s.interesting
    && (forall t <- s.checked :: Settled(p, s, t))
  }

  ghost predicate Inv(p: Program, s: State) {
    && Closed(p)
    && SharedInv(p, s)
    && forall k :: 0 <= k < |s.procs| ==> StackInv(p, s, k, s.procs[k]) && RetInv(p, s, s.procs[k])
  }

  lemma InitInv(p: Program, s: State)
    requires Closed(p) && Init(p, s)
    ensures Inv(p, s)
  {
  }

  // ---------- what a step of one process leaves alone ----------

  /** s' is s after process k went from q to q'; the types it added anywhere are ones that k itself
      has claimed. */
  ghost predicate Moves(s: State, s': State, k: nat, q': Process) {
    && k < |s.procs| && s'.procs == s.procs[k := q']
    && s.interesting <= s'.interesting && s.checked <= s'.checked && s.raced <= s'.raced
    && s.log <= s'.log && EvaluatedOnce(s')
    && (forall t <- s'.interesting :: t in s.interesting || (k, t) in s.log)
    && (forall t <- s'.raced :: t in s.raced || (k, t) in s.log)
  }

  lemma OwnersDiffer(s: State, k: nat, l: nat, t: string)
    requires EvaluatedOnce(s) && (k, t) in s.log && (l, t) in s.log
    ensures k == l
  {
    var i :| 0 <= i < |s.log| && s.log[i] == (k, t);
    var j :| 0 <= j < |s.log| && s.log[j] == (l, t);
    assert s.log[i].1 == s.log[j].1;
  }

  lemma OthersKept(p: Program, s: State, s': State, k: nat, q': Process, l: nat)
    requires Moves(s, s', k, q') && l < |s.procs| && l != k
    requires SharedInv(p, s) && StackInv(p, s, l, s.procs[l]) && RetInv(p, s, s.procs[l])
    ensures StackInv(p, s', l, s'.procs[l]) && RetInv(p, s', s'.procs[l])
  {
    hide Interesting;
    var q := s.procs[l];
    assert s'.procs[l] == q;
    forall j | 0 <= j < |q.stack|
      ensures FrameInv(p, s', l, q.stack[j])
      ensures Evaluating(q.stack[j]) && q.stack[j].name in s'.raced ==> q.stack[j].name in s.raced
    {
      var f := q.stack[j];
      assert FrameInv(p, s, l, f);
      assert forall e <- s.log :: e in s'.log;
      if Evaluating(f) && (k, f.name) in s.log {
        OwnersDiffer(s, k, l, f.name);
      }
    }
    assert Missed(p, s) ==> Missed(p, s');
  }

  /** A type stays settled unless it is x, the one whose activation just ended. */
  lemma SettledKept(p: Program, s: State, s': State, k: nat, q': Process, t: string, x: Option<string>)
    requires Moves(s, s', k, q') && Settled(p, s, t) && Some(t) != x
    requires forall j | 0 <= j < |s.procs[k].stack| && Evaluating(s.procs[k].stack[j]) ::
               Some(s.procs[k].stack[j].name) != x ==>
               j < |q'.stack| && Evaluating(q'.stack[j]) && q'.stack[j].name == s.procs[k].stack[j].name
    ensures Settled(p, s', t)
  {
    hide Interesting;
    if OnStack(s, t) {
      var i, j :| 0 <= i < |s.procs| && 0 <= j < |s.procs[i].stack|
                  && Evaluating(s.procs[i].stack[j]) && s.procs[i].stack[j].name == t;
      assert s'.procs[i] == if i == k then q' else s.procs[i];
      assert 0 <= j < |s'.procs[i].stack| && Evaluating(s'.procs[i].stack[j]) && s'.procs[i].stack[j].name == t;
    }
    assert Missed(p, s) ==> Missed(p, s');
  }

  /** What is left to show of a step. */
  lemma MoveKeepsInv(p: Program, s: State, s': State, k: nat, q': Process, x: Option<string>)
    requires Inv(p, s) && Moves(s, s', k, q')
    requires StackInv(p, s', k, q') && RetInv(p, s', q')
    requires s'.interesting <= s'.checked <= p.Keys
    requires forall t <- s'.interesting :: Interesting(p, t)
    requires forall t :: t in s'.checked <==> exists i :: 0 <= i < |s'.log| && s'.log[i].1 == t
    requires s'.raced <= s'.checked && s'.raced !! s'.interesting
    requires forall t <- s'.checked :: t in s.checked || Some(t) == x || Settled(p, s', t)
    requires x.Some? ==> Settled(p, s', x.value)
    requires forall j | 0 <= j < |s.procs[k].stack| && Evaluating(s.procs[k].stack[j]) ::
               Some(s.procs[k].stack[j].name) != x ==>
               j < |q'.stack| && Evaluating(q'.stack[j]) && q'.stack[j].name == s.procs[k].stack[j].name
    ensures Inv(p, s')
  {
    hide Interesting, StackInv, RetInv;
    forall l | 0 <= l < |s'.procs| ensures StackInv(p, s', l, s'.procs[l]) && RetInv(p, s', s'.procs[l]) {
      if l != k {
        OthersKept(p, s, s', k, q', l);
      }
    }
    forall t <- s'.checked ensures Settled(p, s', t) {
      if t in s.checked && Some(t) != x {
        SettledKept(p, s, s', k, q', t, x);
      }
    }
  }

  // ---------- every step keeps the invariant ----------

  /** The verdict on field i comes back and the evaluation of t goes on. */
  lemma KeepGoto(p: Program, s: State, k: nat, i: nat)
    requires Inv(p, s) && k < |s.procs|
    requires s.procs[k].stack != [] && Top(s.procs[k]).phase == Fields(i) && i < |p[Top(s.procs[k]).name]|
    requires MemberInteresting(p, p[Top(s.procs[k]).name][i])
    requires s.procs[k].ret != Some(false)
    ensures Inv(p, s.(procs := s.procs[k := Goto(s.procs[k], Fields(i + 1))]))
  {
    hide Interesting;
    var q := s.procs[k];
    var q' := Goto(q, Fields(i + 1));
    var s' := s.(procs := s.procs[k := q']);
    assert FrameInv(p, s, k, Top(q));
    assert FrameInv(p, s', k, Top(q'));
    forall j | 0 <= j < |q'.stack| ensures FrameInv(p, s', k, q'.stack[j]) {
      assert FrameInv(p, s, k, q.stack[j]);
    }
    assert StackInv(p, s', k, q') && RetInv(p, s', q');
    MoveKeepsInv(p, s, s', k, q', None);
  }

  /** An activation ends with a verdict that its caller may rely on. */
  lemma PoppedStack(p: Program, s: State, s': State, k: nat, verdict: bool)
    requires k < |s.procs| && s.procs[k].stack != []
    requires StackInv(p, s, k, s.procs[k]) && SharedInv(p, s)
    requires Moves(s, s', k, Pop(s.procs[k], verdict))
    requires forall t <- s'.interesting :: t in s.interesting || t == Top(s.procs[k]).name
    requires Top(s.procs[k]).name in s'.interesting && Top(s.procs[k]).name !in s.interesting ==>
             Evaluating(Top(s.procs[k]))
    requires forall t <- s'.raced ::
              || t in s.raced
              || (|s.procs[k].stack| > 1 && t == s.procs[k].stack[|s.procs[k].stack| - 2].name && !verdict)
    requires |s.procs[k].stack| > 1 ==>
               if verdict then Interesting(p, Top(s.procs[k]).name)
               else Interesting(p, s.procs[k].stack[|s.procs[k].stack| - 2].name) ==> Missed(p, s')
    ensures StackInv(p, s', k, Pop(s.procs[k], verdict)) && RetInv(p, s', Pop(s.procs[k], verdict))
  {
    hide Interesting;
    var q := s.procs[k];
    var q' := Pop(q, verdict);
    var n := |q.stack|;
    assert forall j :: 0 < j < n ==> Awaits(p, q.stack[j - 1], q.stack[j].name);
    hide MemberInteresting, Missed, OnStack, Settled;
    forall j | 0 <= j < n - 1
      ensures FrameInv(p, s', k, q'.stack[j])
      ensures Evaluating(q'.stack[j]) && q'.stack[j].name in s'.raced ==> j == n - 2 && !verdict
    {
      assert q'.stack[j] == q.stack[j];
      assert Awaits(p, q.stack[j], q.stack[j + 1].name);
      assert Evaluating(q.stack[n - 2]);
      FrameKept(p, s, s', k, q', q.stack[j], Top(q).name);
    }
    if n > 1 {
      AwaitsVerdict(p, s', q', Top(q).name, verdict);
    }
  }

  /** A frame below the one that ends is as before. */
  lemma FrameKept(p: Program, s: State, s': State, k: nat, q': Process, f: Frame, t: string)
    requires FrameInv(p, s, k, f) && Moves(s, s', k, q')
    requires forall u <- s'.interesting :: u in s.interesting || u == t
    requires Evaluating(f) && t in s'.interesting && t !in s.interesting ==> f.name != t
    ensures FrameInv(p, s', k, f)
  {
    hide MemberInteresting, Interesting, EvaluatedOnce;
    assert forall e <- s.log :: e in s'.log;
  }

  lemma AwaitsVerdict(p: Program, s: State, q: Process, t: string, verdict: bool)
    requires q.stack != [] && q.ret == Some(verdict) && Awaits(p, Top(q), t)
    requires if verdict then Interesting(p, t) else Interesting(p, Top(q).name) ==> Missed(p, s)
    ensures RetInv(p, s, q)
  {
    hide Interesting, Missed;
  }

  /** An activation ends without a change to the caches or the history. */
  lemma KeepPop(p: Program, s: State, k: nat, verdict: bool)
    requires Inv(p, s) && k < |s.procs| && s.procs[k].stack != []
    requires if verdict then Top(s.procs[k]).name in s.interesting
             else Evaluating(Top(s.procs[k])) && (!Interesting(p, Top(s.procs[k]).name) || Missed(p, s))
    ensures Inv(p, s.(procs := s.procs[k := Pop(s.procs[k], verdict)]))
  {
    hide Interesting;
    var q := s.procs[k];
    var t := Top(q).name;
    var q' := Pop(q, verdict);
    var s' := s.(procs := s.procs[k := q']);
    assert FrameInv(p, s, k, Top(q));
    assert Missed(p, s) <==> Missed(p, s');
    if |q.stack| > 1 && !verdict {
      CallerRejected(p, q.stack[|q.stack| - 2], t);
    }
    PoppedStack(p, s, s', k, verdict);
    if Evaluating(Top(q)) {
      MoveKeepsInv(p, s, s', k, q', Some(t));
    } else {
      MoveKeepsInv(p, s, s', k, q', None);
    }
  }

  lemma CallerRejected(p: Program, f: Frame, u: string)
    requires Awaits(p, f, u)
    ensures Interesting(p, f.name) ==> Interesting(p, u)
  {
    InterestingIsFixedPoint(p, f.name);
    assert p[f.name][f.phase.i] in p[f.name];
  }

  /** The type had been checked: the caller's evaluation is cut short. */
  lemma KeepHit(p: Program, s: State, k: nat)
    requires Inv(p, s) && k < |s.procs| && s.procs[k].stack != [] && s.procs[k].ret == None
    requires Top(s.procs[k]).phase == Claim && Top(s.procs[k]).name in s.checked
    requires Top(s.procs[k]).name in p
    ensures Inv(p, Step(p, s, k))
  {
    hide Interesting;
    var q := s.procs[k];
    var q' := Pop(q, false);
    var s' := Step(p, s, k);
    if |q.stack| > 1 {
      var f := q.stack[|q.stack| - 2];
      assert Awaits(p, f, Top(q).name);
      assert FrameInv(p, s, k, f);
      assert s'.raced == s.raced + {f.name};
      assert f.name in s.checked by {
        var i :| 0 <= i < |s.log| && s.log[i] == (k, f.name);
        assert s.log[i].1 == f.name;
      }
    }
    PoppedStack(p, s, s', k, false);
    MoveKeepsInv(p, s, s', k, q', None);
  }

  /** The type is claimed: no process evaluated it before, and this one now may. */
  lemma KeepClaim(p: Program, s: State, k: nat)
    requires Inv(p, s) && k < |s.procs| && s.procs[k].stack != [] && s.procs[k].ret == None
    requires Top(s.procs[k]).phase == Claim && Top(s.procs[k]).name !in s.checked
    requires Top(s.procs[k]).name in p
    ensures Inv(p, Step(p, s, k))
  {
    hide Interesting;
    var q, s' := s.procs[k], Step(p, s, k);
    var t, q' := Top(q).name, s'.procs[k];
    assert s'.log == s.log + [(k, t)] && s'.log[|s.log|] == (k, t);
    assert s'.log[|s.log|].1 == t;
    ClaimedLog(p, s, s', k, t);
    assert Moves(s, s', k, q');
    assert Missed(p, s) <==> Missed(p, s');
    if t in BLACKLIST {
      InterestingIsFixedPoint(p, t);
      if |q.stack| > 1 {
        CallerRejected(p, q.stack[|q.stack| - 2], t);
      }
      PoppedStack(p, s, s', k, false);
    } else {
      ClaimedStack(p, s, s', k);
    }
    MoveKeepsInv(p, s, s', k, q', Some(t));
  }

  lemma ClaimedLog(p: Program, s: State, s': State, k: nat, t: string)
    requires SharedInv(p, s) && t !in s.checked
    requires s'.log == s.log + [(k, t)] && s'.checked == s.checked + {t}
    ensures EvaluatedOnce(s')
    ensures forall u :: u in s'.checked <==> exists i :: 0 <= i < |s'.log| && s'.log[i].1 == u
  {
    assert forall i :: 0 <= i < |s.log| ==> s'.log[i] == s.log[i] && s.log[i].1 in s.checked;
    forall u ensures u in s'.checked <==> exists i :: 0 <= i < |s'.log| && s'.log[i].1 == u {
      if u in s.checked {
        var i :| 0 <= i < |s.log| && s.log[i].1 == u;
        assert s'.log[i].1 == u;
      } else if u == t {
        assert s'.log[|s.log|].1 == u;
      }
    }
  }

  lemma ClaimedStack(p: Program, s: State, s': State, k: nat)
    requires Inv(p, s) && k < |s.procs| && s.procs[k].stack != [] && s.procs[k].ret == None
    requires Top(s.procs[k]).phase == Claim && Top(s.procs[k]).name in p
    requires Top(s.procs[k]).name !in s.checked && Top(s.procs[k]).name !in BLACKLIST
    requires s' == Step(p, s, k)
    ensures StackInv(p, s', k, s'.procs[k]) && RetInv(p, s', s'.procs[k]) && OnStack(s', Top(s.procs[k]).name)
  {
    hide Interesting;
    var q, q' := s.procs[k], s'.procs[k];
    var n, t := |q.stack|, Top(q).name;
    assert q' == Goto(q, Fields(0));
    assert q'.stack[n - 1] == Frame(t, Fields(0));
    assert (k, t) == s'.log[|s.log|];
    assert forall e <- s.log :: e in s'.log;
    forall j | 0 <= j < n
      ensures FrameInv(p, s', k, q'.stack[j])
      ensures j < n - 1 ==> q'.stack[j].name != t && q'.stack[j] == q.stack[j]
    {
      assert FrameInv(p, s, k, q.stack[j]);
      if j < n - 1 {
        assert Awaits(p, q.stack[j], q.stack[j + 1].name);
        var i :| 0 <= i < |s.log| && s.log[i] == (k, q.stack[j].name);
        assert s.log[i].1 == q.stack[j].name;
      }
    }
    assert 0 <= k < |s'.procs| && Evaluating(s'.procs[k].stack[n - 1]) && s'.procs[k].stack[n - 1].name == t;
  }

  /** A new activation begins. */
  lemma KeepPush(p: Program, s: State, k: nat, t: string, globals: seq<string>)
    requires Inv(p, s) && k < |s.procs| && s.procs[k].ret == None && t in p
    requires s.procs[k].stack != [] ==> Awaits(p, Top(s.procs[k]), t)
    requires forall g <- globals :: g in p
    ensures Inv(p, s.(procs := s.procs[k := Push(s.procs[k], t).(globals := globals)]))
  {
    hide Interesting;
    var q := s.procs[k];
    var q' := Push(q, t).(globals := globals);
    var s' := s.(procs := s.procs[k := q']);
    forall j | 0 <= j < |q'.stack| ensures FrameInv(p, s', k, q'.stack[j]) {
      if j < |q.stack| {
        assert FrameInv(p, s, k, q.stack[j]);
      }
    }
    if q.stack != [] {
      assert Evaluating(q.stack[|q.stack| - 1]);
    }
    MoveKeepsInv(p, s, s', k, q', None);
  }

  lemma PhaseStack(p: Program, s: State, k: nat, phase: Phase)
    requires k < |s.procs| && s.procs[k].stack != [] && s.procs[k].ret == None
    requires StackInv(p, s, k, s.procs[k]) && (Evaluating(Top(s.procs[k])) <==> phase.Accept?)
    requires phase == Claim || (phase == Accept && Interesting(p, Top(s.procs[k]).name))
    ensures var s' := s.(procs := s.procs[k := Goto(s.procs[k], phase)]);
            StackInv(p, s', k, s'.procs[k]) && RetInv(p, s', s'.procs[k])
  {
    hide Interesting;
    var q := s.procs[k];
    var q' := Goto(q, phase);
    var s' := s.(procs := s.procs[k := q']);
    assert FrameInv(p, s, k, Top(q));
    forall j | 0 <= j < |q'.stack| ensures FrameInv(p, s', k, q'.stack[j]) {
      assert FrameInv(p, s, k, q.stack[j]);
    }
  }

  /** A phase change inside one activation. */
  lemma KeepPhase(p: Program, s: State, k: nat, phase: Phase)
    requires Inv(p, s) && k < |s.procs| && s.procs[k].stack != [] && s.procs[k].ret == None
    requires Evaluating(Top(s.procs[k])) <==> phase.Accept?
    requires phase == Claim || (phase == Accept && Interesting(p, Top(s.procs[k]).name))
    ensures Inv(p, s.(procs := s.procs[k := Goto(s.procs[k], phase)]))
  {
    hide Interesting, StackInv, RetInv;
    var q' := Goto(s.procs[k], phase);
    PhaseStack(p, s, k, phase);
    MoveKeepsInv(p, s, s.(procs := s.procs[k := q']), k, q', None);
  }

  /** The type is recorded as interesting. */
  lemma KeepAccept(p: Program, s: State, k: nat)
    requires Inv(p, s) && k < |s.procs| && s.procs[k].stack != [] && s.procs[k].ret == None
    requires Top(s.procs[k]).phase == Accept && Top(s.procs[k]).name in p
    ensures Inv(p, Step(p, s, k))
  {
    hide Interesting;
    var q, s' := s.procs[k], Step(p, s, k);
    var t, q' := Top(q).name, Pop(q, true);
    assert FrameInv(p, s, k, Top(q));
    var i :| 0 <= i < |s.log| && s.log[i] == (k, t);
    assert s.log[i].1 == t;
    assert t !in s.raced by {
      assert Evaluating(q.stack[|q.stack| - 1]);
    }
    PoppedStack(p, s, s', k, true);
    MoveKeepsInv(p, s, s', k, q', Some(t));
  }

  /** The last verdict reaches the loop over the globals. */
  lemma KeepReturn(p: Program, s: State, k: nat)
    requires Inv(p, s) && k < |s.procs| && s.procs[k].stack == []
    ensures Inv(p, s.(procs := s.procs[k := s.procs[k].(ret := None)]))
  {
    hide Interesting;
    var q' := s.procs[k].(ret := None);
    MoveKeepsInv(p, s, s.(procs := s.procs[k := q']), k, q', None);
  }

  lemma KeepField(p: Program, s: State, k: nat, i: nat)
    requires Inv(p, s) && k < |s.procs| && s.procs[k].stack != [] && s.procs[k].ret == None
    requires Top(s.procs[k]).phase == Fields(i) && Top(s.procs[k]).name in p
    ensures Inv(p, Step(p, s, k))
  {
    hide Interesting;
    var q := s.procs[k];
    var t := Top(q).name;
    assert FrameInv(p, s, k, Top(q));
    InterestingIsFixedPoint(p, t);
    if i >= |p[t]| {
      if p[t] == [] {
        KeepPop(p, s, k, false);
      } else {
        assert forall m <- p[t] :: MemberInteresting(p, m);
        KeepPhase(p, s, k, Accept);
      }
    } else {
      var m := p[t][i];
      assert m in p[t];
      if m.Other? || m == Pointer(None) {
        KeepGoto(p, s, k, i);
      } else if m == Embedded(None) {
        assert !MemberInteresting(p, m);
        KeepPop(p, s, k, false);
      } else if m == Pointer(Some(t)) {
        assert RefersTo(p, t, t);
        CycleNotInteresting(p, [t, t]);
        KeepPop(p, s, k, false);
      } else {
        var u := m.target.value;
        assert Push(q, u).(globals := q.globals) == Push(q, u);
        KeepPush(p, s, k, u, q.globals);
      }
    }
  }

  lemma StepKeepsInv(p: Program, s: State, k: nat)
    requires Inv(p, s) && k < |s.procs| && Active(s.procs[k])
    ensures s.procs[k].stack != [] ==> Top(s.procs[k]).name in p
    ensures Inv(p, Step(p, s, k))
  {
    hide Interesting, Inv, MemberInteresting, Missed;
    var q := s.procs[k];
    if q.stack != [] {
      TopFrame(p, s, k);
    }
    StackOf(p, s, k);
    if q.ret.Some? {
      if q.stack == [] {
        KeepReturn(p, s, k);
      } else if q.ret.value && Top(q).phase.Fields? {
        KeepGoto(p, s, k, Top(q).phase.i);
      } else {
        KeepPop(p, s, k, false);
      }
    } else if q.stack == [] {
      KeepPush(p, s, k, q.globals[0], q.globals[1..]);
    } else {
      match Top(q).phase
      case Lookup =>
        if Top(q).name in s.interesting {
          KeepPop(p, s, k, true);
        } else {
          KeepPhase(p, s, k, Claim);
        }
      case Claim =>
        if Top(q).name in s.checked {
          KeepHit(p, s, k);
        } else {
          KeepClaim(p, s, k);
        }
      case Fields(i) =>
        KeepField(p, s, k, i);
      case Accept =>
        KeepAccept(p, s, k);
    }
  }

  // ---------- whole runs ----------

  predicate CanStep(p: Program, s: State, k: nat) {
    k < |s.procs| && Active(s.procs[k]) && (s.procs[k].stack != [] ==> Top(s.procs[k]).name in p)
  }

  /** The state after the processes took the steps that the schedule grants them. */
  function Run(p: Program, s: State, schedule: seq<nat>): Option<State>
    decreases |schedule|
  {
    if schedule == [] then Some(s)
    else if CanStep(p, s, schedule[0]) then Run(p, Step(p, s, schedule[0]), schedule[1..])
    else None
  }

  lemma {:induction false} RunKeepsInv(p: Program, s: State, schedule: seq<nat>)
    requires Inv(p, s) && Run(p, s, schedule).Some?
    ensures Inv(p, Run(p, s, schedule).value)
    decreases |schedule|
  {
    if schedule != [] {
      StepKeepsInv(p, s, schedule[0]);
      RunKeepsInv(p, Step(p, s, schedule[0]), schedule[1..]);
    }
  }

  /** Under every schedule: what is recorded as interesting is interesting and was checked, and no
      type is evaluated twice over the whole run. */
  lemma EveryRunIsSound(p: Program, s: State, schedule: seq<nat>)
    requires Closed(p) && Init(p, s) && Run(p, s, schedule).Some?
    ensures var r := Run(p, s, schedule).value;
            && r.interesting <= r.checked
            && (forall t <- r.interesting :: Interesting(p, t))
            && EvaluatedOnce(r)
            && (forall t :: t in r.checked <==> exists i :: 0 <= i < |r.log| && r.log[i].1 == t)
  {
    InitInv(p, s);
    RunKeepsInv(p, s, schedule);
  }

  /** A finished run has the exact verdicts if and only if no evaluation of an interesting type
      was cut short by a race. */
  lemma VerdictsExactUnlessRaced(p: Program, s: State, schedule: seq<nat>)
    requires Closed(p) && Init(p, s) && Run(p, s, schedule).Some? && Quiescent(Run(p, s, schedule).value)
    ensures var r := Run(p, s, schedule).value;
            (forall t <- r.checked :: t in r.interesting <==> Interesting(p, t)) <==> !Missed(p, r)
  {
    InitInv(p, s);
    RunKeepsInv(p, s, schedule);
    var r := Run(p, s, schedule).value;
    assert SharedInv(p, r);
    assert forall t :: !OnStack(r, t);
    assert forall t <- r.checked :: Settled(p, r, t);
  }

  // ---------- processes that share no interesting type ----------

  /** No interesting type can be reached from the globals of two processes. */
  ghost predicate Apart(p: Program, s0: State) {
    forall k, l, t :: 0 <= k < l < |s0.procs| && Reaches(p, s0.procs[k].globals, t)
        && Reaches(p, s0.procs[l].globals, t)
      ==> !Interesting(p, t)
  }

  /** What the processes have to do with is within their reach. */
  ghost predicate ReachInv(p: Program, s0: State, s: State) {
    && |s.procs| == |s0.procs|
    && (forall k, t :: 0 <= k < |s.procs| && t in s.procs[k].globals ==> t in s0.procs[k].globals)
    && (forall k, j :: 0 <= k < |s.procs| && 0 <= j < |s.procs[k].stack| ==>
          Reaches(p, s0.procs[k].globals, s.procs[k].stack[j].name))
  }

  ghost predicate AboutToClaim(q: Process) {
    q.stack != [] && Top(q).phase == Claim
  }

  /** A type about to be claimed is not recorded, and no race costs a verdict. */
  ghost predicate ApartInv(p: Program, s0: State, s: State) {
    && ReachInv(p, s0, s) && !Missed(p, s)
    && forall k :: 0 <= k < |s.procs| && AboutToClaim(s.procs[k]) ==> Top(s.procs[k]).name !in s.interesting
  }

  lemma AwaitsRefers(p: Program, f: Frame, u: string)
    requires Awaits(p, f, u)
    ensures RefersTo(p, f.name, u)
  {
    assert p[f.name][f.phase.i] in p[f.name];
  }

  /** The names on a stack form a path. */
  lemma StackIsPath(p: Program, s: State, k: nat, q: Process) returns (path: seq<string>)
    requires StackInv(p, s, k, q)
    ensures |path| == |q.stack| && IsPath(p, path)
    ensures forall j :: 0 <= j < |path| ==> path[j] == q.stack[j].name
  {
    path := seq(|q.stack|, j requires 0 <= j < |q.stack| => q.stack[j].name);
    forall j | 0 < j < |path| ensures RefersTo(p, path[j - 1], path[j]) {
      AwaitsRefers(p, q.stack[j - 1], q.stack[j].name);
    }
  }

  /** A type on a stack that another activation is about to claim is not interesting. */
  lemma MetOnStack(p: Program, s0: State, s: State, k: nat, t: string)
    requires Apart(p, s0) && ReachInv(p, s0, s) && k < |s.procs| && StackInv(p, s, k, s.procs[k])
    requires AboutToClaim(s.procs[k]) && Top(s.procs[k]).name == t && OnStack(s, t)
    ensures !Interesting(p, t)
  {
    hide Interesting, Reaches, RefersTo;
    var q, n := s.procs[k], |s.procs[k].stack|;
    var i, j :| 0 <= i < |s.procs| && 0 <= j < |s.procs[i].stack|
                && Evaluating(s.procs[i].stack[j]) && s.procs[i].stack[j].name == t;
    assert Reaches(p, s0.procs[i].globals, t) && Reaches(p, s0.procs[k].globals, q.stack[n - 1].name);
    if i == k {
      var path := StackIsPath(p, s, k, q);
      hide StackInv, ReachInv;
      assert path[n - 1] == t && path[j] == t && j < n - 1;
      CycleNotInteresting(p, path[j..]);
    }
  }

  /** A process that meets a claim meets one of its own, or a type that is not interesting. */
  lemma ApartHit(p: Program, s0: State, s: State, k: nat)
    requires Inv(p, s) && Apart(p, s0) && ApartInv(p, s0, s) && k < |s.procs|
    requires AboutToClaim(s.procs[k]) && Top(s.procs[k]).name in s.checked
    ensures !Interesting(p, Top(s.procs[k]).name)
    ensures |s.procs[k].stack| > 1 ==> !Interesting(p, s.procs[k].stack[|s.procs[k].stack| - 2].name)
  {
    var q := s.procs[k];
    var n, t := |q.stack|, Top(q).name;
    assert n > 1 ==> Awaits(p, q.stack[n - 2], t);
    assert StackInv(p, s, k, q) && Settled(p, s, t);
    hide Interesting, Apart, ReachInv, OnStack, StackInv, Inv, Missed, Awaits;
    if OnStack(s, t) {
      MetOnStack(p, s0, s, k, t);
    }
    if n > 1 {
      CallerRejected(p, q.stack[n - 2], t);
    }
  }

  /** A step leaves the names on the stack, less or more the last. */
  lemma StepShape(p: Program, s: State, k: nat)
    requires CanStep(p, s, k)
    ensures var q, q' := s.procs[k], Step(p, s, k).procs[k];
            && Step(p, s, k).procs == s.procs[k := q']
            && (forall j :: 0 <= j < |q'.stack| && j < |q.stack| ==> q'.stack[j].name == q.stack[j].name)
            && (|q'.stack| <= |q.stack| ==> q'.globals == q.globals)
            && (|q'.stack| > |q.stack| ==>
                  if q.stack != [] then |q'.stack| == |q.stack| + 1 && q'.globals == q.globals
                  else |q'.stack| == 1 && [q'.stack[0].name] + q'.globals == q.globals)
  {
  }

  lemma StepReaches(p: Program, s0: State, s: State, k: nat)
    requires Inv(p, s) && ReachInv(p, s0, s) && CanStep(p, s, k)
    ensures ReachInv(p, s0, Step(p, s, k))
  {
    var q, s' := s.procs[k], Step(p, s, k);
    var q', globals := s'.procs[k], s0.procs[k].globals;
    StepKeepsInv(p, s, k);
    assert StackInv(p, s', k, q') by { StackOf(p, s', k); }
    StepShape(p, s, k);
    hide Interesting, Reaches, RefersTo, Inv, StackInv, Step, CanStep;
    if |q'.stack| > |q.stack| {
      var u := Top(q').name;
      if q.stack == [] {
        assert q.globals[0] == u && forall g <- q'.globals :: g in q.globals;
        ReachesItself(p, globals, u);
      } else {
        TopAwaited(p, s', k, q');
        assert Reaches(p, globals, q.stack[|q.stack| - 1].name);
        ReachesField(p, globals, Top(q).name, u);
      }
    }
  }

  lemma StackOf(p: Program, s: State, k: nat)
    requires Inv(p, s) && k < |s.procs|
    ensures StackInv(p, s, k, s.procs[k]) && RetInv(p, s, s.procs[k])
  {
    hide StackInv, RetInv, SharedInv;
  }

  lemma TopAwaited(p: Program, s: State, k: nat, q: Process)
    requires StackInv(p, s, k, q) && |q.stack| > 1
    ensures RefersTo(p, q.stack[|q.stack| - 2].name, Top(q).name)
  {
    hide Interesting, RefersTo;
    AwaitsRefers(p, q.stack[|q.stack| - 2], Top(q).name);
  }

  lemma StepMissesNothing(p: Program, s0: State, s: State, k: nat)
    requires Inv(p, s) && Apart(p, s0) && ApartInv(p, s0, s) && CanStep(p, s, k)
    ensures !Missed(p, Step(p, s, k))
  {
    var q := s.procs[k];
    if q.ret == None && AboutToClaim(q) && Top(q).name in s.checked {
      ApartHit(p, s0, s, k);
    }
    hide Interesting, Inv, Reaches;
  }

  /** The processes l and k have to do with different interesting types. */
  lemma TopsDiffer(p: Program, s0: State, s: State, k: nat, l: nat)
    requires Apart(p, s0) && ReachInv(p, s0, s) && k < |s.procs| && l < |s.procs| && k != l
    requires s.procs[k].stack != [] && s.procs[l].stack != [] && Interesting(p, Top(s.procs[k]).name)
    ensures Top(s.procs[k]).name != Top(s.procs[l]).name
  {
    hide Interesting, Reaches;
    assert Reaches(p, s0.procs[k].globals, s.procs[k].stack[|s.procs[k].stack| - 1].name);
    assert Reaches(p, s0.procs[l].globals, s.procs[l].stack[|s.procs[l].stack| - 1].name);
  }

  /** A type that is recorded was not about to be claimed by another process. */
  lemma StepLeavesClaims(p: Program, s0: State, s: State, k: nat, l: nat)
    requires Inv(p, s) && Apart(p, s0) && ApartInv(p, s0, s) && CanStep(p, s, k)
    requires l < |s.procs| && AboutToClaim(Step(p, s, k).procs[l])
    ensures Top(Step(p, s, k).procs[l]).name !in Step(p, s, k).interesting
  {
    var q, s' := s.procs[k], Step(p, s, k);
    if l == k {
      OwnClaim(p, s, k);
    } else if s'.interesting != s.interesting {
      TopFrame(p, s, k);
      hide Interesting, Inv, Missed, ReachInv, Apart;
      TopsDiffer(p, s0, s, k, l);
    }
  }

  lemma OwnClaim(p: Program, s: State, k: nat)
    requires Inv(p, s) && CanStep(p, s, k) && AboutToClaim(Step(p, s, k).procs[k])
    ensures Top(Step(p, s, k).procs[k]).name !in Step(p, s, k).interesting
  {
    hide Interesting, Inv, FrameInv;
    var q := s.procs[k];
    if |q.stack| > 1 {
      StackOf(p, s, k);
      assert Awaits(p, q.stack[|q.stack| - 2], Top(q).name);
    }
    hide Awaits, StackInv, RetInv;
  }

  lemma ApartStep(p: Program, s0: State, s: State, k: nat)
    requires Inv(p, s) && Apart(p, s0) && ApartInv(p, s0, s) && CanStep(p, s, k)
    ensures ApartInv(p, s0, Step(p, s, k))
  {
    StepReaches(p, s0, s, k);
    StepMissesNothing(p, s0, s, k);
    hide Inv, Apart, Missed, ReachInv;
    var s' := Step(p, s, k);
    forall l | 0 <= l < |s'.procs| && AboutToClaim(s'.procs[l]) ensures Top(s'.procs[l]).name !in s'.interesting {
      StepLeavesClaims(p, s0, s, k, l);
    }
  }

  lemma {:induction false} ApartRun(p: Program, s0: State, s: State, schedule: seq<nat>)
    requires Inv(p, s) && Apart(p, s0) && ApartInv(p, s0, s) && Run(p, s, schedule).Some?
    ensures ApartInv(p, s0, Run(p, s, schedule).value)
    decreases |schedule|
  {
    if schedule != [] {
      hide Inv, Apart, ApartInv;
      StepKeepsInv(p, s, schedule[0]);
      ApartStep(p, s0, s, schedule[0]);
      ApartRun(p, s0, Step(p, s, schedule[0]), schedule[1..]);
    }
  }

  /** If the processes share no interesting type, every schedule that finishes has every verdict
      right. */
  lemma ApartRunsAreExact(p: Program, s: State, schedule: seq<nat>)
    requires Closed(p) && Init(p, s) && Apart(p, s)
    requires Run(p, s, schedule).Some? && Quiescent(Run(p, s, schedule).value)
    ensures var r := Run(p, s, schedule).value;
            forall t <- r.checked :: t in r.interesting <==> Interesting(p, t)
  {
    InitInv(p, s);
    hide Interesting, Apart, Closed, Inv;
    ApartRun(p, s, s, schedule);
    VerdictsExactUnlessRaced(p, s, schedule);
  }

  /** One process alone never loses a verdict. */
  lemma SoloRunIsExact(p: Program, s: State, schedule: seq<nat>)
    requires Closed(p) && Init(p, s) && |s.procs| == 1
    requires Run(p, s, schedule).Some? && Quiescent(Run(p, s, schedule).value)
    ensures var r := Run(p, s, schedule).value;
            forall t <- r.checked :: t in r.interesting <==> Interesting(p, t)
  {
    hide Interesting, Closed;
    ApartRunsAreExact(p, s, schedule);
  }

  // ---------- coverage and termination ----------

  /** Every global's type is still to come, being looked up, or checked. */
  ghost predicate Covered(s0: State, s: State) {
    && |s.procs| == |s0.procs|
    && forall k, t :: 0 <= k < |s.procs| && t in s0.procs[k].globals ==>
         || t in s.procs[k].globals || t in s.checked
         || (s.procs[k].stack != [] && s.procs[k].stack[0].name == t)
  }

  lemma StepCovers(p: Program, s0: State, s: State, k: nat)
    requires Inv(p, s) && Covered(s0, s) && CanStep(p, s, k)
    ensures Covered(s0, Step(p, s, k))
  {
    hide Interesting, MemberInteresting, Awaits, Settled, OnStack, EvaluatedOnce, Missed;
    var q, s' := s.procs[k], Step(p, s, k);
    var q' := s'.procs[k];
    if q.stack != [] {
      assert FrameInv(p, s, k, Top(q));
      if Evaluating(Top(q)) {
        var i :| 0 <= i < |s.log| && s.log[i] == (k, Top(q).name);
        assert s.log[i].1 == Top(q).name;
      }
      if |q.stack| > 1 {
        assert q'.stack != [] && q'.stack[0].name == q.stack[0].name;
      }
    } else if q.ret == None {
      assert forall t <- q.globals :: t == q.globals[0] || t in q.globals[1..];
    }
  }

  lemma {:induction false} RunCovers(p: Program, s0: State, s: State, schedule: seq<nat>)
    requires Inv(p, s) && Covered(s0, s) && Run(p, s, schedule).Some?
    ensures Covered(s0, Run(p, s, schedule).value)
    decreases |schedule|
  {
    if schedule != [] {
      StepKeepsInv(p, s, schedule[0]);
      StepCovers(p, s0, s, schedule[0]);
      RunCovers(p, s0, Step(p, s, schedule[0]), schedule[1..]);
    }
  }

  /** A finished run has checked the type of every global. */
  lemma FinishedRunCheckedEveryGlobal(p: Program, s: State, schedule: seq<nat>)
    requires Closed(p) && Init(p, s) && Run(p, s, schedule).Some? && Quiescent(Run(p, s, schedule).value)
    ensures forall k, t :: 0 <= k < |s.procs| && t in s.procs[k].globals ==> t in Run(p, s, schedule).value.checked
  {
    InitInv(p, s);
    RunCovers(p, s, s, schedule);
    var r := Run(p, s, schedule).value;
    assert forall k :: 0 <= k < |r.procs| ==> !Active(r.procs[k]);
  }

  /** An upper bound on the steps a frame can take before the next type is claimed: while it waits
      for a verdict, and while it is the one to move. */
  ghost function WaitWork(p: Program, f: Frame): nat {
    if f.phase.Fields? && f.name in p && f.phase.i < |p[f.name]| then 6 * (|p[f.name]| - f.phase.i) - 3 else 0
  }

  ghost function ReadyWork(p: Program, f: Frame): nat {
    match f.phase
    case Lookup => 4
    case Claim => 3
    case Accept => 2
    case Fields(i) => if f.name in p && i < |p[f.name]| then 6 * (|p[f.name]| - i) + 3 else 3
  }

  ghost function Waiting(p: Program, stack: seq<Frame>): nat {
    if stack == [] then 0 else Waiting(p, stack[..|stack| - 1]) + WaitWork(p, stack[|stack| - 1])
  }

  ghost function ProcessWork(p: Program, q: Process): nat {
    5 * |q.globals| +
    if q.ret.Some? then Waiting(p, q.stack) + 1
    else if q.stack == [] then 0
    else Waiting(p, q.stack[..|q.stack| - 1]) + ReadyWork(p, Top(q))
  }

  ghost function Work(p: Program, procs: seq<Process>): nat {
    if procs == [] then 0 else Work(p, procs[..|procs| - 1]) + ProcessWork(p, procs[|procs| - 1])
  }

  lemma {:induction false} WorkUpdate(p: Program, procs: seq<Process>, k: nat, q: Process)
    requires k < |procs|
    ensures Work(p, procs[k := q]) == Work(p, procs) - ProcessWork(p, procs[k]) + ProcessWork(p, q)
  {
    var n := |procs| - 1;
    if k < n {
      assert procs[k := q][..n] == procs[..n][k := q];
      WorkUpdate(p, procs[..n], k, q);
    } else {
      assert procs[k := q][..n] == procs[..n];
    }
  }

  ghost function Unclaimed(p: Program, s: State): nat {
    |p.Keys - s.checked|
  }

  /** Each step claims a type, or brings its process closer to the next claim. */
  lemma StepMakesProgress(p: Program, s: State, k: nat)
    requires Inv(p, s) && CanStep(p, s, k)
    ensures || Unclaimed(p, Step(p, s, k)) < Unclaimed(p, s)
            || (Unclaimed(p, Step(p, s, k)) == Unclaimed(p, s) && Work(p, Step(p, s, k).procs) < Work(p, s.procs))
  {
    hide Interesting, SharedInv, StackInv, RetInv, ProcessWork;
    var q, s' := s.procs[k], Step(p, s, k);
    var q' := s'.procs[k];
    if q.ret == None && q.stack != [] && Top(q).phase == Claim && Top(q).name !in s.checked {
      assert p.Keys - s'.checked == p.Keys - s.checked - {Top(q).name};
    } else {
      WorkUpdate(p, s.procs, k, q');
      LocalProgress(p, s, k);
    }
  }

  lemma LocalProgress(p: Program, s: State, k: nat)
    requires Inv(p, s) && CanStep(p, s, k)
    requires s.procs[k].ret == None && s.procs[k].stack != [] && Top(s.procs[k]).phase == Claim
             ==> Top(s.procs[k]).name in s.checked
    ensures ProcessWork(p, Step(p, s, k).procs[k]) < ProcessWork(p, s.procs[k])
  {
    if s.procs[k].stack == [] {
      GlobalProgress(p, s, k);
    } else {
      TopFrame(p, s, k);
      FrameProgress(p, s, k);
    }
  }

  /** A process with no activation drops a verdict or visits a global. */
  lemma GlobalProgress(p: Program, s: State, k: nat)
    requires CanStep(p, s, k) && s.procs[k].stack == []
    ensures ProcessWork(p, Step(p, s, k).procs[k]) < ProcessWork(p, s.procs[k])
  {
    assert Waiting(p, []) == 0;
    if s.procs[k].ret == None {
      assert Step(p, s, k).procs[k].stack[..0] == [];
    }
  }

  lemma FrameProgress(p: Program, s: State, k: nat)
    requires CanStep(p, s, k) && s.procs[k].stack != [] && FrameInv(p, s, k, Top(s.procs[k]))
    requires RetInv(p, s, s.procs[k])
    requires s.procs[k].ret == None && Top(s.procs[k]).phase == Claim ==> Top(s.procs[k]).name in s.checked
    ensures ProcessWork(p, Step(p, s, k).procs[k]) < ProcessWork(p, s.procs[k])
  {
    hide Interesting, MemberInteresting, Missed, ProcessWork, Waiting;
    StackProgress(p, s.procs[k], Step(p, s, k).procs[k], Top(s.procs[k]));
  }

  lemma TopFrame(p: Program, s: State, k: nat)
    requires Inv(p, s) && k < |s.procs| && s.procs[k].stack != []
    ensures FrameInv(p, s, k, Top(s.procs[k]))
  {
    hide Interesting, SharedInv;
  }

  /** Popping, moving on and pushing change what the frames below wait for in no other way. */
  lemma StackProgress(p: Program, q: Process, q': Process, f: Frame)
    requires q.stack != [] && f == Top(q)
    requires q'.globals == q.globals
    requires || (|q'.stack| == |q.stack| - 1 && q'.stack == q.stack[..|q.stack| - 1] && q'.ret.Some?
                 && (q.ret.Some? ==> WaitWork(p, f) > 0))
             || (|q'.stack| == |q.stack| && q'.stack[..|q.stack| - 1] == q.stack[..|q.stack| - 1] && q'.ret == None
                 && (if q.ret.Some? then ReadyWork(p, Top(q')) < WaitWork(p, f) + 1
                     else ReadyWork(p, Top(q')) < ReadyWork(p, f)))
             || (|q'.stack| == |q.stack| + 1 && q'.stack[..|q.stack|] == q.stack && q'.ret == None && q.ret == None
                 && WaitWork(p, f) + ReadyWork(p, Top(q')) < ReadyWork(p, f))
    ensures ProcessWork(p, q') < ProcessWork(p, q)
  {
    var n := |q.stack| - 1;
    assert Waiting(p, q.stack) == Waiting(p, q.stack[..n]) + WaitWork(p, f);
  }

  /** Under any endless scheduling that only ever idles when nothing is left to do, the processes
      finish. */
  lemma {:induction false} EveryRunFinishes(p: Program, run: nat -> State, from: nat)
    requires Inv(p, run(from))
    requires forall n: nat :: n >= from && !Quiescent(run(n)) ==>
               exists k: nat :: CanStep(p, run(n), k) && run(n + 1) == Step(p, run(n), k)
    ensures exists n: nat :: n >= from && Quiescent(run(n))
    decreases Unclaimed(p, run(from)), Work(p, run(from).procs)
  {
    hide Inv, Interesting, Work, Unclaimed, Step;
    var s := run(from);
    if !Quiescent(s) {
      var k: nat :| CanStep(p, s, k) && run(from + 1) == Step(p, s, k);
      StepKeepsInv(p, s, k);
      StepMakesProgress(p, s, k);
      EveryRunFinishes(p, run, from + 1);
    }
  }

  /** A process with work left can always take a step. */
  lemma NeverStuck(p: Program, s: State)
    requires Inv(p, s) && !Quiescent(s)
    ensures exists k: nat :: CanStep(p, s, k)
  {
    hide Interesting;
    var k :| 0 <= k < |s.procs| && Active(s.procs[k]);
    if s.procs[k].stack != [] {
      assert FrameInv(p, s, k, Top(s.procs[k]));
    }
    assert CanStep(p, s, k);
  }

  // ---------- a race that loses a verdict ----------

  const TWO_TYPES: Program := map["A" := [Other], "B" := [Pointer(Some("A"))]]

  /** Two processes: one evaluates A, the other evaluates B, whose only field points to A. */
  const TWO_GLOBALS: State := State({}, {}, [Process(["A"], [], None), Process(["B"], [], None)], [], {})

  /** The first process claims A; the second meets the claim and rejects B; then A is accepted. */
  const BAD_SCHEDULE: seq<nat> := [0, 0, 0] + [1, 1, 1] + [1, 1] + [1, 1, 1] + [0, 0] + [0, 0]

  function Done(): Process {
    Process([], [], None)
  }

  function At(frames: seq<Frame>): Process {
    Process([], frames, None)
  }

  lemma StepTo(p: Program, s: State, k: nat, s': State)
    requires CanStep(p, s, k) && |s'.procs| == |s.procs|
    requires forall i :: 0 <= i < |s.procs| && i != k ==> s'.procs[i] == s.procs[i]
    requires Step(p, s, k).procs[k].globals == s'.procs[k].globals
    requires Step(p, s, k).procs[k].stack == s'.procs[k].stack
    requires Step(p, s, k).procs[k].ret == s'.procs[k].ret
    requires Step(p, s, k).interesting == s'.interesting && Step(p, s, k).checked == s'.checked
    requires Step(p, s, k).log == s'.log && Step(p, s, k).raced == s'.raced
    ensures Step(p, s, k) == s'
  {
    assert Step(p, s, k).procs == s'.procs;
  }

  ghost function Claimed(s: State, k: nat, t: string): State
    requires k < |s.procs|
  {
    State(s.interesting, s.checked + {t}, s.procs[k := At([Frame(t, Fields(0))])], s.log + [(k, t)], s.raced)
  }

  /** A process visits its last global and claims the type. */
  lemma VisitsAndClaims(p: Program, s: State, k: nat, t: string)
    requires k < |s.procs| && s.procs[k] == Process([t], [], None)
    requires t in p && t !in s.interesting && t !in s.checked && t !in BLACKLIST
    ensures Run(p, s, [k, k, k]) == Some(Claimed(s, k, t))
  {
    var s1 := s.(procs := s.procs[k := At([Frame(t, Lookup)])]);
    var s2 := s.(procs := s.procs[k := At([Frame(t, Claim)])]);
    var r := Claimed(s, k, t);
    assert Step(p, s, k) == s1 by {
      Visits(p, s, k, t);
    }
    assert Step(p, s1, k) == s2 by {
      LooksUp(p, s1, k, t);
      assert s1.procs[k := At([Frame(t, Claim)])] == s2.procs;
    }
    assert Step(p, s2, k) == r by {
      Claims(p, s2, k, t);
      assert s2.procs[k := At([Frame(t, Fields(0))])] == r.procs;
    }
    hide Step, Claimed, At;
    RunOf(p, [s, s1, s2, r], [k, k, k]);
  }

  lemma Visits(p: Program, s: State, k: nat, t: string)
    requires k < |s.procs| && s.procs[k] == Process([t], [], None)
    ensures CanStep(p, s, k) && Step(p, s, k) == s.(procs := s.procs[k := At([Frame(t, Lookup)])])
  {
    assert [] + [Frame(t, Lookup)] == [Frame(t, Lookup)];
    assert [t][1..] == [];
  }

  lemma LooksUp(p: Program, s: State, k: nat, t: string)
    requires k < |s.procs| && s.procs[k] == At([Frame(t, Lookup)]) && t in p && t !in s.interesting
    ensures CanStep(p, s, k) && Step(p, s, k) == s.(procs := s.procs[k := At([Frame(t, Claim)])])
  {
    assert [Frame(t, Lookup)][..0] + [Frame(t, Claim)] == [Frame(t, Claim)];
  }

  lemma Claims(p: Program, s: State, k: nat, t: string)
    requires k < |s.procs| && s.procs[k] == At([Frame(t, Claim)]) && t in p && t !in s.checked && t !in BLACKLIST
    ensures CanStep(p, s, k) && Step(p, s, k) == Claimed(s, k, t)
  {
    assert [Frame(t, Claim)][..0] + [Frame(t, Fields(0))] == [Frame(t, Fields(0))];
  }

  /** The first process claims A. */
  lemma FirstClaimsA() returns (s: State)
    ensures s == State({}, {"A"}, [At([Frame("A", Fields(0))]), Process(["B"], [], None)], [(0, "A")], {})
    ensures Run(TWO_TYPES, TWO_GLOBALS, [0, 0, 0]) == Some(s)
  {
    hide Run, At;
    s := Claimed(TWO_GLOBALS, 0, "A");
    VisitsAndClaims(TWO_TYPES, TWO_GLOBALS, 0, "A");
  }

  /** The second process claims B. */
  lemma SecondClaimsB(s: State) returns (r: State)
    requires s == State({}, {"A"}, [At([Frame("A", Fields(0))]), Process(["B"], [], None)], [(0, "A")], {})
    ensures r == State({}, {"A", "B"}, [s.procs[0], At([Frame("B", Fields(0))])], [(0, "A"), (1, "B")], {})
    ensures Run(TWO_TYPES, s, [1, 1, 1]) == Some(r)
  {
    hide Run, At;
    r := Claimed(s, 1, "B");
    VisitsAndClaims(TWO_TYPES, s, 1, "B");
  }

  /** It asks about A, which is neither free nor interesting yet. */
  lemma SecondAsksForA(s: State) returns (r: State)
    requires |s.procs| == 2 && s.procs[1] == At([Frame("B", Fields(0))]) && s.interesting == {}
    ensures r == s.(procs := [s.procs[0], At([Frame("B", Fields(0)), Frame("A", Claim)])])
    ensures Run(TWO_TYPES, s, [1, 1]) == Some(r)
  {
    var p, a := TWO_TYPES, s.procs[0];
    var s1 := s.(procs := [a, At([Frame("B", Fields(0)), Frame("A", Lookup)])]);
    r := s.(procs := [a, At([Frame("B", Fields(0)), Frame("A", Claim)])]);
    StepTo(p, s, 1, s1);
    StepTo(p, s1, 1, r);
    RunOf(p, [s, s1, r], [1, 1]);
  }

  /** It rejects B. */
  lemma SecondRejectsB(s: State) returns (r: State)
    requires |s.procs| == 2 && s.procs[1] == At([Frame("B", Fields(0)), Frame("A", Claim)])
    requires s.checked == {"A", "B"} && s.raced == {}
    ensures r == s.(procs := [s.procs[0], Done()], raced := {"B"})
    ensures Run(TWO_TYPES, s, [1, 1, 1]) == Some(r)
  {
    var p, a := TWO_TYPES, s.procs[0];
    var s1 := s.(procs := [a, At([Frame("B", Fields(0))]).(ret := Some(false))], raced := {"B"});
    var s2 := s1.(procs := [a, Done().(ret := Some(false))]);
    r := s1.(procs := [a, Done()]);
    StepTo(p, s, 1, s1);
    StepTo(p, s1, 1, s2);
    StepTo(p, s2, 1, r);
    RunOf(p, [s, s1, s2, r], [1, 1, 1]);
  }

  /** Only then does the first process reach the end of A's fields. */
  lemma FirstEndsFields(s: State) returns (r: State)
    requires |s.procs| == 2 && s.procs[0] == At([Frame("A", Fields(0))])
    ensures r == s.(procs := [At([Frame("A", Accept)]), s.procs[1]])
    ensures Run(TWO_TYPES, s, [0, 0]) == Some(r)
  {
    var p, d := TWO_TYPES, s.procs[1];
    var s1 := s.(procs := [At([Frame("A", Fields(1))]), d]);
    r := s.(procs := [At([Frame("A", Accept)]), d]);
    StepTo(p, s, 0, s1);
    StepTo(p, s1, 0, r);
    RunOf(p, [s, s1, r], [0, 0]);
  }

  /** And A is accepted. */
  lemma FirstAcceptsA(s: State) returns (r: State)
    requires |s.procs| == 2 && s.procs[0] == At([Frame("A", Accept)]) && s.interesting == {}
    ensures r == s.(procs := [Done(), s.procs[1]], interesting := {"A"})
    ensures Run(TWO_TYPES, s, [0, 0]) == Some(r)
  {
    var p, d := TWO_TYPES, s.procs[1];
    var s1 := s.(procs := [Done().(ret := Some(true)), d], interesting := {"A"});
    r := s1.(procs := [Done(), d]);
    StepTo(p, s, 0, s1);
    StepTo(p, s1, 0, r);
    RunOf(p, [s, s1, r], [0, 0]);
  }

  /** Completeness fails under interleaving: B is interesting, was checked, and is lost for good. */
  lemma RaceLosesVerdict()
    ensures Closed(TWO_TYPES) && Init(TWO_TYPES, TWO_GLOBALS)
    ensures Run(TWO_TYPES, TWO_GLOBALS, BAD_SCHEDULE).Some?
    ensures var r := Run(TWO_TYPES, TWO_GLOBALS, BAD_SCHEDULE).value;
            Quiescent(r) && Interesting(TWO_TYPES, "B") && "B" in r.checked && "B" !in r.interesting
  {
    hide Run, Step;
    var p := TWO_TYPES;
    assert Within(p, "A", 1);
    assert MemberWithin(p, Pointer(Some("A")), 1);
    assert Within(p, "B", 2);
    var a := FirstClaimsA();
    var b := SecondClaimsB(a);
    RunAppend(p, TWO_GLOBALS, [0, 0, 0], [1, 1, 1]);
    var c := SecondAsksForA(b);
    RunAppend(p, TWO_GLOBALS, [0, 0, 0] + [1, 1, 1], [1, 1]);
    var d := SecondRejectsB(c);
    RunAppend(p, TWO_GLOBALS, [0, 0, 0] + [1, 1, 1] + [1, 1], [1, 1, 1]);
    var e := FirstEndsFields(d);
    RunAppend(p, TWO_GLOBALS, [0, 0, 0] + [1, 1, 1] + [1, 1] + [1, 1, 1], [0, 0]);
    var f := FirstAcceptsA(e);
    RunAppend(p, TWO_GLOBALS, [0, 0, 0] + [1, 1, 1] + [1, 1] + [1, 1, 1] + [0, 0], [0, 0]);
  }

  lemma {:induction false} RunAppend(p: Program, s: State, first: seq<nat>, second: seq<nat>)
    requires Run(p, s, first).Some?
    ensures Run(p, s, first + second) == Run(p, Run(p, s, first).value, second)
    decreases |first|
  {
    if first == [] {
      assert first + second == second;
    } else {
      assert (first + second)[1..] == first[1..] + second;
      RunAppend(p, Step(p, s, first[0]), first[1..], second);
    }
  }

  lemma {:induction false} RunOf(p: Program, states: seq<State>, schedule: seq<nat>)
    requires |states| == |schedule| + 1
    requires forall i :: 0 <= i < |schedule| ==>
               CanStep(p, states[i], schedule[i]) && states[i + 1] == Step(p, states[i], schedule[i])
    ensures Run(p, states[0], schedule) == Some(states[|schedule|])
    decreases |schedule|
  {
    if schedule != [] {
      RunOf(p, states[1..], schedule[1..]);
    }
  }
}
