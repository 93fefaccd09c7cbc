/** Stage 2 of the roafteriniter plugin, which logs writes, and the script that reads the log
    (contrib/roafteriniter/roafteriniter.c, contrib/roafteriniter/postprocess.py). */
module Stage2 {
  import opened Prelude
  import opened SharedCache
  import opened LogFormat

  /** The left-hand side of an assignment.  A struct type without a name is `Struct(None)`. */
  datatype VarType = Struct(name: Option<string>) | NotStruct

  datatype Base = Variable(name: string, isGlobal: bool, annotated: bool, vartype: VarType) | NotVariable

  datatype Lhs = Component(base: Base) | OtherLhs

  datatype Assign = Assign(lhs: Lhs, fnname: string, fnInit: bool)

  // what "%s" prints for the null name of an anonymous struct
  const NULL_NAME := "(null)"

  // ---------- which writes are logged ----------

  /** A write to a field of a global that is not annotated yet. */
  predicate Candidate(a: Assign) {
    && a.lhs.Component? && a.lhs.base.Variable?
    && a.lhs.base.isGlobal && !a.lhs.base.annotated && a.lhs.base.vartype.Struct?
  }

  function EntryOf(a: Assign): Entry
    requires Candidate(a)
  {
    var b := a.lhs.base;
    Entry(b.name, if b.vartype.name.Some? then b.vartype.name.value else NULL_NAME, a.fnname,
          if a.fnInit then "OK" else "NK")
  }

  /** The code's test: cache_contains rejects a null name with CACHE_EINVAL, which is not
      CACHE_CONTAINS_FAILED, so a write to an anonymous struct is logged as well. */
  predicate Logged(interesting: set<string>, a: Assign) {
    Candidate(a) && (a.lhs.base.vartype.name == None || a.lhs.base.vartype.name.value in interesting)
  }

  /** The documented test. */
  predicate WriteToInteresting(interesting: set<string>, a: Assign) {
    Candidate(a) && a.lhs.base.vartype.name.Some? && a.lhs.base.vartype.name.value in interesting
  }

  /** The names in a write are identifiers. */
  ghost predicate IsAssign(a: Assign) {
    match a
    case Assign(Component(Variable(v, true, false, Struct(t))), fn, init) =>
      IsName(v) && IsName(fn) && (t.Some? ==> IsName(t.value))
    case _ => true
  }

  /** The line that the plugin prints for the write. */
  function LineOf(a: Assign): string
    requires Candidate(a)
  {
    Truncate(Line(EntryOf(a)))
  }

  // ---------- the log ----------

  /** The log after the assignments, when it held `items` before: each line once, in the order of the
      first write that calls for it. */
  ghost function Log(known: set<string>, items: seq<string>, assigns: seq<Assign>): seq<string> {
    if assigns == [] then items
    else
      var before, a := Log(known, items, assigns[..|assigns| - 1]), assigns[|assigns| - 1];
      if Logged(known, a) && LineOf(a) !in before then before + [LineOf(a)] else before
  }

  ghost function LoggedLines(known: set<string>, assigns: seq<Assign>): set<string> {
    set a | a in assigns && Logged(known, a) :: LineOf(a)
  }

  ghost function DocumentedLines(known: set<string>, assigns: seq<Assign>): set<string> {
    set a | a in assigns && WriteToInteresting(known, a) :: LineOf(a)
  }

  lemma {:induction false} LogHolds(known: set<string>, items: seq<string>, assigns: seq<Assign>)
    ensures Elements(Log(known, items, assigns)) == Elements(items) + LoggedLines(known, assigns)
  {
    hide Candidate, LineOf;
    if assigns != [] {
      var n := |assigns| - 1;
      LogHolds(known, items, assigns[..n]);
      var before, a := Log(known, items, assigns[..n]), assigns[n];
      LinesNext(known, assigns);
      if Logged(known, a) && LineOf(a) !in before {
        assert Elements(before + [LineOf(a)]) == Elements(before) + {LineOf(a)};
      } else if Logged(known, a) {
        assert LineOf(a) in Elements(before);
      }
    }
  }

  lemma LinesNext(known: set<string>, assigns: seq<Assign>)
    requires assigns != []
    ensures var n := |assigns| - 1;
            LoggedLines(known, assigns) ==
            LoggedLines(known, assigns[..n]) + if Logged(known, assigns[n]) then {LineOf(assigns[n])} else {}
  {
    var n := |assigns| - 1;
    assert assigns == assigns[..n] + [assigns[n]];
    hide Candidate, LineOf;
  }

  lemma {:induction false} LogAppend(known: set<string>, items: seq<string>, xs: seq<Assign>, ys: seq<Assign>)
    ensures Log(known, items, xs + ys) == Log(known, Log(known, items, xs), ys)
  {
    hide Logged, LineOf;
    if ys == [] {
      assert xs + ys == xs;
    } else {
      assert (xs + ys)[..|xs + ys| - 1] == xs + ys[..|ys| - 1];
      LogAppend(known, items, xs, ys[..|ys| - 1]);
    }
  }

  /** The log only grows. */
  lemma {:induction false} LogGrows(known: set<string>, items: seq<string>, assigns: seq<Assign>)
    ensures items <= Log(known, items, assigns) && Bytes(items) <= Bytes(Log(known, items, assigns))
  {
    hide Logged, LineOf;
    if assigns != [] {
      LogGrows(known, items, assigns[..|assigns| - 1]);
      var before, all := Log(known, items, assigns[..|assigns| - 1]), Log(known, items, assigns);
      BytesAppend(before, all[|before|..]);
      assert all == before + all[|before|..];
    }
  }

  /** The log holds exactly the documented writes if and only if every write to a variable of an
      anonymous type prints a line that a documented write prints as well. */
  lemma LoggedAsDocumented(known: set<string>, assigns: seq<Assign>)
    ensures Elements(Log(known, [], assigns)) == DocumentedLines(known, assigns) <==>
            forall a <- assigns :: Candidate(a) && a.lhs.base.vartype.name == None ==>
                LineOf(a) in DocumentedLines(known, assigns)
  {
    LogHolds(known, [], assigns);
    hide LineOf;
    if forall a <- assigns :: Candidate(a) && a.lhs.base.vartype.name == None ==>
        LineOf(a) in DocumentedLines(known, assigns) {
      assert LoggedLines(known, assigns) <= DocumentedLines(known, assigns) by {
        forall a <- assigns | Logged(known, a) ensures LineOf(a) in DocumentedLines(known, assigns) {
          assert a.lhs.base.vartype.name == None || WriteToInteresting(known, a);
        }
      }
    } else {
      var a :| a in assigns && Candidate(a) && a.lhs.base.vartype.name == None
          && LineOf(a) !in DocumentedLines(known, assigns);
      assert LineOf(a) in LoggedLines(known, assigns);
    }
  }

  const ANONYMOUS_WRITE := Assign(Component(Variable("v", true, false, Struct(None))), "f", false)

  /** One write for which it does not. */
  lemma AnonymousIsLogged(known: set<string>)
    ensures IsAssign(ANONYMOUS_WRITE)
    ensures Log(known, [], [ANONYMOUS_WRITE]) == ["v:v t:(null) fn:f status:NK"]
            && DocumentedLines(known, [ANONYMOUS_WRITE]) == {}
  {
    var a := ANONYMOUS_WRITE;
    assert Logged(known, a) && !WriteToInteresting(known, a);
    AnonymousLine();
    hide LineOf, Logged, WriteToInteresting, IsAssign;
    assert [a][..0] == [] && Log(known, [], []) == [];
  }

  lemma AnonymousLine()
    ensures LineOf(ANONYMOUS_WRITE) == "v:v t:(null) fn:f status:NK"
  {
    assert EntryOf(ANONYMOUS_WRITE) == Entry("v", "(null)", "f", "NK");
  }

  /** The log holds, besides what was there, exactly these lines: for each write to a field of a
      global that is not annotated, whose struct type is known or has no name, the variable, the type,
      the function and whether that is an init function, cut after 98 characters. */
  lemma LogInFields(known: set<string>, items: seq<string>, assigns: seq<Assign>, l: string)
    ensures l in Log(known, items, assigns) <==>
            || l in items
            || exists a <- assigns ::
                 match a
                 case Assign(Component(Variable(v, true, false, Struct(t))), fn, init) =>
                   var line := "v:" + v + " t:" + (if t.Some? then t.value else "(null)") + " fn:" + fn
                               + " status:" + (if init then "OK" else "NK");
                   (t == None || t.value in known) && l == if |line| <= 98 then line else line[..98]
                 case _ => false
  {
    LogHolds(known, items, assigns);
    assert l in Log(known, items, assigns) <==> l in Elements(Log(known, items, assigns));
    hide Log, Line;
    LoggedInFields(known, assigns, l);
  }

  lemma LoggedInFields(known: set<string>, assigns: seq<Assign>, l: string)
    ensures l in LoggedLines(known, assigns) <==>
            exists a <- assigns ::
              match a
              case Assign(Component(Variable(v, true, false, Struct(t))), fn, init) =>
                var line := "v:" + v + " t:" + (if t.Some? then t.value else "(null)") + " fn:" + fn
                            + " status:" + (if init then "OK" else "NK");
                (t == None || t.value in known) && l == if |line| <= 98 then line else line[..98]
              case _ => false
  {
  }

  lemma OneInFields(known: set<string>, items: seq<string>, a: Assign)
    ensures match a
            case Assign(Component(Variable(v, true, false, Struct(t))), fn, init) =>
              var line := "v:" + v + " t:" + (if t.Some? then t.value else "(null)") + " fn:" + fn
                          + " status:" + (if init then "OK" else "NK");
              var cut := if |line| <= 98 then line else line[..98];
              Log(known, items, [a]) == if (t == None || t.value in known) && cut !in items then items + [cut]
                  else items
            case _ => Log(known, items, [a]) == items
  {
    LogOne(known, items, a);
    hide Log;
  }

  // ---------- the plugin ----------

  class Plugin {
    const interesting: Cache
    const results: Cache

    constructor (interesting: Cache, results: Cache)
      ensures this.interesting == interesting && this.results == results
    {
      this.interesting, this.results := interesting, results;
    }

    ghost predicate Valid()
      reads interesting, interesting.data, results, results.data
    {
      && interesting.Valid() && results.Valid()
      && interesting != results && interesting.data != results.data
      && results.size + LINELEN < TWO_TO_THE_64
    }

    ghost function Known(): set<string>
      reads interesting
    {
      Elements(interesting.items)
    }

    /** The lookup of the type leaves the mapping: the cache of types is full, and lacks it. */
    ghost predicate ScanLeaves(a: Assign)
      reads interesting
    {
      match a
      case Assign(Component(Variable(v, true, false, Struct(Some(t)))), fn, init) =>
        t !in interesting.items && interesting.length == interesting.data.Length
      case _ => false
    }

    ghost predicate Fits(log: seq<string>) {
      Bytes(log) <= results.data.Length
    }

    /** rai_check_assign_stmt: the log gains the line that the statement calls for, if it lacks it.
        The process dies exactly if the lookup leaves the mapping or the line does not fit, and then
        the log is as it was. */
    method CheckAssignStmt(a: Assign) returns (died: bool)
      requires Valid() && IsAssign(a)
      modifies results`length, results`count, results`items, results.data
      ensures Valid()
      ensures died <==> ScanLeaves(a) || !Fits(Log(Known(), old(results.items), [a]))
      ensures results.items == if died then old(results.items) else Log(Known(), old(results.items), [a])
      ensures !died ==>
                match a
                case Assign(Component(Variable(v, true, false, Struct(t))), fn, init) =>
                  var line := "v:" + v + " t:" + (if t.Some? then t.value else "(null)") + " fn:" + fn
                              + " status:" + (if init then "OK" else "NK");
                  var cut := if |line| <= 98 then line else line[..98];
                  results.items == if (t == None || t.value in interesting.items) && cut !in old(results.items)
                                   then old(results.items) + [cut] else old(results.items)
                case _ => results.items == old(results.items)
    {
      ghost var items := results.items;
      LogOne(Known(), items, a);
      OneInFields(Known(), items, a);
      hide Log, Truncate, Line;
      ItemsFit();
      died := false;
      if !a.lhs.Component? {
        return;
      }
      var variable := a.lhs.base;
      if !variable.Variable? {
        return;
      }
      if !variable.isGlobal || variable.annotated {
        return;
      }
      if !variable.vartype.Struct? {
        return;
      }
      var typename := variable.vartype.name;
      if typename.Some? {
        assert IsName(typename.value);
        var found := interesting.Contains(typename.value);
        if found == Overrun {
          return true;
        }
        if found == ContainsFailed {
          return;
        }
      }
      var buffer := Truncate(Line(EntryOf(a)));
      LineIsCString(EntryOf(a));
      BytesAppend(items, [buffer]);
      hide Truncate, Line, EntryOf, IsAssign, Cache.Valid;
      var r := results.NotContainsInsert(buffer);
      died := r != InsertionSuccess && r != ContainsSuccess;
    }

    lemma ItemsFit()
      requires Valid()
      ensures results.length == Bytes(results.items) && Fits(results.items)
              && results.data.Length == results.size - HEADER
    {
      FlattenLength(results.items);
    }

    /** rai_stage2_execute over the assignments of a translation unit, in order.  The process dies
        exactly if some lookup leaves the mapping or the log of all the assignments does not fit; the
        log then holds what the assignments before that call for. */
    method Execute(assigns: seq<Assign>) returns (died: bool)
      requires Valid() && forall a <- assigns :: IsAssign(a)
      modifies results`length, results`count, results`items, results.data
      ensures Valid()
      ensures died <==> (exists a <- assigns :: ScanLeaves(a)) || !Fits(Log(Known(), old(results.items), assigns))
      ensures !died ==> results.items == Log(Known(), old(results.items), assigns)
      ensures died ==> exists k: nat :: k < |assigns| && results.items == Log(Known(), old(results.items), assigns[..k])
    {
      hide Cache.Valid, Log, ScanLeaves, IsAssign, Bytes;
      ghost var start := results.items;
      LogNothing(Known(), start);
      ItemsFit();
      for i := 0 to |assigns|
        invariant Valid() && (forall a <- assigns[..i] :: !ScanLeaves(a)) && Fits(results.items)
        invariant results.items == Log(Known(), start, assigns[..i])
      {
        assert assigns[..i + 1] == assigns[..i] + [assigns[i]];
        LogAppend(Known(), start, assigns[..i], [assigns[i]]);
        LogAppend(Known(), start, assigns[..i + 1], assigns[i + 1..]);
        assert assigns[..i + 1] + assigns[i + 1..] == assigns;
        LogGrows(Known(), Log(Known(), start, assigns[..i + 1]), assigns[i + 1..]);
        died := CheckAssignStmt(assigns[i]);
        if died {
          assert assigns[i] in assigns;
          return;
        }
      }
      assert assigns[..|assigns|] == assigns;
      died := false;
    }
  }

  lemma LogOne(known: set<string>, items: seq<string>, a: Assign)
    ensures Log(known, items, [a]) == if Logged(known, a) && LineOf(a) !in items then items + [LineOf(a)] else items
  {
    hide Logged, LineOf;
    assert [a][..0] == [];
    LogNothing(known, items);
  }

  lemma LogNothing(known: set<string>, items: seq<string>)
    ensures Log(known, items, []) == items
  {
  }

  lemma LineIsCString(e: Entry)
    requires IsEntry(e)
    ensures IsCString(Truncate(Line(e))) && 0 < |Truncate(Line(e))| < LINELEN
  {
    var (f0, f1, f2, f3) := Fields(e);
    LineFields(e);
    assert NUL !in e.status;
  }
}
