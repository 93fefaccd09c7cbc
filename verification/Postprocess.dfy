/** The script that reads the log of the roafteriniter plugin, and the two together
    (contrib/roafteriniter/postprocess.py, contrib/roafteriniter/roafteriniter.c). */
module Postprocess {
  import opened Prelude
  import opened SharedCache
  import opened LogFormat
  import opened Stage2

  // ---------- the script ----------

  ghost function Pairs(entries: set<Entry>, ok: bool): set<(string, string)> {
    set e | e in entries && (e.status == "OK") == ok :: (e.varname, e.typename)
  }

  ghost function Parsed(lines: seq<string>): set<Entry> {
    set l | l in lines && ParseLine(l).Some? :: ParseLine(l).value
  }

  /** What the script prints; None is an exception. */
  ghost function Report(lines: seq<string>): Option<set<(string, string)>> {
    if forall l <- lines :: ParseLine(l).Some?
    then Some(Pairs(Parsed(lines), true) - Pairs(Parsed(lines), false))
    else None
  }

  method Postprocess(lines: seq<string>) returns (r: Option<set<(string, string)>>)
    ensures r == Report(lines)
  {
    var allEntries: set<Entry> := {};
    for i := 0 to |lines|
      invariant forall l <- lines[..i] :: ParseLine(l).Some?
      invariant allEntries == Parsed(lines[..i])
    {
      var le := ParseLine(lines[i]);
      assert lines[i] in lines;
      if le == None {
        return None;
      }
      assert lines[..i + 1] == lines[..i] + [lines[i]];
      allEntries := allEntries + {le.value};
      assert allEntries == Parsed(lines[..i + 1]);
    }
    assert lines[..|lines|] == lines;
    var okVars: set<(string, string)> := {};
    var nkVars: set<(string, string)> := {};
    var todo := allEntries;
    while todo != {}
      invariant todo <= allEntries
      invariant okVars == Pairs(allEntries - todo, true) && nkVars == Pairs(allEntries - todo, false)
    {
      var entry :| entry in todo;
      if entry.status == "OK" {
        okVars := okVars + {(entry.varname, entry.typename)};
      } else {
        nkVars := nkVars + {(entry.varname, entry.typename)};
      }
      PairsAdd(allEntries - todo, entry);
      assert allEntries - (todo - {entry}) == (allEntries - todo) + {entry};
      todo := todo - {entry};
    }
    assert allEntries - todo == allEntries;
    return Some(okVars - nkVars);
  }

  lemma PairsAdd(entries: set<Entry>, e: Entry)
    ensures forall ok :: Pairs(entries + {e}, ok) ==
              Pairs(entries, ok) + (if (e.status == "OK") == ok then {(e.varname, e.typename)} else {})
  {
    forall ok ensures Pairs(entries + {e}, ok) ==
              Pairs(entries, ok) + (if (e.status == "OK") == ok then {(e.varname, e.typename)} else {})
    {
      var l, r := Pairs(entries + {e}, ok),
        Pairs(entries, ok) + (if (e.status == "OK") == ok then {(e.varname, e.typename)} else {});
      forall x ensures x in l <==> x in r {
        if x in Pairs(entries, ok) {
          var d :| d in entries && (d.status == "OK") == ok && x == (d.varname, d.typename);
          assert d in entries + {e};
        }
        if (e.status == "OK") == ok && x == (e.varname, e.typename) {
          assert e in entries + {e};
        }
      }
    }
  }

  // ---------- what the log tells ----------

  ghost function StoredLines(entries: set<Entry>): set<string> {
    set e <- entries :: Truncate(Line(e))
  }

  /** The pairs written by an init function and by no other. */
  ghost function InitOnly(entries: set<Entry>): set<(string, string)> {
    Pairs(entries, true) - Pairs(entries, false)
  }

  /** The report is right exactly when every stored line keeps its status field and no init write
      loses part of its status word, unless the variable is written by another function anyway. */
  lemma ReportIsInitOnly(entries: set<Entry>, lines: seq<string>)
    requires forall e <- entries :: IsEntry(e)
    requires Elements(lines) == StoredLines(entries)
    ensures Report(lines) == Some(InitOnly(entries)) <==>
            forall e <- entries ::
              && Kept(e) >= 0
              && (e.status == "OK" && |Line(e)| > MAX_LINE ==> (e.varname, e.typename) in Pairs(entries, false))
  {
    if e :| e in entries && Kept(e) < 0 {
      ParseStoredLine(e);
      assert Truncate(Line(e)) in StoredLines(entries);
      assert Truncate(Line(e)) in lines;
      assert Report(lines) == None;
    } else {
      AllParsed(entries, lines);
      ParsedPairs(entries, Parsed(lines));
      var fit, cut, nk := OkPairs(entries, true), OkPairs(entries, false), Pairs(entries, false);
      OkSplit(entries);
      assert Report(lines) == Some(fit - (nk + cut));
      assert InitOnly(entries) == fit + cut - nk;
      assert fit - (nk + cut) == fit + cut - nk <==> cut <= nk by {
        if fit - (nk + cut) == fit + cut - nk {
          forall x <- cut ensures x in nk {
            assert x !in fit - (nk + cut);
          }
        }
      }
      assert cut <= nk <==>
             forall e <- entries :: e.status == "OK" && |Line(e)| > MAX_LINE ==> (e.varname, e.typename) in nk by {
        CutPairs(entries, nk);
      }
    }
  }

  lemma CutPairs(entries: set<Entry>, nk: set<(string, string)>)
    ensures OkPairs(entries, false) <= nk <==>
            forall e <- entries :: e.status == "OK" && |Line(e)| > MAX_LINE ==> (e.varname, e.typename) in nk
  {
    if OkPairs(entries, false) <= nk {
      forall e | e in entries && e.status == "OK" && |Line(e)| > MAX_LINE ensures (e.varname, e.typename) in nk {
        assert (e.varname, e.typename) in OkPairs(entries, false);
      }
    }
  }

  /** The pairs of the init writes whose lines fit, and of those whose lines were cut. */
  ghost function OkPairs(entries: set<Entry>, fits: bool): set<(string, string)> {
    set e | e in entries && e.status == "OK" && (|Line(e)| <= MAX_LINE) == fits :: (e.varname, e.typename)
  }

  lemma OkSplit(entries: set<Entry>)
    ensures Pairs(entries, true) == OkPairs(entries, true) + OkPairs(entries, false)
  {
    forall x <- Pairs(entries, true) ensures x in OkPairs(entries, true) + OkPairs(entries, false) {
      var e :| e in entries && e.status == "OK" && x == (e.varname, e.typename);
      assert x in OkPairs(entries, |Line(e)| <= MAX_LINE);
    }
  }

  /** A line that was cut inside its status word counts as a write from a normal function. */
  lemma ParsedPairs(entries: set<Entry>, parsed: set<Entry>)
    requires forall e <- entries :: IsEntry(e) && Kept(e) >= 0
    requires parsed == set e <- entries :: e.(status := e.status[..Kept(e)])
    ensures Pairs(parsed, true) == OkPairs(entries, true)
    ensures Pairs(parsed, false) == Pairs(entries, false) + OkPairs(entries, false)
  {
    forall e <- entries
      ensures e.(status := e.status[..Kept(e)]) in parsed
      ensures e.status[..Kept(e)] == "OK" <==> e.status == "OK" && |Line(e)| <= MAX_LINE
    {
      if |Line(e)| <= MAX_LINE {
        assert e.status[..Kept(e)] == e.status;
      }
    }
    forall x <- Pairs(parsed, true) ensures x in OkPairs(entries, true) {
      var d :| d in parsed && d.status == "OK" && x == (d.varname, d.typename);
      var e :| e in entries && d == e.(status := e.status[..Kept(e)]);
    }
    forall x <- OkPairs(entries, true) ensures x in Pairs(parsed, true) {
      var e :| e in entries && e.status == "OK" && |Line(e)| <= MAX_LINE && x == (e.varname, e.typename);
      assert e.(status := e.status[..Kept(e)]) in parsed;
    }
    forall x <- Pairs(parsed, false) ensures x in Pairs(entries, false) + OkPairs(entries, false) {
      var d :| d in parsed && d.status != "OK" && x == (d.varname, d.typename);
      var e :| e in entries && d == e.(status := e.status[..Kept(e)]);
      assert x == (e.varname, e.typename);
    }
    forall e | e in entries && (e.status != "OK" || |Line(e)| > MAX_LINE)
      ensures (e.varname, e.typename) in Pairs(parsed, false) {
      assert e.(status := e.status[..Kept(e)]) in parsed;
    }
  }

  lemma AllParsed(entries: set<Entry>, lines: seq<string>)
    requires forall e <- entries :: IsEntry(e) && Kept(e) >= 0
    requires Elements(lines) == StoredLines(entries)
    ensures forall l <- lines :: ParseLine(l).Some?
    ensures Parsed(lines) == set e <- entries :: e.(status := e.status[..Kept(e)])
  {
    forall l <- lines ensures ParseLine(l).Some? {
      assert l in StoredLines(entries);
      var e :| e in entries && l == Truncate(Line(e));
      ParseStoredLine(e);
    }
    var a, b := Parsed(lines), set e <- entries :: e.(status := e.status[..Kept(e)]);
    forall x <- a ensures x in b {
      var l :| l in lines && ParseLine(l) == Some(x);
      assert l in StoredLines(entries);
      var e :| e in entries && l == Truncate(Line(e));
      ParseStoredLine(e);
    }
    forall x <- b ensures x in a {
      var e :| e in entries && x == e.(status := e.status[..Kept(e)]);
      ParseStoredLine(e);
      var l := Truncate(Line(e));
      assert l in StoredLines(entries);
      assert l in lines;
    }
  }

  /** A write by an init function whose line is one character too long: its status is cut to "O", and
      the report takes it for a write by another function. */
  lemma CutStatusMisread()
    ensures var e := LONG_WRITE;
            IsEntry(e) && |Line(e)| == MAX_LINE + 1 && Kept(e) == 1
                && Report([Truncate(Line(e))]) != Some(InitOnly({e}))
  {
    var e := LONG_WRITE;
    assert forall c <- e.varname :: c == 'a';
    assert |Line(e)| == MAX_LINE + 1;
    var lines := [Truncate(Line(e))];
    assert lines[0] in lines && e in {e};
    assert Elements(lines) == StoredLines({e});
    ReportIsInitOnly({e}, lines);
    assert Pairs({e}, false) == {};
  }

  const LONG_WRITE := Entry(seq(78, _ => 'a'), "t", "f", "OK")

  // ---------- end to end ----------

  /** The write a is logged as one to the variable v of the struct type t. */
  ghost predicate Writes(known: set<string>, a: Assign, v: string, t: string) {
    || (a.lhs == Component(Variable(v, true, false, Struct(Some(t)))) && t in known)
    || (a.lhs == Component(Variable(v, true, false, Struct(None))) && t == "(null)")
  }

  ghost predicate WrittenBy(known: set<string>, assigns: seq<Assign>, v: string, t: string, init: bool) {
    exists a <- assigns :: a.fnInit == init && Writes(known, a, v, t)
  }

  /** No logged line is cut before its status; and where the status of an init write is cut, the
      variable is written by another function as well. */
  ghost predicate ReadsBack(known: set<string>, assigns: seq<Assign>) {
    forall a <- assigns, v, t | Writes(known, a, v, t) ::
      var n := |"v:" + v + " t:" + t + " fn:" + a.fnname + " status:OK"|;
      n <= 100 && (a.fnInit && n > 98 ==> WrittenBy(known, assigns, v, t, false))
  }

  ghost function LoggedEntries(known: set<string>, assigns: seq<Assign>): set<Entry> {
    set a | a in assigns && Logged(known, a) :: EntryOf(a)
  }

  lemma WritesEntry(known: set<string>, a: Assign, v: string, t: string)
    ensures Writes(known, a, v, t) <==> Logged(known, a) && EntryOf(a).varname == v && EntryOf(a).typename == t
  {
  }

  lemma PairsWritten(known: set<string>, assigns: seq<Assign>, v: string, t: string, init: bool)
    ensures (v, t) in Pairs(LoggedEntries(known, assigns), init) <==> WrittenBy(known, assigns, v, t, init)
  {
    hide Writes;
    if (v, t) in Pairs(LoggedEntries(known, assigns), init) {
      var e :| e in LoggedEntries(known, assigns) && (e.status == "OK") == init && (v, t) == (e.varname, e.typename);
      var a :| a in assigns && Logged(known, a) && e == EntryOf(a);
      WritesEntry(known, a, v, t);
      assert a.fnInit == init;
    }
    if a :| a in assigns && a.fnInit == init && Writes(known, a, v, t) {
      WritesEntry(known, a, v, t);
      assert EntryOf(a) in LoggedEntries(known, assigns);
    }
  }

  lemma LinesStored(known: set<string>, assigns: seq<Assign>)
    ensures StoredLines(LoggedEntries(known, assigns)) == LoggedLines(known, assigns)
  {
    hide EntryOf, Truncate, Line;
    forall a <- assigns | Logged(known, a) ensures LineOf(a) in StoredLines(LoggedEntries(known, assigns)) {
      assert EntryOf(a) in LoggedEntries(known, assigns);
    }
  }

  /** A write reads back as ReadsBack says. */
  lemma EntryReadsBack(known: set<string>, assigns: seq<Assign>, a: Assign)
    requires a in assigns && Logged(known, a)
    ensures var e := EntryOf(a);
            && Writes(known, a, e.varname, e.typename)
            && |Line(e)| == |"v:" + e.varname + " t:" + e.typename + " fn:" + a.fnname + " status:OK"|
            && (Kept(e) >= 0 <==> |Line(e)| <= 100) && (e.status == "OK" <==> a.fnInit)
            && ((e.varname, e.typename) in Pairs(LoggedEntries(known, assigns), false) <==>
                WrittenBy(known, assigns, e.varname, e.typename, false))
  {
    var e := EntryOf(a);
    WritesEntry(known, a, e.varname, e.typename);
    PairsWritten(known, assigns, e.varname, e.typename, false);
  }

  lemma EntriesReadBack(known: set<string>, assigns: seq<Assign>)
    ensures ReadsBack(known, assigns) <==>
            forall e <- LoggedEntries(known, assigns) ::
              && Kept(e) >= 0
              && (e.status == "OK" && |Line(e)| > MAX_LINE ==>
                    (e.varname, e.typename) in Pairs(LoggedEntries(known, assigns), false))
  {
    var entries := LoggedEntries(known, assigns);
    forall a <- assigns | Logged(known, a)
      ensures EntryOf(a) in entries && Writes(known, a, EntryOf(a).varname, EntryOf(a).typename)
    {
      EntryReadsBack(known, assigns, a);
    }
    if ReadsBack(known, assigns) {
      forall e <- entries
        ensures Kept(e) >= 0
        ensures e.status == "OK" && |Line(e)| > MAX_LINE ==> (e.varname, e.typename) in Pairs(entries, false)
      {
        var a :| a in assigns && Logged(known, a) && e == EntryOf(a);
        EntryReadsBack(known, assigns, a);
        hide Pairs, Kept, Line, EntryOf, Logged, Writes, WrittenBy, LoggedEntries;
      }
    } else {
      var a, v, t :| a in assigns && Writes(known, a, v, t)
                     && var n := |"v:" + v + " t:" + t + " fn:" + a.fnname + " status:OK"|;
                        !(n <= 100 && (a.fnInit && n > 98 ==> WrittenBy(known, assigns, v, t, false)));
      WritesEntry(known, a, v, t);
      EntryReadsBack(known, assigns, a);
      hide Pairs, Kept, Line, EntryOf, Logged, Writes, WrittenBy, LoggedEntries;
    }
  }

  /** From the assignments of any number of translation units, in whatever order the compilers log
      them, to the report: it names exactly the variables that only init functions write, if and only
      if the lines read back well enough. */
  lemma EndToEnd(known: set<string>, assigns: seq<Assign>, lines: seq<string>)
    requires (forall a <- assigns :: IsAssign(a)) && Elements(lines) == LoggedLines(known, assigns)
    ensures IsRight(Report(lines), known, assigns) <==> ReadsBack(known, assigns)
  {
    var entries := LoggedEntries(known, assigns);
    LinesStored(known, assigns);
    assert forall e <- entries :: IsEntry(e);
    hide Report, Kept, Line, IsEntry, IsAssign, LoggedLines, StoredLines, Pairs, LoggedEntries, Writes, WrittenBy;
    ReportIsInitOnly(entries, lines);
    EntriesReadBack(known, assigns);
    forall v, t ensures (v, t) in InitOnly(entries) <==>
                        WrittenBy(known, assigns, v, t, true) && !WrittenBy(known, assigns, v, t, false) {
      PairsWritten(known, assigns, v, t, true);
      PairsWritten(known, assigns, v, t, false);
    }
    hide InitOnly, ReadsBack;
    RightReports(Report(lines), InitOnly(entries), known, assigns);
  }

  /** The report names the variables that only init functions write. */
  ghost predicate IsRight(report: Option<set<(string, string)>>, known: set<string>, assigns: seq<Assign>) {
    && report.Some?
    && forall v, t :: (v, t) in report.value <==>
                      WrittenBy(known, assigns, v, t, true) && !WrittenBy(known, assigns, v, t, false)
  }

  lemma RightReports(report: Option<set<(string, string)>>, right: set<(string, string)>, known: set<string>,
                     assigns: seq<Assign>)
    requires IsRight(Some(right), known, assigns)
    ensures IsRight(report, known, assigns) <==> report == Some(right)
  {
    hide WrittenBy;
    if IsRight(report, known, assigns) {
      forall pair ensures pair in report.value <==> pair in right {
        var (v, t) := pair;
        assert (v, t) in report.value <==> (v, t) in right;
      }
      assert report.value == right;
    }
  }

  datatype Ending =
    | Died                                   // a compiler
    | LeftMapping                            // cachereader
    | Finished(report: Option<set<(string, string)>>)

  ghost function Concat(units: seq<seq<Assign>>): seq<Assign> {
    if units == [] then [] else Concat(units[..|units| - 1]) + units[|units| - 1]
  }

  /** Stage 2 of the build of some translation units into an empty log, then cachereader, with its own
      mapping, and the script. */
  method LogAndReport(plugin: Plugin, units: seq<seq<Assign>>) returns (r: Ending)
    requires plugin.Valid() && plugin.results.items == [] && forall a <- Concat(units) :: IsAssign(a)
    modifies plugin.results`length, plugin.results`count, plugin.results`items, plugin.results.data
    ensures plugin.Valid()
    ensures var log := Log(plugin.Known(), [], Concat(units));
            && (r == Died <==> (exists a <- Concat(units) :: plugin.ScanLeaves(a)) || !plugin.Fits(log))
            && (r == LeftMapping ==>
                  Bytes(log) == plugin.results.data.Length || HEADER + Bytes(log) >= READER_PAGES * PAGE)
            && (r.Finished? ==>
                  && Bytes(log) < plugin.results.data.Length && HEADER + Bytes(log) < READER_PAGES * PAGE
                  && (IsRight(r.report, plugin.Known(), Concat(units)) <==>
                      ReadsBack(plugin.Known(), Concat(units))))
  {
    hide IsAssign, Cache.Valid, Log, Bytes, Plugin.ScanLeaves, Report, IsRight, ReadsBack;
    ghost var known := plugin.Known();
    LogNothing(known, []);
    plugin.ItemsFit();
    for i := 0 to |units|
      invariant plugin.Valid() && plugin.results.items == Log(known, [], Concat(units[..i]))
                && plugin.Fits(plugin.results.items)
      invariant forall a <- Concat(units[..i]) :: !plugin.ScanLeaves(a)
    {
      UnitNext(units, i);
      LogAppend(known, [], Concat(units[..i]), units[i]);
      var died := plugin.Execute(units[i]);
      if died {
        RestGrows(known, units, i + 1);
        return Died;
      }
      plugin.ItemsFit();
    }
    assert units[..|units|] == units;
    plugin.ItemsFit();
    var inside, lines := plugin.results.Traverse(READER_PAGES * PAGE);
    if !inside {
      return LeftMapping;
    }
    LogHolds(known, [], Concat(units));
    assert Elements(lines) == LoggedLines(known, Concat(units));
    EndToEnd(known, Concat(units), lines);
    var report := Postprocess(lines);
    return Finished(report);
  }

  lemma UnitNext(units: seq<seq<Assign>>, i: nat)
    requires i < |units|
    ensures Concat(units[..i + 1]) == Concat(units[..i]) + units[i]
    ensures forall a <- units[i] :: a in Concat(units)
    ensures forall a <- Concat(units[..i]) :: a in Concat(units)
  {
    assert units[..i + 1][..i] == units[..i];
    var rest := UnitsRest(units, i + 1);
    assert forall a <- Concat(units[..i + 1]) :: a in Concat(units);
  }

  lemma {:induction false} UnitsRest(units: seq<seq<Assign>>, i: nat) returns (rest: seq<Assign>)
    requires i <= |units|
    ensures Concat(units) == Concat(units[..i]) + rest
    decreases |units|
  {
    if i == |units| {
      assert units[..i] == units;
      rest := [];
    } else {
      var n := |units| - 1;
      var less := UnitsRest(units[..n], i);
      assert units[..n][..i] == units[..i];
      rest := less + units[n];
    }
  }

  lemma RestGrows(known: set<string>, units: seq<seq<Assign>>, i: nat)
    requires i <= |units|
    ensures Bytes(Log(known, [], Concat(units[..i]))) <= Bytes(Log(known, [], Concat(units)))
  {
    hide Log, Bytes;
    var rest := UnitsRest(units, i);
    LogAppend(known, [], Concat(units[..i]), rest);
    LogGrows(known, Log(known, [], Concat(units[..i])), rest);
  }
}
