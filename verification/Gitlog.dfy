/** Reading `git log --name-only` back into commits (contrib/syzbot-autotriager/git.py). */
module Gitlog {
  import opened Prelude
  import opened LogFormat

  datatype Gitcommit = Gitcommit(commitid: string, title: string, body: string, files: string)

  // ---------- strings ----------

  function LStrip(s: string): string {
    if s != "" && IsSpace(s[0]) then LStrip(s[1..]) else s
  }

  function RStrip(s: string): string {
    if s != "" && IsSpace(s[|s| - 1]) then RStrip(s[..|s| - 1]) else s
  }

  function Strip(s: string): string {
    RStrip(LStrip(s))
  }

  /** What is stripped is the longest part in the middle that neither begins nor ends with a space. */
  lemma StripIsMiddle(s: string) returns (i: nat, j: nat)
    ensures i <= j <= |s| && Strip(s) == s[i..j]
    ensures forall k :: 0 <= k < i || j <= k < |s| ==> s[k] in " \t\n\r"
    ensures i < j ==> s[i] !in " \t\n\r" && s[j - 1] !in " \t\n\r"
  {
    i := LStripIsRest(s);
    j := RStripIsFront(s[i..]);
    j := i + j;
  }

  lemma {:induction false} LStripIsRest(s: string) returns (i: nat)
    ensures i <= |s| && LStrip(s) == s[i..]
    ensures forall k :: 0 <= k < i ==> s[k] in " \t\n\r"
    ensures i < |s| ==> s[i] !in " \t\n\r"
  {
    i := 0;
    if s != "" && IsSpace(s[0]) {
      i := LStripIsRest(s[1..]);
      assert forall k :: 0 < k < i + 1 ==> s[k] == s[1..][k - 1];
      i := i + 1;
    }
  }

  lemma {:induction false} RStripIsFront(s: string) returns (j: nat)
    ensures j <= |s| && RStrip(s) == s[..j]
    ensures forall k :: j <= k < |s| ==> s[k] in " \t\n\r"
    ensures 0 < j ==> s[j - 1] !in " \t\n\r"
  {
    j := |s|;
    if s != "" && IsSpace(s[|s| - 1]) {
      j := RStripIsFront(s[..|s| - 1]);
    }
  }

  /** Not empty, and with no space at either end. */
  ghost predicate IsTrimmed(s: string) {
    s != "" && !IsSpace(s[0]) && !IsSpace(s[|s| - 1])
  }

  predicate CommitStart(line: string) {
    "commit" <= line
  }

  predicate MergeCommit(line: string) {
    "Merge:" <= line
  }

  // ---------- what the parser reads ----------

  /** The number of indented lines at the head of s. */
  function BodyLines(s: seq<string>): (n: nat)
    ensures n <= |s|
  {
    if s != [] && !CommitStart(s[0]) && " " <= s[0] then 1 + BodyLines(s[1..]) else 0
  }

  /** s starts no longer with an indented line. */
  ghost predicate Unindented(s: seq<string>) {
    s == [] || CommitStart(s[0]) || !(" " <= s[0])
  }

  /** The number of lines before the next commit. */
  function UntilCommit(s: seq<string>): (n: nat)
    ensures n <= |s|
  {
    if s != [] && !CommitStart(s[0]) then 1 + UntilCommit(s[1..]) else 0
  }

  function Body(lines: seq<string>): string {
    if lines == [] then "" else Body(lines[..|lines| - 1]) + (Strip(lines[|lines| - 1]) + "\n")
  }

  /** The body is the stripped lines one after the other, each ended by a newline. */
  lemma {:induction false} BodyAppend(xs: seq<string>, ys: seq<string>)
    ensures Body(xs + ys) == Body(xs) + Body(ys)
  {
    hide Strip;
    if ys == [] {
      assert xs + ys == xs && Body(xs) + "" == Body(xs);
    } else {
      var n := |ys| - 1;
      assert (xs + ys)[..|xs + ys| - 1] == xs + ys[..n];
      BodyAppend(xs, ys[..n]);
      assert (Body(xs) + Body(ys[..n])) + (Strip(ys[n]) + "\n") == Body(xs) + (Body(ys[..n]) + (Strip(ys[n]) + "\n"));
    }
  }

  lemma BodyLine(l: string)
    ensures Body([]) == "" && Body([l]) == Strip(l) + "\n"
  {
    hide Strip;
    assert [l][..0] == [];
  }

  lemma BodyNext(t: seq<string>, n: nat)
    requires n < |t|
    ensures Body(t[..n + 1]) == Body(t[..n]) + (Strip(t[n]) + "\n")
    ensures !CommitStart(t[n]) && " " <= t[n] ==> BodyLines(t[n..]) == 1 + BodyLines(t[n + 1..])
  {
    assert t[..n + 1][..n] == t[..n];
    assert t[n..][1..] == t[n + 1..];
  }

  lemma BodyFirst(t: seq<string>)
    ensures Body(t[..0]) == "" && BodyLines(t[0..]) == BodyLines(t)
  {
    assert t[0..] == t;
  }

  lemma BodyStops(t: seq<string>, n: nat)
    requires n <= |t| && Unindented(t[n..]) && BodyLines(t) == n + BodyLines(t[n..])
    ensures BodyLines(t) == n && AfterBody(t) == if n < |t| && !CommitStart(t[n]) then t[n + 1..] else t[n..]
  {
    if n < |t| {
      assert t[n..][1..] == t[n + 1..];
    }
  }

  function Files(lines: seq<string>): string {
    if lines == [] then ""
    else
      var last := lines[|lines| - 1];
      Files(lines[..|lines| - 1]) + if Strip(last) == "" then "" else last + "\n"
  }

  /** The files are the lines that are not blank, each ended by a newline. */
  lemma {:induction false} FilesAppend(xs: seq<string>, ys: seq<string>)
    ensures Files(xs + ys) == Files(xs) + Files(ys)
  {
    hide Strip;
    if ys == [] {
      assert xs + ys == xs && Files(xs) + "" == Files(xs);
    } else {
      var n := |ys| - 1;
      assert (xs + ys)[..|xs + ys| - 1] == xs + ys[..n];
      FilesAppend(xs, ys[..n]);
      var last := if Strip(ys[n]) == "" then "" else ys[n] + "\n";
      assert (Files(xs) + Files(ys[..n])) + last == Files(xs) + (Files(ys[..n]) + last);
    }
  }

  lemma FileLine(l: string)
    ensures Files([]) == ""
    ensures Files([l]) == if forall k :: 0 <= k < |l| ==> l[k] in " \t\n\r" then "" else l + "\n"
  {
    var i, j := StripIsMiddle(l);
    hide Strip;
    assert [l][..0] == [] && Files([]) == "";
  }

  function Drop(s: seq<string>, n: nat): seq<string> {
    if n <= |s| then s[n..] else []
  }

  /** The lines after the first one that is not indented; that one is dropped, unless it starts a
      commit. */
  function AfterBody(t: seq<string>): seq<string> {
    var after := t[BodyLines(t)..];
    if after != [] && !CommitStart(after[0]) then after[1..] else after
  }

  /** The commit at the head of s, if its header is whole. */
  function Head(s: seq<string>, clean: string -> string): Option<Gitcommit>
    requires s != []
  {
    if |Words(s[0])| < 2 || |s| <= 4 then None
    else
      var t := Drop(s, 6);
      var u := AfterBody(t);
      var (body, files) := (Body(t[..BodyLines(t)]), Files(u[..UntilCommit(u)]));
      Some(Gitcommit(Words(s[0])[1], clean(Strip(s[4])), body, Strip(files)))
  }

  /** What is left of s after that commit. */
  function Tail(s: seq<string>): (r: seq<string>)
    requires |s| > 4
    ensures |r| < |s|
  {
    var u := AfterBody(Drop(s, 6));
    u[UntilCommit(u)..]
  }

  /** The commits in the lines; None is an IndexError. */
  function Parse(s: seq<string>, clean: string -> string): Option<seq<Gitcommit>>
    decreases |s|
  {
    if s == [] then Some([])
    else if !CommitStart(s[0]) then Parse(s[1..], clean)
    else if |s| == 1 then None
    else if MergeCommit(s[1]) then Parse(s[1..], clean)
    else if Head(s, clean) == None then None
    else Prepend([Head(s, clean).value], Parse(Tail(s), clean))
  }

  function Prepend(a: seq<Gitcommit>, r: Option<seq<Gitcommit>>): Option<seq<Gitcommit>> {
    if r.Some? then Some(a + r.value) else None
  }

  lemma PrependTwice(a: seq<Gitcommit>, b: seq<Gitcommit>, r: Option<seq<Gitcommit>>)
    ensures Prepend(a, Prepend(b, r)) == Prepend(a + b, r)
  {
    if r.Some? {
      assert a + (b + r.value) == (a + b) + r.value;
    }
  }

  lemma PrependNothing(r: Option<seq<Gitcommit>>)
    ensures Prepend([], r) == r
  {
    if r.Some? {
      assert [] + r.value == r.value;
    }
  }

  class Gitlog {
    const contents: seq<string>
    const clean: string -> string           // utils.clean_git_title
    var commits: seq<Gitcommit>

    constructor (contents: seq<string>, clean: string -> string)
      ensures this.contents == contents && this.clean == clean && commits == []
    {
      this.contents, this.clean, commits := contents, clean, [];
    }

    function From(i: nat): seq<string> {
      Drop(contents, i)
    }

    method ReadBody(start: nat) returns (body: string, i: nat)
      ensures var t := From(start);
              body == Body(t[..BodyLines(t)]) && i >= start && From(i) == AfterBody(t)
    {
      ghost var t := From(start);
      hide Body, Strip, BodyLines, AfterBody, CommitStart;
      i, body := start, "";
      BodyFirst(t);
      while i < |contents| && !CommitStart(contents[i])
        invariant i >= start && (i > start ==> i <= |contents|)
        invariant i - start <= |t| && From(i) == t[i - start..]
        invariant body == Body(t[..i - start]) && BodyLines(t) == i - start + BodyLines(From(i))
        decreases |contents| - i
      {
        assert t[i - start] == contents[i];
        if !(" " <= contents[i]) {
          BodyStops(t, i - start);
          i := i + 1;
          return;
        }
        BodyNext(t, i - start);
        body := body + (Strip(contents[i]) + "\n");
        i := i + 1;
      }
      BodyStops(t, i - start);
    }

    method ReadFiles(start: nat) returns (files: string, i: nat)
      ensures var u := From(start);
              files == Files(u[..UntilCommit(u)]) && i >= start && From(i) == u[UntilCommit(u)..]
    {
      i, files := start, "";
      while i < |contents| && !CommitStart(contents[i])
        invariant i >= start && (i > start ==> i <= |contents|)
        invariant i - start <= |From(start)| && files == Files(From(start)[..i - start])
        invariant UntilCommit(From(start)) == i - start + UntilCommit(From(i))
        decreases |contents| - i
      {
        var u := From(start);
        assert u[..i + 1 - start] == u[..i - start] + [contents[i]];
        if Strip(contents[i]) != "" {
          files := files + (contents[i] + "\n");
        }
        i := i + 1;
      }
    }

    /** parse_log; ok is false when a list index ends the program. */
    method ParseLog() returns (ok: bool)
      requires commits == []
      modifies this
      ensures if ok then Parse(contents, clean) == Some(commits) else Parse(contents, clean) == None
    {
      var i: nat := 0;
      assert From(0) == contents;
      PrependNothing(Parse(contents, clean));
      while i < |contents|
        invariant Parse(contents, clean) == Prepend(commits, Parse(From(i), clean))
        decreases |contents| - i
      {
        if CommitStart(contents[i]) {
          if i + 1 >= |contents| {
            return false;
          }
          assert From(i)[1..] == From(i + 1);
          if MergeCommit(contents[i + 1]) {
            i := i + 1;
            continue;
          }
          var parts := Words(contents[i]);
          if |parts| < 2 || i + 4 >= |contents| {
            return false;
          }
          var title := clean(Strip(contents[i + 4]));
          ghost var s := From(i);
          assert Drop(s, 6) == From(i + 6);
          var body, files, j, k;
          body, j := ReadBody(i + 6);
          files, k := ReadFiles(j);
          var commit := Gitcommit(parts[1], title, body, Strip(files));
          assert Head(s, clean) == Some(commit) && From(k) == Tail(s);
          PrependTwice(commits, [commit], Parse(From(k), clean));
          commits := commits + [commit];
          i := k;
          continue;
        }
        assert From(i)[1..] == From(i + 1);
        i := i + 1;
      }
      assert From(i) == [] && commits + [] == commits;
      return true;
    }
  }

  // ---------- what git log prints ----------

  /** A commit in the log, or a merge: the lines after its first, which begin with the parents.
      `gap` is the number of empty lines that follow. */
  datatype Item =
    | Plain(id: string, author: string, date: string, title: string, body: seq<string>, files: seq<string>,
            gap: nat)
    | Merge(id: string, rest: seq<string>)

  function Indent(line: string): string {
    "    " + line
  }

  function Indented(lines: seq<string>): (r: seq<string>)
    ensures |r| == |lines|
  {
    seq(|lines|, i requires 0 <= i < |lines| => Indent(lines[i]))
  }

  function Blanks(n: nat): (r: seq<string>)
    ensures |r| == n
  {
    seq(n, _ => "")
  }

  /** What follows the title and the line under it. */
  function Rest(e: Item): seq<string>
    requires e.Plain?
  {
    if e.body == [] && e.files == [] then (if e.gap == 0 then [] else Blanks(e.gap - 1))
    else if e.body == [] then e.files + Blanks(e.gap)
    else Indented(e.body) + Listing(e)
  }

  function Listing(e: Item): seq<string>
    requires e.Plain?
  {
    (if e.files == [] then [] else [""] + e.files) + Blanks(e.gap)
  }

  /** The line under the title. */
  function Under(e: Item): seq<string>
    requires e.Plain?
  {
    if e.body != [] then [Indent("")] else if e.files != [] || e.gap > 0 then [""] else []
  }

  function Lines(e: Item): seq<string> {
    match e
    case Plain(id, author, date, title, body, files, gap) =>
      ["commit " + id, author, date, "", Indent(title)] + Under(e) + Rest(e)
    case Merge(id, rest) => ["commit " + id] + rest
  }

  function Log(items: seq<Item>): seq<string> {
    if items == [] then [] else Lines(items[0]) + Log(items[1..])
  }

  ghost predicate IsItem(e: Item) {
    match e
    case Plain(id, author, date, title, body, files, gap) =>
      && IsWord(id) && !("Merge:" <= author)
      && (body == [] && files != [] ==> !(" " <= files[0]))
    case Merge(id, rest) => rest != [] && "Merge:" <= rest[0] && forall l <- rest :: !("commit" <= l)
  }

  /** Only the last entry may end right after its title. */
  ghost predicate IsLog(items: seq<Item>) {
    && (forall e <- items :: IsItem(e))
    && (forall i :: 0 <= i < |items| - 1 && items[i].Plain? ==> Under(items[i]) != [])
  }

  ghost predicate NamesCommit(e: Item) {
    e.Plain? && exists f <- e.files :: "commit" <= f
  }

  /** The files have names without spaces, and none is taken for the parents of a merge. */
  ghost predicate PlainNames(e: Item) {
    e.Plain? ==> forall f <- e.files :: IsWord(f) && !("Merge:" <= f)
  }

  /** Of a commit that is only a title the parser misses the first file. */
  function Kept(e: Item): seq<string>
    requires e.Plain?
  {
    if e.body == [] && e.files != [] then e.files[1..] else e.files
  }

  /** What the parser makes of an entry. */
  function Read(e: Item, clean: string -> string): seq<Gitcommit> {
    match e
    case Merge(id, rest) => []
    case Plain(id, author, date, title, body, files, gap) =>
      [Gitcommit(id, clean(Strip(title)), Body(body), Strip(Files(Kept(e))))]
  }

  function ReadAll(items: seq<Item>, clean: string -> string): seq<Gitcommit> {
    if items == [] then [] else Read(items[0], clean) + ReadAll(items[1..], clean)
  }

  // ---------- reading it back ----------

  lemma StripIndent(line: string)
    ensures Strip(Indent(line)) == Strip(line)
  {
    var a := Indent(line);
    assert a[1..][1..][1..][1..] == line;
    assert LStrip(a) == LStrip(a[1..]) == LStrip(a[1..][1..]) == LStrip(a[1..][1..][1..]) == LStrip(line);
  }

  lemma {:induction false} BodyIndented(lines: seq<string>)
    ensures Body(Indented(lines)) == Body(lines)
  {
    if lines != [] {
      var n := |lines| - 1;
      BodyIndented(lines[..n]);
      StripIndent(lines[n]);
      assert Indented(lines)[..n] == Indented(lines[..n]);
    }
  }

  lemma {:induction false} BodyLinesOf(lines: seq<string>, s: seq<string>)
    requires Unindented(s)
    ensures BodyLines(Indented(lines) + s) == |lines|
  {
    var t := Indented(lines) + s;
    if lines == [] {
      assert t == s;
    } else {
      assert t[0] == Indent(lines[0]) && t[0][0] == ' ';
      assert t[1..] == Indented(lines[1..]) + s;
      BodyLinesOf(lines[1..], s);
    }
  }

  /** What comes after an entry: nothing, or the next one. */
  ghost predicate AtCommit(s: seq<string>) {
    s == [] || CommitStart(s[0])
  }

  lemma {:induction false} UntilCommitOf(a: seq<string>, s: seq<string>)
    requires (forall l <- a :: !CommitStart(l)) && AtCommit(s)
    ensures UntilCommit(a + s) == |a|
  {
    if a == [] {
      assert a + s == s;
    } else {
      assert a[0] in a;
      assert (a + s)[1..] == a[1..] + s;
      UntilCommitOf(a[1..], s);
    }
  }

  lemma {:induction false} FilesThenBlanks(files: seq<string>, n: nat)
    ensures Files(files + Blanks(n)) == Files(files)
  {
    if n == 0 {
      assert files + Blanks(0) == files;
    } else {
      var a := files + Blanks(n);
      assert a[..|a| - 1] == files + Blanks(n - 1) && a[|a| - 1] == "";
      FilesThenBlanks(files, n - 1);
    }
  }

  lemma AfterIndented(body: seq<string>, list: seq<string>, s: seq<string>)
    requires Unindented(list + s) && AtCommit(s) && (list != [] ==> !CommitStart(list[0]))
    ensures var t := Indented(body) + (list + s);
            && BodyLines(t) == |body| && t[..|body|] == Indented(body)
            && AfterBody(t) == (if list != [] then list[1..] else []) + s
  {
    var t := Indented(body) + (list + s);
    BodyLinesOf(body, list + s);
    assert t[..|body|] == Indented(body) && t[|body|..] == list + s;
    hide Indented, BodyLines;
    if list != [] {
      assert (list + s)[1..] == list[1..] + s;
    } else {
      assert list + s == s && [] + s == s;
    }
  }

  /** The unindented lines after the title. */
  ghost function ListOf(e: Item): seq<string>
    requires e.Plain?
  {
    if e.body == [] then Rest(e) else Listing(e)
  }

  lemma RestIs(e: Item, s: seq<string>)
    requires IsItem(e) && e.Plain? && AtCommit(s)
    ensures Rest(e) + s == Indented(e.body) + (ListOf(e) + s)
    ensures Unindented(ListOf(e) + s)
    ensures forall l <- ListOf(e) :: l == "" || l in e.files
  {
    var list := ListOf(e);
    assert list + s == if list == [] then s else [list[0]] + (list[1..] + s);
    assert Rest(e) + s == Indented(e.body) + (list + s);
  }

  /** The part after the title is read to the end of the entry. */
  lemma ReadRest(e: Item, s: seq<string>)
    requires IsItem(e) && e.Plain? && !NamesCommit(e) && AtCommit(s)
    ensures var t := Rest(e) + s; var u := AfterBody(t);
            && BodyLines(t) == |e.body| && Body(t[..BodyLines(t)]) == Body(e.body)
            && UntilCommit(u) <= |u| && u[UntilCommit(u)..] == s
            && Files(u[..UntilCommit(u)]) == Files(Kept(e))
  {
    var list := ListOf(e);
    RestIs(e, s);
    assert forall l <- list :: !CommitStart(l);
    var a := if list != [] then list[1..] else [];
    FilesOfList(e, a);
    hide Rest, Listing, ListOf, IsItem, NamesCommit, Indented, Unindented, AtCommit, CommitStart;
    hide AfterBody, BodyLines, UntilCommit;
    AfterIndented(e.body, list, s);
    BodyIndented(e.body);
    UntilCommitOf(a, s);
    assert (a + s)[..|a|] == a && (a + s)[|a|..] == s;
  }

  lemma FilesOfList(e: Item, a: seq<string>)
    requires e.Plain? && a == if ListOf(e) != [] then ListOf(e)[1..] else []
    ensures Files(a) == Files(Kept(e))
  {
    var n := if e.files != [] then e.gap
             else if e.body == [] then (if e.gap >= 2 then e.gap - 2 else 0)
             else if e.gap >= 1 then e.gap - 1 else 0;
    assert a == Kept(e) + Blanks(n);
    FilesThenBlanks(Kept(e), n);
  }

  lemma HeadLine(id: string)
    requires IsWord(id)
    ensures Words("commit " + id) == ["commit", id] && CommitStart("commit " + id)
  {
    FirstWord("commit", id);
    LastWord(id);
    assert "commit " + id == "commit" + (" " + id);
    assert ("commit " + id)[..6] == "commit";
  }

  lemma EntryShape(e: Item, s: seq<string>)
    requires e.Plain? && (Under(e) == [] ==> s == [])
    ensures var all := Lines(e) + s;
            && |all| > 4 && all[0] == "commit " + e.id && all[1] == e.author && all[4] == Indent(e.title)
            && Drop(all, 6) == Rest(e) + s
  {
    hide Indent, Blanks, Indented;
    var all := Lines(e) + s;
    if Under(e) == [] {
      assert Rest(e) == [] && |all| == 5;
    } else {
      assert |Under(e)| == 1;
      hide Rest, Under;
      assert all[6..] == Rest(e) + s;
    }
  }

  lemma ReadEntry(e: Item, s: seq<string>, clean: string -> string)
    requires IsItem(e) && e.Plain? && !NamesCommit(e) && AtCommit(s) && (Under(e) == [] ==> s == [])
    ensures Parse(Lines(e) + s, clean) == Prepend(Read(e, clean), Parse(s, clean))
  {
    var all := Lines(e) + s;
    EntryShape(e, s);
    HeadLine(e.id);
    StripIndent(e.title);
    ReadRest(e, s);
    assert IsWord(e.id) && !MergeCommit(e.author);
    hide Lines, Rest, Under, IsItem, AtCommit, Words, Drop, AfterBody, BodyLines, UntilCommit, Body, Files, Strip;
    hide Indent, MergeCommit, CommitStart;
    assert Head(all, clean) == Some(Read(e, clean)[0]) && Tail(all) == s;
  }

  lemma {:induction false} SkipLines(a: seq<string>, s: seq<string>, clean: string -> string)
    requires forall l <- a :: !CommitStart(l)
    ensures Parse(a + s, clean) == Parse(s, clean)
  {
    if a == [] {
      assert a + s == s;
    } else {
      assert a[0] in a;
      assert (a + s)[1..] == a[1..] + s;
      SkipLines(a[1..], s, clean);
    }
  }

  lemma SkipMerge(e: Item, s: seq<string>, clean: string -> string)
    requires IsItem(e) && e.Merge?
    ensures Parse(Lines(e) + s, clean) == Parse(s, clean)
  {
    var all := Lines(e) + s;
    assert all[0] == "commit " + e.id && all[0][..6] == "commit" && all[1] == e.rest[0];
    assert all[1..] == e.rest + s;
    SkipLines(e.rest, s, clean);
  }

  // ---------- a file whose name begins with "commit" ----------

  /** Where the first commit seems to start among the lines a. */
  lemma {:induction false} FirstStart(a: seq<string>, s: seq<string>)
    requires exists l <- a :: CommitStart(l)
    ensures var k := UntilCommit(a + s); k < |a| && CommitStart(a[k]) && (a + s)[k..] == a[k..] + s
  {
    assert (a + s)[0] == a[0];
    if !CommitStart(a[0]) {
      assert (a + s)[1..] == a[1..] + s;
      FirstStart(a[1..], s);
    }
  }

  /** A line of one word is no header of a commit. */
  lemma WordIsNoHeader(s: seq<string>, clean: string -> string)
    requires s != [] && IsWord(s[0]) && CommitStart(s[0]) && (|s| > 1 ==> !MergeCommit(s[1]))
    ensures Parse(s, clean) == None
  {
    LastWord(s[0]);
    hide Words;
  }

  /** What is left after the lines before the first that seems to start a commit. */
  lemma StopAtName(e: Item, a: seq<string>, s: seq<string>, clean: string -> string)
    requires e.Plain? && PlainNames(e) && AtCommit(s) && (exists l <- a :: CommitStart(l))
    requires forall l <- a :: l == "" || l in e.files
    ensures var u := a + s; UntilCommit(u) <= |u| && Parse(u[UntilCommit(u)..], clean) == None
  {
    FirstStart(a, s);
    var k := UntilCommit(a + s);
    var rest := a[k..] + s;
    assert a[k] in a && a[k] in e.files && rest[0] == a[k];
    if |rest| > 1 {
      assert rest[1] == if k + 1 < |a| then a[k + 1] else s[0];
      assert k + 1 < |a| ==> a[k + 1] in a;
      assert k + 1 == |a| ==> "commit" <= s[0] && s[0][0] == 'c';
    }
    WordIsNoHeader(rest, clean);
  }

  lemma AfterList(body: seq<string>, list: seq<string>, s: seq<string>)
    requires list != [] && Unindented(list + s)
    ensures AfterBody(Indented(body) + (list + s)) == (if CommitStart(list[0]) then list else list[1..]) + s
  {
    var t := Indented(body) + (list + s);
    BodyLinesOf(body, list + s);
    assert t[|body|..] == list + s;
    hide Indented, BodyLines, CommitStart;
    assert (list + s)[1..] == list[1..] + s && (list + s)[0] == list[0];
  }

  lemma NameInList(e: Item)
    requires e.Plain? && NamesCommit(e)
    ensures exists l <- ListOf(e) :: CommitStart(l)
  {
    var k :| 0 <= k < |e.files| && CommitStart(e.files[k]);
    hide CommitStart, Blanks;
    assert ListOf(e)[if e.body == [] then k else k + 1] == e.files[k];
  }

  lemma NameStopsRest(e: Item, s: seq<string>, clean: string -> string)
    requires IsItem(e) && e.Plain? && PlainNames(e) && NamesCommit(e) && AtCommit(s)
    ensures var u := AfterBody(Rest(e) + s); Parse(u[UntilCommit(u)..], clean) == None
  {
    hide *;
    var list := ListOf(e);
    RestIs(e, s);
    NameInList(e);
    var a := if CommitStart(list[0]) then list else list[1..];
    AfterList(e.body, list, s);
    StopAtName(e, a, s, clean);
  }

  lemma NameStopsItem(e: Item, s: seq<string>, clean: string -> string)
    requires IsItem(e) && e.Plain? && PlainNames(e) && NamesCommit(e) && AtCommit(s)
    ensures Parse(Lines(e) + s, clean) == None
  {
    var all := Lines(e) + s;
    assert Under(e) != [];
    EntryShape(e, s);
    HeadLine(e.id);
    NameStopsRest(e, s, clean);
    assert IsWord(e.id) && !MergeCommit(e.author);
    hide Lines, Rest, Under, IsItem, AtCommit, Words, Drop, AfterBody, BodyLines, UntilCommit, Body, Files, Strip;
    hide Indent, MergeCommit, CommitStart, NamesCommit, PlainNames;
    assert Parse(Tail(all), clean) == None;
  }

  // ---------- the whole log ----------

  lemma TailOfLog(items: seq<Item>)
    requires IsLog(items) && items != []
    ensures IsLog(items[1..]) && AtCommit(Log(items[1..]))
    ensures items[0].Plain? && Under(items[0]) == [] ==> Log(items[1..]) == []
  {
    var rest := items[1..];
    forall i | 0 <= i < |rest| - 1 && rest[i].Plain? ensures Under(rest[i]) != [] {
      assert rest[i] == items[i + 1];
    }
    if rest != [] {
      assert Log(rest)[0] == "commit " + rest[0].id && Log(rest)[0][..6] == "commit";
    }
  }

  /** Parsing what git log prints gives the commits that are no merges, in order, without the first
      file of those that are only a title, if no file has a name that begins with "commit". */
  lemma {:induction false} LogIsRead(items: seq<Item>, clean: string -> string)
    requires IsLog(items) && forall e <- items :: !NamesCommit(e)
    ensures Parse(Log(items), clean) == Some(ReadAll(items, clean))
  {
    if items != [] {
      var e, s := items[0], Log(items[1..]);
      assert e in items;
      TailOfLog(items);
      LogIsRead(items[1..], clean);
      if e.Merge? {
        SkipMerge(e, s, clean);
        assert Read(e, clean) + ReadAll(items[1..], clean) == ReadAll(items[1..], clean);
      } else {
        ReadEntry(e, s, clean);
      }
    }
  }

  lemma {:induction false} NameStopsLog(items: seq<Item>, clean: string -> string)
    requires IsLog(items) && (forall e <- items :: PlainNames(e)) && exists e <- items :: NamesCommit(e)
    ensures Parse(Log(items), clean) == None
  {
    var e, s := items[0], Log(items[1..]);
    assert e in items;
    TailOfLog(items);
    if NamesCommit(e) {
      NameStopsItem(e, s, clean);
    } else {
      assert exists e' <- items[1..] :: NamesCommit(e');
      NameStopsLog(items[1..], clean);
      if e.Merge? {
        SkipMerge(e, s, clean);
      } else {
        ReadEntry(e, s, clean);
      }
    }
  }

  /** Where names have no spaces, the log is read back exactly if no file has a name that begins with
      "commit"; otherwise an IndexError ends the program. */
  lemma LogIsReadExactly(items: seq<Item>, clean: string -> string)
    requires IsLog(items) && forall e <- items :: PlainNames(e)
    ensures (Parse(Log(items), clean) == Some(ReadAll(items, clean))) <==> forall e <- items :: !NamesCommit(e)
    ensures (Parse(Log(items), clean) == None) <==> exists e <- items :: NamesCommit(e)
  {
    if exists e <- items :: NamesCommit(e) {
      NameStopsLog(items, clean);
    } else {
      LogIsRead(items, clean);
    }
  }

  // ---------- when all the files are read back ----------

  lemma {:induction false} StripFiles(files: seq<string>)
    requires files != [] && forall f <- files :: IsTrimmed(f)
    ensures Files(files) != "" && Strip(Files(files)) == Files(files)[..|Files(files)| - 1]
  {
    var all := Files(files);
    var last := files[|files| - 1];
    assert last in files;
    TrimmedStays(last);
    assert all == Files(files[..|files| - 1]) + (last + "\n");
    assert !IsSpace(all[0]) by { FilesHead(files); }
    assert LStrip(all) == all;
    var cut := all[..|all| - 1];
    assert cut[|cut| - 1] == last[|last| - 1];
    assert RStrip(all) == RStrip(cut) == cut;
  }

  lemma TrimmedStays(s: string)
    requires IsTrimmed(s)
    ensures Strip(s) == s
  {
  }

  lemma {:induction false} FilesHead(files: seq<string>)
    requires files != [] && forall f <- files :: IsTrimmed(f)
    ensures Files(files) != "" && !IsSpace(Files(files)[0])
  {
    var last := files[|files| - 1];
    assert last in files;
    TrimmedStays(last);
    if |files| > 1 {
      FilesHead(files[..|files| - 1]);
    } else {
      assert files[..0] == [];
    }
  }

  lemma {:induction false} FilesLonger(files: seq<string>)
    requires files != [] && forall f <- files :: IsTrimmed(f)
    ensures |Files(files)| == |files[0]| + 1 + |Files(files[1..])|
  {
    var n := |files| - 1;
    FilesLast(files);
    hide Files;
    if n > 0 {
      FilesLonger(files[..n]);
      assert files[..n][1..] == files[1..][..n - 1] && files[1..][n - 1] == files[n];
      FilesLast(files[1..]);
    } else {
      assert files[..0] == [] && files[1..] == [];
    }
  }

  lemma FilesLast(files: seq<string>)
    requires files != [] && forall f <- files :: IsTrimmed(f)
    ensures Files(files) == Files(files[..|files| - 1]) + (files[|files| - 1] + "\n")
    ensures Files([]) == ""
  {
    var last := files[|files| - 1];
    assert last in files;
    TrimmedStays(last);
    hide Strip;
  }

  /** The files of a commit are read back exactly if it has a body, or no files. */
  lemma FilesReadBack(e: Item, clean: string -> string)
    requires e.Plain? && forall f <- e.files :: IsTrimmed(f)
    ensures Read(e, clean)[0].files == Strip(Files(e.files)) <==> e.body != [] || e.files == []
  {
    if e.body == [] && e.files != [] {
      FilesLonger(e.files);
      StripFiles(e.files);
      assert e.files[0] in e.files;
      if e.files[1..] != [] {
        StripFiles(e.files[1..]);
      }
    }
  }
}
