/** The log lines that stage 2 writes and the post-processing script reads
    (contrib/roafteriniter/roafteriniter.c, contrib/roafteriniter/postprocess.py). */
module LogFormat {
  import opened Prelude

  /** One logged write: variable, its struct type, the function, and the status word. */
  datatype Entry = Entry(varname: string, typename: string, fnname: string, status: string)

  // snprintf(buffer, LINELEN - 1, ...) stores at most LINELEN - 2 characters
  const LINELEN := 100
  const MAX_LINE := LINELEN - 2

  predicate IsSpace(c: char) {
    c == ' ' || c == '\t' || c == '\n' || c == '\r'
  }

  ghost predicate IsWord(s: string) {
    s != "" && forall c <- s :: !IsSpace(c)
  }

  ghost predicate IsName(s: string) {
    IsWord(s) && ':' !in s && '\0' !in s
  }

  ghost predicate IsEntry(e: Entry) {
    IsName(e.varname) && IsName(e.typename) && IsName(e.fnname) && (e.status == "OK" || e.status == "NK")
  }

  function Line(e: Entry): string {
    "v:" + e.varname + " t:" + e.typename + " fn:" + e.fnname + " status:" + e.status
  }

  function Truncate(line: string): string {
    if |line| <= MAX_LINE then line else line[..MAX_LINE]
  }

  // ---------- splitting ----------

  /** The words of s after the partial word `word` (Python's str.split()). */
  function WordsAfter(word: string, s: string): seq<string>
    decreases |s|
  {
    if s == "" then
      if word == "" then [] else [word]
    else if IsSpace(s[0]) then
      (if word == "" then [] else [word]) + WordsAfter("", s[1..])
    else
      WordsAfter(word + [s[0]], s[1..])
  }

  function Words(s: string): seq<string> {
    WordsAfter("", s)
  }

  /** x.split(':')[1], or None where Python raises IndexError. */
  function FieldValue(x: string): Option<string> {
    if ':' !in x then None
    else if x[0] == ':' then Some(UpToColon(x[1..]))
    else FieldValue(x[1..])
  }

  function UpToColon(x: string): string {
    if x == "" || x[0] == ':' then "" else [x[0]] + UpToColon(x[1..])
  }

  /** One iteration of the parsing loop; None is an IndexError. */
  function ParseLine(line: string): Option<Entry> {
    var parts := Words(line);
    if |parts| < 4 then None
    else
      match (FieldValue(parts[0]), FieldValue(parts[1]), FieldValue(parts[2]), FieldValue(parts[3]))
      case (Some(v), Some(t), Some(fn), Some(status)) => Some(Entry(v, t, fn, status))
      case _ => None
  }

  // ---------- lemmas about splitting ----------

  lemma {:induction false} WordsOfWord(word: string, w: string, rest: string)
    requires forall c <- w :: !IsSpace(c)
    ensures WordsAfter(word, w + rest) == WordsAfter(word + w, rest)
    decreases |w|
  {
    if w == "" {
      assert w + rest == rest && word + w == word;
    } else {
      assert w[0] in w;
      assert (w + rest)[1..] == w[1..] + rest;
      WordsOfWord(word + [w[0]], w[1..], rest);
      assert word + [w[0]] + w[1..] == word + w;
    }
  }

  lemma FirstWord(w: string, rest: string)
    requires IsWord(w)
    ensures Words(w + (" " + rest)) == [w] + Words(rest)
  {
    WordsOfWord("", w, " " + rest);
    assert "" + w == w;
    assert (" " + rest)[1..] == rest;
  }

  lemma LastWord(w: string)
    requires forall c <- w :: !IsSpace(c)
    ensures Words(w) == if w == "" then [] else [w]
  {
    WordsOfWord("", w, "");
    assert w + "" == w && "" + w == w;
  }

  lemma {:induction false} UpToColonAll(x: string)
    requires ':' !in x
    ensures UpToColon(x) == x
  {
    if x != "" {
      UpToColonAll(x[1..]);
    }
  }

  /** A field yields its value, and a field cut short yields less. */
  lemma {:induction false} FieldOf(key: string, value: string)
    requires ':' !in key && ':' !in value
    ensures FieldValue(key + (":" + value)) == Some(value)
    decreases |key|
  {
    var x := key + (":" + value);
    assert x[|key|] == ':';
    if key == "" {
      assert x[1..] == value;
      UpToColonAll(value);
    } else {
      assert x[0] == key[0] && key[0] in key;
      assert x[1..] == key[1..] + (":" + value);
      FieldOf(key[1..], value);
    }
  }

  /** Splitting skips any number of spaces, and takes all up to the next one as a word. */
  lemma SplitIntoWords(space: char, w: string, rest: string)
    requires space in " \t\n\r"
    requires w != "" && forall i :: 0 <= i < |w| ==> w[i] !in " \t\n\r"
    requires rest != "" ==> rest[0] in " \t\n\r"
    ensures Words("") == []
    ensures Words([space] + rest) == Words(rest)
    ensures Words(w + rest) == [w] + Words(rest)
  {
    assert ([space] + rest)[1..] == rest;
    WordsOfWord("", w, rest);
    assert "" + w == w;
    if rest == "" {
      assert [w] + [] == [w];
    }
  }

  /** The value of a field is what stands between its first colon and the next. */
  lemma {:induction false} FieldIsSecond(key: string, value: string, rest: string)
    requires ':' !in key && ':' !in value && (rest != "" ==> rest[0] == ':')
    ensures FieldValue(key + (":" + (value + rest))) == Some(value)
    ensures FieldValue(key) == None
    decreases |key|
  {
    var x := key + (":" + (value + rest));
    assert x[|key|] == ':';
    if key == "" {
      assert x[1..] == value + rest;
      UpToFirstColon(value, rest);
    } else {
      assert x[0] == key[0] && key[0] in key;
      assert x[1..] == key[1..] + (":" + (value + rest));
      FieldIsSecond(key[1..], value, rest);
    }
  }

  lemma {:induction false} UpToFirstColon(value: string, rest: string)
    requires ':' !in value && (rest != "" ==> rest[0] == ':')
    ensures UpToColon(value + rest) == value
  {
    if value == "" {
      assert value + rest == rest;
    } else {
      assert value[0] in value;
      assert (value + rest)[1..] == value[1..] + rest;
      UpToFirstColon(value[1..], rest);
    }
  }

  ghost function Fields(e: Entry): (string, string, string, string) {
    ("v:" + e.varname, "t:" + e.typename, "fn:" + e.fnname, "status:" + e.status)
  }

  lemma LineFields(e: Entry)
    ensures var (f0, f1, f2, f3) := Fields(e);
            Line(e) == f0 + (" " + (f1 + (" " + (f2 + (" " + f3)))))
  {
  }

  lemma FieldWord(key: string, value: string)
    requires IsWord(key) && ':' !in key && IsName(value)
    ensures IsWord(key + (":" + value)) && FieldValue(key + (":" + value)) == Some(value)
  {
    FieldOf(key, value);
  }

  lemma FieldWords(e: Entry)
    requires IsEntry(e)
    ensures var (f0, f1, f2, f3) := Fields(e);
            && IsWord(f0) && IsWord(f1) && IsWord(f2) && IsWord(f3)
            && FieldValue(f0) == Some(e.varname) && FieldValue(f1) == Some(e.typename)
            && FieldValue(f2) == Some(e.fnname) && FieldValue(f3) == Some(e.status)
  {
    hide IsWord, FieldValue;
    var (f0, f1, f2, f3) := Fields(e);
    assert f0 == "v" + (":" + e.varname) && f1 == "t" + (":" + e.typename);
    assert f2 == "fn" + (":" + e.fnname) && f3 == "status" + (":" + e.status);
    assert IsWord("v") && IsWord("t") && IsWord("fn") && IsWord("status") && IsName(e.status) by {
      KeysAreWords(e);
    }
    FieldWord("v", e.varname);
    FieldWord("t", e.typename);
    FieldWord("fn", e.fnname);
    FieldWord("status", e.status);
  }

  lemma KeysAreWords(e: Entry)
    requires IsEntry(e)
    ensures IsWord("v") && IsWord("t") && IsWord("fn") && IsWord("status") && IsName(e.status)
  {
  }

  /** Reading a whole line gives back what was logged. */
  lemma ParseWholeLine(e: Entry)
    requires IsEntry(e)
    ensures ParseLine(Line(e)) == Some(e)
  {
    var (f0, f1, f2, f3) := Fields(e);
    LineFields(e);
    FieldWords(e);
    FirstWord(f0, f1 + (" " + (f2 + (" " + f3))));
    FirstWord(f1, f2 + (" " + f3));
    FirstWord(f2, f3);
    LastWord(f3);
    assert Words(Line(e)) == [f0, f1, f2, f3];
  }

  // ---------- what truncation does ----------

  /** A cut inside the last field leaves a prefix of the status word, or no value at all. */
  lemma CutInLastField(e: Entry, k: nat)
    requires IsEntry(e) && k < |Fields(e).3|
    ensures FieldValue(Fields(e).3[..k]) == if k < 7 then None else Some(e.status[..k - 7])
  {
    var f := Fields(e).3;
    var cut := f[..k];
    if k < 7 {
      assert cut == "status"[..k];
      assert ':' !in cut;
    } else {
      assert cut == "status" + (":" + e.status[..k - 7]);
      FieldOf("status", e.status[..k - 7]);
    }
  }

  ghost function Spaces(s: string): nat {
    if s == "" then 0 else (if IsSpace(s[0]) then 1 else 0) + Spaces(s[1..])
  }

  lemma {:induction false} WordsBound(word: string, s: string)
    ensures |WordsAfter(word, s)| <= Spaces(s) + 1
    ensures word == "" && s == "" ==> WordsAfter(word, s) == []
    ensures s != "" && IsSpace(s[|s| - 1]) ==> |WordsAfter(word, s)| <= Spaces(s)
    decreases |s|
  {
    if s != "" {
      var next := if IsSpace(s[0]) then "" else word + [s[0]];
      WordsBound(next, s[1..]);
    }
  }

  lemma {:induction false} SpacesOf(w: string, rest: string)
    requires forall c <- w :: !IsSpace(c)
    ensures Spaces(w + rest) == Spaces(rest)
  {
    if w == "" {
      assert w + rest == rest;
    } else {
      assert w[0] in w && (w + rest)[1..] == w[1..] + rest;
      SpacesOf(w[1..], rest);
    }
  }

  lemma {:induction false} SpacesPrefix(s: string, k: nat)
    requires k <= |s|
    ensures Spaces(s[..k]) <= Spaces(s)
  {
    if k > 0 {
      assert s[..k][1..] == s[1..][..k - 1];
      SpacesPrefix(s[1..], k - 1);
    }
  }

  /** A cut before the last field leaves fewer than four words. */
  lemma CutBeforeLastField(e: Entry, k: nat)
    requires IsEntry(e) && k + |Fields(e).3| <= |Line(e)|
    ensures ParseLine(Line(e)[..k]) == None
  {
    var (f0, f1, f2, f3) := Fields(e);
    FieldWords(e);
    LineFields(e);
    hide *;
    var head := f0 + (" " + (f1 + (" " + (f2 + " "))));
    Regroup(f0, f1, f2, f3);
    Front(head, f3, k);
    FewWords(f0, f1, f2, k);
    TooFewWords(head[..k]);
  }

  lemma Regroup(f0: string, f1: string, f2: string, f3: string)
    ensures f0 + (" " + (f1 + (" " + (f2 + (" " + f3))))) == (f0 + (" " + (f1 + (" " + (f2 + " "))))) + f3
  {
    assert f2 + (" " + f3) == (f2 + " ") + f3;
    var u, v := f2 + " ", f1 + (" " + (f2 + " "));
    assert " " + (u + f3) == (" " + u) + f3;
    assert f1 + ((" " + u) + f3) == v + f3;
    assert " " + (v + f3) == (" " + v) + f3;
  }

  lemma Front(a: string, b: string, k: nat)
    requires k <= |a|
    ensures (a + b)[..k] == a[..k]
  {
  }

  lemma FewWords(f0: string, f1: string, f2: string, k: nat)
    requires IsWord(f0) && IsWord(f1) && IsWord(f2)
    requires k <= |f0 + (" " + (f1 + (" " + (f2 + " "))))|
    ensures |Words((f0 + (" " + (f1 + (" " + (f2 + " ")))))[..k])| < 4
  {
    hide IsWord, Spaces, WordsAfter;
    var head := f0 + (" " + (f1 + (" " + (f2 + " "))));
    NoSpaces();
    if k == |head| {
      ThreeWords(f0, f1, f2, " ");
      assert head[..k] == head && head[|head| - 1] == ' ';
      WordsBound("", head);
    } else {
      var front := f0 + (" " + (f1 + (" " + (f2 + ""))));
      ThreeWords(f0, f1, f2, "");
      assert head[..k] == front[..k];
      SpacesPrefix(front, k);
      WordsBound("", front[..k]);
    }
  }

  lemma TooFewWords(s: string)
    requires |Words(s)| < 4
    ensures ParseLine(s) == None
  {
    hide Words;
  }

  lemma ThreeWords(f0: string, f1: string, f2: string, rest: string)
    requires IsWord(f0) && IsWord(f1) && IsWord(f2)
    ensures Spaces(f0 + (" " + (f1 + (" " + (f2 + rest))))) == 2 + Spaces(rest)
  {
    SpacesOf(f0, " " + (f1 + (" " + (f2 + rest))));
    SpaceThen(f1 + (" " + (f2 + rest)));
    SpacesOf(f1, " " + (f2 + rest));
    SpaceThen(f2 + rest);
    SpacesOf(f2, rest);
  }

  lemma SpaceThen(s: string)
    ensures Spaces(" " + s) == 1 + Spaces(s)
  {
    assert (" " + s)[1..] == s;
  }

  lemma NoSpaces()
    ensures Spaces("") == 0 && Spaces(" ") == 1
  {
    assert " "[1..] == "";
  }

  /** How much of the status word survives in the stored line; negative when not even the field
      does. */
  function Kept(e: Entry): int {
    if |Line(e)| <= MAX_LINE then |e.status| else |e.status| - (|Line(e)| - MAX_LINE)
  }

  /** What the stored line reads back as, whatever its length. */
  lemma ParseStoredLine(e: Entry)
    requires IsEntry(e)
    ensures ParseLine(Truncate(Line(e))) ==
            if Kept(e) >= 0 then Some(e.(status := e.status[..Kept(e)])) else None
  {
    var (f0, f1, f2, f3) := Fields(e);
    ParseWholeLine(e);
    LineFields(e);
    FieldWords(e);
    if |Line(e)| <= MAX_LINE {
      assert e.status[..Kept(e)] == e.status;
    } else {
      var cut := Line(e)[..MAX_LINE];
      var last := |Line(e)| - |f3|;
      assert |f3| == 7 + |e.status|;
      if MAX_LINE <= last {
        CutBeforeLastField(e, MAX_LINE);
      } else {
        var rest := f3[..MAX_LINE - last];
        assert cut == f0 + (" " + (f1 + (" " + (f2 + (" " + rest)))));
        FirstWord(f0, f1 + (" " + (f2 + (" " + rest))));
        FirstWord(f1, f2 + (" " + rest));
        FirstWord(f2, rest);
        LastWord(rest);
        assert Words(cut) == [f0, f1, f2, rest];
        CutInLastField(e, MAX_LINE - last);
      }
    }
  }

  /** Different writes give different lines. */
  lemma LineInjective(d: Entry, e: Entry)
    requires IsEntry(d) && IsEntry(e) && Line(d) == Line(e)
    ensures d == e
  {
    ParseWholeLine(d);
    ParseWholeLine(e);
  }
}
