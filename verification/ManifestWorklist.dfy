/** How willis reads nested manifests: a queue of files with no memory of what was read
    (contrib/willis.go). */
module ManifestWorklist {
  import opened Prelude

  /** A manifest file: what it includes (joined to the manifest directory) and its projects; or one
      that cannot be parsed.  A name outside the map cannot be read. */
  datatype File = Manifest(includes: seq<string>, projects: seq<string>) | Malformed

  type Tree = map<string, File>

  predicate Good(t: Tree, f: string) {
    f in t && t[f].Manifest?
  }

  ghost predicate AllGood(t: Tree, fs: seq<string>) {
    forall f <- fs :: Good(t, f)
  }

  /** What the files include, and their projects, in order. */
  ghost function Includes(t: Tree, fs: seq<string>): seq<string> {
    if fs == [] then [] else (if Good(t, fs[0]) then t[fs[0]].includes else []) + Includes(t, fs[1..])
  }

  ghost function Projects(t: Tree, fs: seq<string>): seq<string> {
    if fs == [] then [] else (if Good(t, fs[0]) then t[fs[0]].projects else []) + Projects(t, fs[1..])
  }

  /** The files at include depth k below the files fs, left to right. */
  ghost function Level(t: Tree, fs: seq<string>, k: nat): seq<string> {
    if k == 0 then fs else Includes(t, Level(t, fs, k - 1))
  }

  /** The projects of the first k levels, breadth first. */
  ghost function BreadthFirst(t: Tree, root: string, k: nat): seq<string> {
    if k == 0 then [] else BreadthFirst(t, root, k - 1) + Projects(t, Level(t, [root], k - 1))
  }

  /** The reading ends at level k: there is nothing on it, or a file that cannot be read. */
  ghost predicate EndsAt(t: Tree, root: string, k: nat) {
    && (Level(t, [root], k) == [] || !AllGood(t, Level(t, [root], k)))
    && forall j: nat :: j < k ==> Level(t, [root], j) != [] && AllGood(t, Level(t, [root], j))
  }

  lemma {:induction false} IncludesAppend(t: Tree, xs: seq<string>, ys: seq<string>)
    ensures Includes(t, xs + ys) == Includes(t, xs) + Includes(t, ys)
    ensures Projects(t, xs + ys) == Projects(t, xs) + Projects(t, ys)
  {
    if xs == [] {
      assert xs + ys == ys;
    } else {
      assert (xs + ys)[1..] == xs[1..] + ys;
      IncludesAppend(t, xs[1..], ys);
    }
  }

  lemma IncludesOne(t: Tree, f: string)
    requires f in t && t[f].Manifest?
    ensures Includes(t, [f]) == t[f].includes && Projects(t, [f]) == t[f].projects
  {
    assert [f][1..] == [];
  }

  // ---------- the loop ----------

  /** The queue and the projects after the first d files of a level have been read. */
  ghost predicate Midway(t: Tree, level: seq<string>, d: nat, files: seq<string>, projects: seq<string>,
                         before: seq<string>) {
    && d <= |level|
    && files == level[d..] + Includes(t, level[..d])
    && projects == before + Projects(t, level[..d])
    && AllGood(t, level[..d])
  }

  lemma Advance(t: Tree, level: seq<string>, d: nat, files: seq<string>, projects: seq<string>, before: seq<string>)
    requires Midway(t, level, d, files, projects, before) && d < |level| && Good(t, level[d])
    ensures files[0] == level[d]
    ensures Midway(t, level, d + 1, files[1..] + t[level[d]].includes, projects + t[level[d]].projects, before)
  {
    assert level[..d + 1] == level[..d] + [level[d]];
    IncludesAppend(t, level[..d], [level[d]]);
    IncludesOne(t, level[d]);
    var x, y := level[d + 1..], Includes(t, level[..d]);
    assert files == [level[d]] + (x + y) by {
      assert level[d..] == [level[d]] + x;
    }
    assert files[1..] == x + y;
  }

  lemma NextLevel(t: Tree, level: seq<string>, files: seq<string>, projects: seq<string>, before: seq<string>)
    requires Midway(t, level, |level|, files, projects, before)
    ensures files == Includes(t, level) && projects == before + Projects(t, level) && AllGood(t, level)
    ensures Midway(t, files, 0, files, projects, projects)
  {
    assert level[..|level|] == level && level[|level|..] == [];
    assert files[..0] == [] && files[0..] == files;
  }

  /** getRepoManifest, given that the reading ends.  The error of the original is None. */
  method GetRepoManifest(t: Tree, root: string, ghost last: nat) returns (r: Option<seq<string>>)
    requires EndsAt(t, root, last)
    ensures r == if Level(t, [root], last) == [] then Some(BreadthFirst(t, root, last)) else None
    ensures r == None <==> exists f <- Level(t, [root], last) :: f !in t || t[f].Malformed?
  {
    hide Includes, Projects, Midway;
    var files := [root];
    var projects: seq<string> := [];
    ghost var k, d, level := 0, 0, [root];
    Start(t, root);
    while |files| > 0
      invariant k <= last && level == Level(t, [root], k)
      invariant d < |level| || (d == 0 && level == files == [])
      invariant Midway(t, level, d, files, projects, BreadthFirst(t, root, k))
      decreases last - k, |level| - d
    {
      ghost var queue, found := files, projects;
      FirstOfQueue(t, level, d, queue, projects, BreadthFirst(t, root, k));
      var file;
      file, files := files[0], files[1..];
      if file !in t || t[file].Malformed? {
        assert file in level;
        return None;
      }
      projects := projects + t[file].projects;
      for i := 0 to |t[file].includes|
        invariant files == queue[1..] + t[file].includes[..i]
      {
        files := files + [t[file].includes[i]];
      }
      assert t[file].includes[..|t[file].includes|] == t[file].includes;
      Advance(t, level, d, queue, found, BreadthFirst(t, root, k));
      d := d + 1;
      if d == |level| {
        NextLevel(t, level, files, projects, BreadthFirst(t, root, k));
        k, d, level := k + 1, 0, files;
      }
    }
    EndOfQueue(t, level, d, files, projects, BreadthFirst(t, root, k));
    return Some(projects);
  }

  lemma Start(t: Tree, root: string)
    ensures Midway(t, [root], 0, [root], [], [])
  {
    assert [root][..0] == [];
  }

  lemma FirstOfQueue(t: Tree, level: seq<string>, d: nat, files: seq<string>, projects: seq<string>,
                     before: seq<string>)
    requires Midway(t, level, d, files, projects, before) && d < |level|
    ensures files != [] && files[0] == level[d]
  {
  }

  /** Both outcomes leave the loop with the levels read so far. */
  lemma EndOfQueue(t: Tree, level: seq<string>, d: nat, files: seq<string>, projects: seq<string>, before: seq<string>)
    requires Midway(t, level, d, files, projects, before) && files == []
    ensures d == |level| && (d == 0 ==> projects == before)
  {
    assert d == 0 ==> level[..d] == [];
  }

  // ---------- when the reading ends ----------

  /** f includes g. */
  ghost predicate Includes1(t: Tree, f: string, g: string) {
    Good(t, f) && g in t[f].includes
  }

  lemma {:induction false} IncludedBy(t: Tree, fs: seq<string>, g: string)
    ensures g in Includes(t, fs) <==> exists f <- fs :: Includes1(t, f, g)
  {
    if fs != [] {
      IncludedBy(t, fs[1..], g);
      if f :| f in fs && Includes1(t, f, g) {
        assert f == fs[0] || f in fs[1..];
      }
      if g in Includes(t, fs) {
        if Includes1(t, fs[0], g) {
          assert fs[0] in fs;
        } else {
          var f :| f in fs[1..] && Includes1(t, f, g);
          assert f in fs;
        }
      }
    }
  }

  ghost predicate IsChain(t: Tree, chain: seq<string>) {
    forall i :: 0 < i < |chain| ==> Includes1(t, chain[i - 1], chain[i])
  }

  lemma {:induction false} ChainTo(t: Tree, root: string, k: nat, f: string) returns (chain: seq<string>)
    requires f in Level(t, [root], k)
    ensures |chain| == k + 1 && chain[0] == root && chain[k] == f && IsChain(t, chain)
  {
    if k == 0 {
      chain := [root];
    } else {
      IncludedBy(t, Level(t, [root], k - 1), f);
      hide IsChain, Includes1;
      var g :| g in Level(t, [root], k - 1) && Includes1(t, g, f);
      var shorter := ChainTo(t, root, k - 1, g);
      LongerChain(t, shorter, f);
      chain := shorter + [f];
    }
  }

  lemma {:induction false} ChainLeads(t: Tree, root: string, k: nat, chain: seq<string>)
    requires |chain| == k + 1 && chain[0] == root && IsChain(t, chain)
    ensures chain[k] in Level(t, [root], k)
  {
    if k > 0 {
      ChainLeads(t, root, k - 1, chain[..k]);
      IncludedBy(t, Level(t, [root], k - 1), chain[k]);
    }
  }

  /** A file is on level k exactly if a chain of k includes leads to it. */
  lemma OnLevel(t: Tree, root: string, k: nat, f: string)
    ensures f in Level(t, [root], k) <==>
            exists chain :: |chain| == k + 1 && chain[0] == root && chain[k] == f && IsChain(t, chain)
  {
    hide IsChain, Level;
    if f in Level(t, [root], k) {
      var chain := ChainTo(t, root, k, f);
    }
    if chain :| |chain| == k + 1 && chain[0] == root && chain[k] == f && IsChain(t, chain) {
      ChainLeads(t, root, k, chain);
    }
  }

  lemma LongerChain(t: Tree, chain: seq<string>, f: string)
    requires |chain| > 0 && IsChain(t, chain) && Includes1(t, chain[|chain| - 1], f)
    ensures var longer := chain + [f];
            |longer| == |chain| + 1 && longer[0] == chain[0] && longer[|chain|] == f && IsChain(t, longer)
  {
  }

  /** root reaches a file that includes itself through others. */
  ghost predicate Cyclic(t: Tree, root: string) {
    exists chain, i, j :: 0 <= i < j < |chain| && chain[0] == root && IsChain(t, chain) && chain[i] == chain[j]
  }

  ghost predicate AllReachableGood(t: Tree, root: string) {
    forall chain :: |chain| > 0 && chain[0] == root && IsChain(t, chain) ==> Good(t, chain[|chain| - 1])
  }

  /** A cycle yields chains of any length. */
  lemma {:induction false} LongChain(t: Tree, chain: seq<string>, i: nat, j: nat, n: nat) returns (long: seq<string>)
    requires i < j < |chain| && IsChain(t, chain) && chain[i] == chain[j]
    ensures |long| > n && long[0] == chain[0] && IsChain(t, long)
    decreases n - |chain|
  {
    if |chain| > n {
      long := chain;
    } else {
      var next := chain[..j] + chain[i..];
      assert forall x :: 0 < x < |next| ==> Includes1(t, next[x - 1], next[x]) by {
        forall x | 0 < x < |next| ensures Includes1(t, next[x - 1], next[x]) {
          if x < j {
            assert next[x - 1] == chain[x - 1] && next[x] == chain[x];
          } else if x == j {
            assert next[x] == chain[i] == chain[j] && next[x - 1] == chain[j - 1];
          } else {
            assert next[x - 1] == chain[i + x - 1 - j] && next[x] == chain[i + x - j];
          }
        }
      }
      assert next[0] == chain[0];
      assert next[j] == chain[i];
      assert j < |next| && next[i] == next[j];
      long := LongChain(t, next, i, j, n);
    }
  }

  lemma {:induction false} DistinctChainLength(t: Tree, chain: seq<string>)
    requires Distinct(chain) && forall f <- chain :: f in t
    ensures |chain| <= |t|
  {
    assert Elements(chain) <= t.Keys;
    DistinctSize(chain);
    SubsetSize(Elements(chain), t.Keys);
  }

  lemma {:induction false} DistinctSize(s: seq<string>)
    requires Distinct(s)
    ensures |Elements(s)| == |s|
  {
    if s != [] {
      var front := s[..|s| - 1];
      DistinctSize(front);
      assert Elements(s) == Elements(front) + {s[|s| - 1]};
    }
  }

  lemma {:induction false} SubsetSize(a: set<string>, b: set<string>)
    requires a <= b
    ensures |a| <= |b|
  {
    if a != {} {
      var x :| x in a;
      SubsetSize(a - {x}, b - {x});
    }
  }

  /** The reading goes on forever exactly when every reachable file can be read and the includes
      form a cycle below the root. */
  lemma EndsUnlessCyclic(t: Tree, root: string)
    ensures (exists k: nat :: EndsAt(t, root, k)) <==> !(AllReachableGood(t, root) && Cyclic(t, root))
  {
    if AllReachableGood(t, root) && Cyclic(t, root) {
      forall k: nat ensures !EndsAt(t, root, k) {
        CyclicGoesOn(t, root, k);
      }
    } else if !AllReachableGood(t, root) {
      var chain :| |chain| > 0 && chain[0] == root && IsChain(t, chain) && !Good(t, chain[|chain| - 1]);
      OnLevel(t, root, |chain| - 1, chain[|chain| - 1]);
      var k := FirstEnd(t, root, |chain| - 1);
    } else {
      var n := |t|;
      if Level(t, [root], n) != [] {
        var f := Level(t, [root], n)[0];
        OnLevel(t, root, n, f);
        var chain :| |chain| == n + 1 && chain[0] == root && chain[n] == f && IsChain(t, chain);
        assert Distinct(chain);
        forall g <- chain ensures g in t {
          var i :| 0 <= i < |chain| && chain[i] == g;
          var front := chain[..i + 1];
          assert IsChain(t, front) && front[0] == root && front[|front| - 1] == g;
        }
        DistinctChainLength(t, chain);
      }
      assert Level(t, [root], n) == [];
      var k := FirstEnd(t, root, n);
    }
  }

  lemma CyclicGoesOn(t: Tree, root: string, k: nat)
    requires AllReachableGood(t, root) && Cyclic(t, root)
    ensures !EndsAt(t, root, k)
  {
    var chain, i, j :| 0 <= i < j < |chain| && chain[0] == root && IsChain(t, chain) && chain[i] == chain[j];
    var long := LongChain(t, chain, i, j, k);
    var front := long[..k + 1];
    assert IsChain(t, front) && |front| == k + 1 && front[0] == root;
    OnLevel(t, root, k, front[k]);
    forall f <- Level(t, [root], k) ensures Good(t, f) {
      OnLevel(t, root, k, f);
      var c :| |c| == k + 1 && c[0] == root && c[k] == f && IsChain(t, c);
    }
  }

  /** A manifest that includes itself is such a case. */
  lemma SelfInclude(k: nat)
    ensures !EndsAt(map["default.xml" := Manifest(["default.xml"], [])], "default.xml", k)
  {
    var t := map["default.xml" := Manifest(["default.xml"], [])];
    assert IsChain(t, ["default.xml", "default.xml"]) && ["default.xml", "default.xml"][0] == "default.xml";
    forall chain | |chain| > 0 && chain[0] == "default.xml" && IsChain(t, chain) ensures Good(t, chain[|chain| - 1]) {
      if |chain| > 1 {
        assert Includes1(t, chain[|chain| - 2], chain[|chain| - 1]);
      }
    }
    CyclicGoesOn(t, "default.xml", k);
  }

  lemma {:induction false} FirstEnd(t: Tree, root: string, n: nat) returns (k: nat)
    requires Level(t, [root], n) == [] || !AllGood(t, Level(t, [root], n))
    ensures EndsAt(t, root, k)
  {
    k := n;
    if j: nat :| j < n && !(Level(t, [root], j) != [] && AllGood(t, Level(t, [root], j))) {
      k := FirstEnd(t, root, j);
    }
  }

  // ---------- once per include path ----------

  /** In how many ways k includes lead from f to g. */
  ghost function Paths(t: Tree, f: string, g: string, k: nat): nat
    decreases k, 1, 0
  {
    if k == 0 then if f == g then 1 else 0
    else if Good(t, f) then PathsFrom(t, t[f].includes, g, k - 1)
    else 0
  }

  ghost function PathsFrom(t: Tree, fs: seq<string>, g: string, k: nat): nat
    decreases k, 2, |fs|
  {
    if fs == [] then 0 else Paths(t, fs[0], g, k) + PathsFrom(t, fs[1..], g, k)
  }

  lemma {:induction false} LevelBelow(t: Tree, fs: seq<string>, k: nat)
    ensures Level(t, fs, k + 1) == Level(t, Includes(t, fs), k)
  {
    if k > 0 {
      LevelBelow(t, fs, k - 1);
    }
  }

  lemma {:induction false} LevelAppend(t: Tree, xs: seq<string>, ys: seq<string>, k: nat)
    ensures Level(t, xs + ys, k) == Level(t, xs, k) + Level(t, ys, k)
  {
    if k > 0 {
      LevelAppend(t, xs, ys, k - 1);
      IncludesAppend(t, Level(t, xs, k - 1), Level(t, ys, k - 1));
    }
  }

  lemma {:induction false} LevelEmpty(t: Tree, k: nat)
    ensures Level(t, [], k) == []
  {
    if k > 0 {
      LevelEmpty(t, k - 1);
    }
  }

  /** Each file is read, and its projects are collected, once per include path that leads to it. */
  lemma {:induction false} OncePerPath(t: Tree, fs: seq<string>, g: string, k: nat)
    ensures multiset(Level(t, fs, k))[g] == PathsFrom(t, fs, g, k)
    decreases k, 1, |fs|
  {
    hide Level, Paths;
    if fs == [] {
      LevelEmpty(t, k);
    } else {
      assert fs == [fs[0]] + fs[1..];
      LevelAppend(t, [fs[0]], fs[1..], k);
      OncePerPath(t, fs[1..], g, k);
      OncePerPathOne(t, fs[0], g, k);
    }
  }

  lemma {:induction false} OncePerPathOne(t: Tree, f: string, g: string, k: nat)
    ensures multiset(Level(t, [f], k))[g] == Paths(t, f, g, k)
    decreases k, 0
  {
    hide Level;
    if k == 0 {
      assert Level(t, [f], 0) == [f] by { LevelZero(t, [f]); }
    } else {
      LevelBelow(t, [f], k - 1);
      if Good(t, f) {
        IncludesOne(t, f);
        OncePerPath(t, t[f].includes, g, k - 1);
      } else {
        assert [f][1..] == [];
        assert Includes(t, [f]) == [];
        LevelEmpty(t, k - 1);
        assert Level(t, [f], k) == [];
      }
    }
  }

  lemma LevelZero(t: Tree, fs: seq<string>)
    ensures Level(t, fs, 0) == fs
  {
  }
}
