/** Splitting a schema into a public and a private configuration (contrib/cros_unibuild_convert.py). */
module GenConf {
  import opened Prelude

  /** What a configuration holds; Text stands for every value that is neither None nor a dict. */
  datatype Value = NoValue | Text(text: string) | Dict(entries: map<string, Value>)

  const M_PUBLIC: bv2 := 1
  const M_PRIVATE: bv2 := 2

  /** A schema: a tuple of flags and a function of the device and the overlays, or a dict. */
  datatype Schema<!Conf> =
    | Tuple(flags: bv2, func: Conf -> Value)
    | Branch(children: map<string, Schema<Conf>>)

  predicate Qualifies(v: Value) {
    v != NoValue && v != Dict(map[])
  }

  /** Which of the leaves a tree is about. */
  datatype Keep = Public | Private | Either | All {
    predicate Has(flags: bv2) {
      match this
      case Public => flags & M_PUBLIC != 0
      case Private => flags & M_PRIVATE != 0
      case Either => flags & M_PUBLIC != 0 || flags & M_PRIVATE != 0
      case All => true
    }
  }

  // ---------- paths ----------

  ghost function SchemaAt<Conf>(s: Schema<Conf>, path: seq<string>): Option<Schema<Conf>>
    decreases |path|
  {
    if path == [] then Some(s)
    else if s.Branch? && path[0] in s.children then SchemaAt(s.children[path[0]], path[1..])
    else None
  }

  ghost function ValueAt(v: Value, path: seq<string>): Option<Value>
    decreases |path|
  {
    if path == [] then Some(v)
    else if v.Dict? && path[0] in v.entries then ValueAt(v.entries[path[0]], path[1..])
    else None
  }

  ghost predicate IsLeaf<Conf>(s: Schema<Conf>, path: seq<string>) {
    SchemaAt(s, path).Some? && SchemaAt(s, path).value.Tuple?
  }

  /** What the tree should hold at a leaf: its value, if the leaf is one of those and the value
      qualifies. */
  ghost function Wanted<Conf>(s: Schema<Conf>, c: Conf, keep: Keep, path: seq<string>): Option<Value>
    requires IsLeaf(s, path)
  {
    var leaf := SchemaAt(s, path).value;
    if keep.Has(leaf.flags) && Qualifies(leaf.func(c)) then Some(leaf.func(c)) else None
  }

  /** The tree has no other keys than the schema, and holds neither None nor an empty dict below its
      root, as deep as the schema goes. */
  ghost predicate Clean<Conf>(s: Schema<Conf>, v: Value)
    decreases v
  {
    s.Branch? ==>
      && v.Dict?
      && forall k <- v.entries :: k in s.children && Qualifies(v.entries[k]) && Clean(s.children[k], v.entries[k])
  }

  /** The tree that a dict of the schema should become: clean, with the right value at every leaf. */
  ghost predicate IsTree<Conf>(s: Schema<Conf>, c: Conf, keep: Keep, v: Value) {
    Clean(s, v) && forall path | path != [] && IsLeaf(s, path) :: ValueAt(v, path) == Wanted(s, c, keep, path)
  }

  // ---------- genconf ----------

  ghost function Eval<Conf>(s: Schema<Conf>, c: Conf, keep: Keep): Value {
    match s
    case Tuple(flags, func) => if keep.Has(flags) then func(c) else NoValue
    case Branch(m) => Dict(map k | k in m && Qualifies(Eval(m[k], c, keep)) :: Eval(m[k], c, keep))
  }

  /** The part of a dict that the loop has built when it has been through the given keys. */
  ghost function Built<Conf>(m: map<string, Schema<Conf>>, done: set<string>, c: Conf, keep: Keep): map<string, Value>
    requires done <= m.Keys
  {
    map k | k in done && Qualifies(Eval(m[k], c, keep)) :: Eval(m[k], c, keep)
  }

  lemma BuiltNext<Conf>(m: map<string, Schema<Conf>>, done: set<string>, c: Conf, keep: Keep, k: string)
    requires done <= m.Keys && k in m && k !in done
    ensures Built(m, done + {k}, c, keep) ==
            if Qualifies(Eval(m[k], c, keep)) then Built(m, done, c, keep)[k := Eval(m[k], c, keep)]
            else Built(m, done, c, keep)
  {
    hide Eval, Qualifies;
  }

  method GenConf<Conf>(s: Schema<Conf>, c: Conf) returns (pub: Value, priv: Value)
    ensures pub == Eval(s, c, Public) && priv == Eval(s, c, Private)
    decreases s
  {
    match s {
      case Branch(children) =>
        var pubDict: map<string, Value>, privDict: map<string, Value> := map[], map[];
        var todo := children.Keys;
        ghost var done: set<string> := {};
        while todo != {}
          invariant todo + done == children.Keys && todo !! done
          invariant pubDict == Built(children, done, c, Public) && privDict == Built(children, done, c, Private)
        {
          hide Eval, Qualifies, Built;
          var k :| k in todo;
          var pubR, privR := GenConf(children[k], c);
          BuiltNext(children, done, c, Public, k);
          BuiltNext(children, done, c, Private, k);
          if Qualifies(pubR) {
            pubDict := pubDict[k := pubR];
          }
          if Qualifies(privR) {
            privDict := privDict[k := privR];
          }
          todo, done := todo - {k}, done + {k};
        }
        assert done == children.Keys;
        return Dict(pubDict), Dict(privDict);
      case Tuple(flags, func) =>
        pub, priv := NoValue, NoValue;
        var value := func(c);
        if flags & M_PUBLIC != 0 {
          pub := value;
        }
        if flags & M_PRIVATE != 0 {
          priv := value;
        }
    }
  }

  // ---------- what the trees hold ----------

  lemma {:induction false} EvalIsClean<Conf>(s: Schema<Conf>, c: Conf, keep: Keep)
    ensures Clean(s, Eval(s, c, keep))
  {
    if s.Branch? {
      forall k <- s.children {
        EvalIsClean(s.children[k], c, keep);
      }
    }
  }

  lemma {:induction false} EvalAtLeaf<Conf>(s: Schema<Conf>, c: Conf, keep: Keep, path: seq<string>)
    requires path != [] && IsLeaf(s, path)
    ensures ValueAt(Eval(s, c, keep), path) == Wanted(s, c, keep, path)
    decreases |path|
  {
    var child, rest := s.children[path[0]], path[1..];
    assert SchemaAt(s, path) == SchemaAt(child, rest);
    if rest == [] {
      assert child.Tuple?;
    } else {
      EvalAtLeaf(child, c, keep, rest);
    }
  }

  /** Both trees of genconf are what they should be. */
  lemma EvalIsTree<Conf>(s: Schema<Conf>, c: Conf, keep: Keep)
    ensures IsTree(s, c, keep, Eval(s, c, keep))
  {
    EvalIsClean(s, c, keep);
    forall path | path != [] && IsLeaf(s, path) ensures ValueAt(Eval(s, c, keep), path) == Wanted(s, c, keep, path) {
      EvalAtLeaf(s, c, keep, path);
    }
  }

  /** What the trees hold at a leaf, in terms of its flags and its value. */
  lemma LeafInFields<Conf>(s: Schema<Conf>, c: Conf, path: seq<string>, flags: bv2, func: Conf -> Value)
    requires path != [] && SchemaAt(s, path) == Some(Tuple(flags, func))
    ensures ValueAt(Eval(s, c, Public), path) ==
            if flags & 1 == 1 && func(c) != NoValue && func(c) != Dict(map[]) then Some(func(c)) else None
    ensures ValueAt(Eval(s, c, Private), path) ==
            if flags & 2 == 2 && func(c) != NoValue && func(c) != Dict(map[]) then Some(func(c)) else None
  {
    EvalAtLeaf(s, c, Public, path);
    EvalAtLeaf(s, c, Private, path);
    FlagBits(flags);
    hide Eval;
  }

  lemma FlagBits(flags: bv2)
    ensures Public.Has(flags) <==> flags & 1 == 1
    ensures Private.Has(flags) <==> flags & 2 == 2
  {
  }

  /** At a dict of the schema the trees hold a dict that is not empty, with keys of the schema only, or
      nothing. */
  lemma {:induction false} BranchInFields<Conf>(s: Schema<Conf>, c: Conf, keep: Keep, path: seq<string>)
    requires path != [] && SchemaAt(s, path).Some? && SchemaAt(s, path).value.Branch?
    ensures var v := ValueAt(Eval(s, c, keep), path);
            v.Some? ==>
              && v.value.Dict? && v.value.entries != map[]
              && v.value.entries.Keys <= SchemaAt(s, path).value.children.Keys
    decreases |path|
  {
    var child, rest := s.children[path[0]], path[1..];
    assert SchemaAt(s, path) == SchemaAt(child, rest);
    if rest != [] {
      BranchInFields(child, c, keep, rest);
    }
  }

  /** A clean tree that is not empty holds something at some leaf. */
  lemma {:induction false} SomeLeaf<Conf>(s: Schema<Conf>, v: Value) returns (path: seq<string>)
    requires Clean(s, v) && Qualifies(v)
    ensures IsLeaf(s, path) && ValueAt(v, path).Some?
    decreases v
  {
    if s.Tuple? {
      path := [];
    } else {
      var k :| k in v.entries;
      var rest := SomeLeaf(s.children[k], v.entries[k]);
      path := [k] + rest;
      assert path[1..] == rest;
    }
  }

  /** There is only one such tree. */
  lemma {:induction false} TreeIsUnique<Conf>(s: Schema<Conf>, v: Value, w: Value)
    requires s.Branch? && Clean(s, v) && Clean(s, w)
    requires forall path | path != [] && IsLeaf(s, path) :: ValueAt(v, path) == ValueAt(w, path)
    ensures v == w
    decreases s
  {
    SameKeys(s, v, w);
    SameKeys(s, w, v);
    forall k <- v.entries ensures k in w.entries && v.entries[k] == w.entries[k] {
      var child := s.children[k];
      if child.Tuple? {
        assert IsLeaf(s, [k]) by { assert [k][1..] == []; }
        assert ValueAt(v, [k]) == Some(v.entries[k]) && ValueAt(w, [k]) == Some(w.entries[k]) by {
          assert [k][1..] == [];
        }
      } else {
        forall path | path != [] && IsLeaf(child, path)
          ensures ValueAt(v.entries[k], path) == ValueAt(w.entries[k], path) {
          Below(s, v, k, path);
          Below(s, w, k, path);
        }
        TreeIsUnique(child, v.entries[k], w.entries[k]);
      }
    }
    assert v.entries == w.entries;
  }

  lemma Below<Conf>(s: Schema<Conf>, v: Value, k: string, path: seq<string>)
    requires s.Branch? && k in s.children && v.Dict? && k in v.entries && IsLeaf(s.children[k], path)
    ensures IsLeaf(s, [k] + path) && ValueAt(v, [k] + path) == ValueAt(v.entries[k], path)
  {
    assert ([k] + path)[1..] == path;
  }

  lemma SameKeys<Conf>(s: Schema<Conf>, v: Value, w: Value)
    requires s.Branch? && Clean(s, v) && Clean(s, w)
    requires forall path | path != [] && IsLeaf(s, path) :: ValueAt(v, path) == ValueAt(w, path)
    ensures v.entries.Keys <= w.entries.Keys
  {
    forall k <- v.entries ensures k in w.entries {
      var path := SomeLeaf(s.children[k], v.entries[k]);
      Below(s, v, k, path);
      assert ValueAt(w, [k] + path).Some?;
    }
  }

  // ---------- putting the trees together ----------

  /** Deep merge; the first tree wins where the two disagree. */
  function Merge(a: Value, b: Value): Value
    decreases a
  {
    if a.Dict? && b.Dict? then
      Dict(map k | k in a.entries.Keys + b.entries.Keys ::
        if k in a.entries && k in b.entries then Merge(a.entries[k], b.entries[k])
        else if k in a.entries then a.entries[k] else b.entries[k])
    else if a == NoValue then b
    else a
  }

  lemma {:induction false} MergeSame(v: Value)
    ensures Merge(v, v) == v
  {
    if v.Dict? {
      forall k <- v.entries {
        MergeSame(v.entries[k]);
      }
      assert v.entries.Keys + v.entries.Keys == v.entries.Keys;
      assert Merge(v, v).entries == v.entries;
    }
  }

  lemma MergeNothing(v: Value)
    ensures Merge(NoValue, v) == v && Merge(v, NoValue) == v
    ensures v.Dict? ==> Merge(Dict(map[]), v) == v && Merge(v, Dict(map[])) == v
  {
    if v.Dict? {
      assert Merge(Dict(map[]), v).entries == v.entries;
      assert Merge(v, Dict(map[])).entries == v.entries;
    }
  }

  /** The two trees of a schema put together are the tree of all the leaves that have a flag. */
  lemma {:induction false} MergeIsEither<Conf>(s: Schema<Conf>, c: Conf)
    ensures Merge(Eval(s, c, Public), Eval(s, c, Private)) == Eval(s, c, Either)
    decreases s
  {
    var a, b, both := Eval(s, c, Public), Eval(s, c, Private), Eval(s, c, Either);
    match s
    case Tuple(flags, func) =>
      MergeSame(func(c));
      MergeNothing(func(c));
    case Branch(m) =>
      forall k <- m ensures k in Merge(a, b).entries <==> k in both.entries
                    ensures k in both.entries ==>
                            k in Merge(a, b).entries && Merge(a, b).entries[k] == both.entries[k] {
        MergeIsEither(m[k], c);
        ChildMerged(Eval(m[k], c, Public), Eval(m[k], c, Private));
      }
      assert Merge(a, b).entries == both.entries;
  }

  /** Values that may stand for the same part of a schema. */
  ghost predicate Compatible(a: Value, b: Value) {
    a == b || a == NoValue || b == NoValue || (a.Dict? && b.Dict?)
  }

  lemma ChildMerged(a: Value, b: Value)
    requires Compatible(a, b)
    ensures Qualifies(Merge(a, b)) <==> Qualifies(a) || Qualifies(b)
    ensures Qualifies(a) && !Qualifies(b) ==> Merge(a, b) == a
    ensures Qualifies(b) && !Qualifies(a) ==> Merge(a, b) == b
  {
    MergeNothing(a);
    MergeNothing(b);
    MergeSame(a);
    if a.Dict? && b.Dict? {
      forall k | k in a.entries || k in b.entries ensures k in Merge(a, b).entries {
      }
    }
  }

  // ---------- what is lost, and what is kept apart ----------

  /** Every leaf that has something to say has a flag. */
  ghost predicate Flagged<Conf>(s: Schema<Conf>, c: Conf)
    decreases s
  {
    match s
    case Tuple(flags, func) => Qualifies(func(c)) ==> Either.Has(flags)
    case Branch(m) => forall k <- m :: Flagged(m[k], c)
  }

  /** Putting the trees of a dict together gives the evaluation of the whole schema exactly if every
      leaf that has something to say has a flag. */
  lemma NothingIsLost<Conf>(s: Schema<Conf>, c: Conf)
    requires s.Branch?
    ensures Merge(Eval(s, c, Public), Eval(s, c, Private)) == Eval(s, c, All) <==> Flagged(s, c)
  {
    MergeIsEither(s, c);
    EitherIsAll(s, c);
  }

  /** As far as a dict can see, the flagged part of a schema is all of it. */
  ghost predicate SamePart(a: Value, b: Value) {
    if Qualifies(a) then a == b else !Qualifies(b)
  }

  lemma {:induction false} EitherIsAll<Conf>(s: Schema<Conf>, c: Conf)
    ensures SamePart(Eval(s, c, Either), Eval(s, c, All)) <==> Flagged(s, c)
    ensures s.Branch? ==> (Eval(s, c, Either) == Eval(s, c, All) <==> Flagged(s, c))
    decreases s
  {
    if s.Branch? {
      var m, a, b := s.children, Eval(s, c, Either), Eval(s, c, All);
      forall k <- m {
        EitherIsAll(m[k], c);
      }
      if Flagged(s, c) {
        assert a.entries == b.entries;
      } else {
        var k :| k in m && !Flagged(m[k], c);
        assert !SamePart(Eval(m[k], c, Either), Eval(m[k], c, All));
        assert k in b.entries || k in a.entries;
        assert a.entries != b.entries;
      }
    }
  }

  /** The two schemas, under the two configurations, differ only in leaves that are not kept. */
  ghost predicate AlikeBut<Conf>(s: Schema<Conf>, c: Conf, s': Schema<Conf>, c': Conf, keep: Keep)
    decreases s
  {
    match s
    case Tuple(flags, func) =>
      s'.Tuple? && keep.Has(flags) == keep.Has(s'.flags) && (keep.Has(flags) ==> func(c) == s'.func(c'))
    case Branch(m) =>
      s'.Branch? && m.Keys == s'.children.Keys && forall k <- m :: AlikeBut(m[k], c, s'.children[k], c', keep)
  }

  /** Whatever the other leaves compute, of whatever device, leaves the tree as it is: nothing of the
      private leaves can be told from the public tree. */
  lemma {:induction false} OthersDoNotMatter<Conf>(s: Schema<Conf>, c: Conf, s': Schema<Conf>, c': Conf, keep: Keep)
    requires AlikeBut(s, c, s', c', keep)
    ensures Eval(s, c, keep) == Eval(s', c', keep)
    decreases s
  {
    if s.Branch? {
      forall k <- s.children {
        OthersDoNotMatter(s.children[k], c, s'.children[k], c', keep);
      }
      assert Eval(s, c, keep).entries == Eval(s', c', keep).entries;
    }
  }
}
