/** Stage 1 of the roafteriniter plugin run by one process: a depth-first search over the struct
    types that remembers its verdicts in two caches (contrib/roafteriniter/roafteriniter.c). */
module Stage1 {
  import opened Prelude
  import opened SharedCache
  import opened StructTypes

  /** `Died` is the end of the process: an insertion failed, or a scan left the mapping. */
  datatype Verdict = Yes | No | Died

  datatype GlobalType = Record(name: Option<string>) | NonRecord

  /** A cache used as a set of names. */
  class NameSet {
    const cache: Cache
    ghost const names: seq<string> // the vocabulary, in some order
    ghost var elems: set<string>

    constructor (cache: Cache, ghost names: seq<string>)
      requires cache.Valid() && cache.items == []
      requires forall t <- names :: IsItem(t) && cache.size + |t| + 1 < TWO_TO_THE_64
      ensures Valid() && elems == {} && this.cache == cache && this.names == names
    {
      this.cache, this.names, elems := cache, names, {};
    }

    ghost predicate Valid()
      reads this, cache, cache.data
    {
      && cache.Valid() && Distinct(cache.items) && Elements(cache.items) == elems
      && elems <= Elements(names)
      && forall t <- names :: IsItem(t) && cache.size + |t| + 1 < TWO_TO_THE_64
    }

    /** The cache can hold every name and leave a byte to spare. */
    ghost predicate Roomy() {
      HEADER + Bytes(names) < cache.size
    }

    lemma RoomToSpare(t: string)
      requires Valid() && Roomy() && t in names
      ensures HEADER + cache.length < cache.size
      ensures t !in elems ==> HEADER + cache.length + |t| + 1 < cache.size
    {
      FlattenLength(cache.items);
      assert forall x <- cache.items :: x in Elements(cache.items);
      BytesOfDistinct(cache.items, names);
      if t !in elems {
        BytesAppend(cache.items, [t]);
        BytesOfDistinct(cache.items + [t], names);
      }
    }

    method Has(t: string) returns (found: bool, died: bool)
      requires Valid() && t in names
      ensures !died ==> found == (t in elems)
      ensures Roomy() ==> !died
    {
      if Roomy() { RoomToSpare(t); }
      var r := cache.Contains(t);
      found, died := r == ContainsSuccess, r == Overrun;
    }

    method TestAndSet(t: string) returns (added: bool, died: bool)
      requires Valid() && t in names
      modifies this, cache`length, cache`count, cache`items, cache.data
      ensures Valid()
      ensures elems == if died then old(elems) else old(elems) + {t}
      ensures !died ==> added == (t !in old(elems))
      ensures Roomy() ==> !died
    {
      if Roomy() { RoomToSpare(t); }
      var r := cache.NotContainsInsert(t);
      if r == InsertionSuccess {
        elems := elems + {t};
      }
      added, died := r == InsertionSuccess, r != InsertionSuccess && r != ContainsSuccess;
    }
  }

  class Plugin {
    const program: Program
    const interesting: NameSet
    const checked: NameSet

    constructor (program: Program, interesting: NameSet, checked: NameSet)
      ensures this.program == program && this.interesting == interesting && this.checked == checked
    {
      this.program, this.interesting, this.checked := program, interesting, checked;
    }

    /** The parts that the plugin writes to. */
    ghost function Repr(): set<object> {
      {interesting, interesting.cache, interesting.cache.data, checked, checked.cache, checked.cache.data}
    }

    ghost predicate Valid()
      reads Repr()
    {
      && interesting.Valid() && checked.Valid()
      && interesting != checked && interesting.cache != checked.cache
      && interesting.cache.data != checked.cache.data
      && Closed(program)
      && Elements(interesting.names) == Elements(checked.names) == program.Keys
      && interesting.elems <= checked.elems
      && (forall t <- interesting.elems :: Interesting(program, t))
    }

    /** Both caches can hold every name and leave a byte to spare. */
    ghost predicate Roomy() {
      interesting.Roomy() && checked.Roomy()
    }

    /** Every type that was checked, is not recorded as interesting and is not in progress has
        been rejected rightly. */
    ghost predicate Decided(path: seq<string>)
      reads interesting, checked
    {
      forall t <- checked.elems :: t !in interesting.elems && t !in path ==> !Interesting(program, t)
    }

    /** The types in progress, outermost first; the innermost one has a field that names t. */
    ghost predicate InProgress(path: seq<string>, t: Option<string>) {
      && IsPath(program, path)
      && (path != [] && t.Some? ==> RefersTo(program, path[|path| - 1], t.value))
    }

    ghost function Unchecked(): set<string>
      reads checked
    {
      program.Keys - checked.elems
    }

    twostate predicate Grows()
      reads interesting, checked
    {
      && old(checked.elems) <= checked.elems
      && old(interesting.elems) <= interesting.elems
    }

    /** What has been checked since is reached by fields from t. */
    twostate predicate ChecksFrom(t: string)
      reads checked
    {
      forall u <- checked.elems :: u in old(checked.elems) || Reaches(program, [t], u)
    }

    /** rai_hardcoded_blacklist_typename */
    method HardcodedBlacklistTypename(t: string) returns (r: bool)
      ensures r <==> t in BLACKLIST
      ensures r <==> t in {"atomic_t", "atomic64_t", "arch_spinlock_t", "spinlock_t", "cpumask_t", "sk_buff_head"}
    {
      for i := 0 to |BLACKLIST|
        invariant t !in BLACKLIST[..i]
      {
        if BLACKLIST[i] == t {
          return true;
        }
      }
      return false;
    }

    /** rai_check_interesting_sttype: the field loop, with its early returns. */
    method CheckInterestingSttype(t: string, ghost path: seq<string>) returns (r: Verdict)
      requires Valid()
      requires t in program && t in checked.elems && t !in interesting.elems
      requires InProgress(path, Some(t)) && Decided(path + [t])
      modifies Repr()
      ensures Valid() && Grows() && ChecksFrom(t)
      ensures r != Died ==> Decided(path + [t])
      ensures r != Died ==> (r == Yes <==> program[t] != [] && forall m <- program[t] :: MemberInteresting(program, m))
      ensures Roomy() ==> r != Died
      decreases Unchecked(), 2
    {
      hide NameSet.Valid, Interesting, Reaches;
      var hasFields := false;
      ghost var inner := path + [t];
      var members := program[t];
      for i := 0 to |members|
        invariant Valid() && Grows() && Decided(inner) && ChecksFrom(t)
        invariant hasFields <==> i > 0
        invariant forall m <- members[..i] :: MemberInteresting(program, m)
      {
        hasFields := true;
        var m := members[i];
        assert m in members;
        if m.Pointer? {
          if m.target.Some? {
            if m.target.value == t {
              assert RefersTo(program, t, t);
              CycleNotInteresting(program, [t, t]);
              return No;
            }
            r := InterestingStructType(m.target, inner);
            ReachedThroughField(t, m);
            if r != Yes {
              return;
            }
          }
        } else if m.Embedded? {
          r := InterestingStructType(m.target, inner);
          ReachedThroughField(t, m);
          if r != Yes {
            return;
          }
        }
        assert members[..i + 1] == members[..i] + [m];
      }
      return if hasFields then Yes else No;
    }

    lemma ReachedThroughField(t: string, m: Member)
      requires t in program && m in program[t]
      ensures Refers(m) ==> forall u :: Reaches(program, [m.target.value], u) ==> Reaches(program, [t], u)
    {
      if Refers(m) {
        assert RefersTo(program, t, m.target.value);
        forall u | Reaches(program, [m.target.value], u) ensures Reaches(program, [t], u) {
          ReachesThrough(program, t, m.target.value, u);
        }
      }
    }

    /** rai_interesting_struct_type: looks the verdict up, or claims the type and evaluates it. */
    method InterestingStructType(name: Option<string>, ghost path: seq<string>) returns (r: Verdict)
      requires Valid()
      requires name.Some? ==> name.value in program
      requires InProgress(path, name) && Decided(path)
      modifies Repr()
      ensures Valid() && Grows()
      ensures if name.Some? then ChecksFrom(name.value) else checked.elems == old(checked.elems)
      ensures r != Died ==> Decided(path)
      ensures r != Died ==> (r == Yes <==> name.Some? && Interesting(program, name.value))
      ensures r != Died && name.Some? ==> name.value in checked.elems
      ensures Roomy() ==> r != Died
      decreases Unchecked(), 0
    {
      hide NameSet.Valid, Interesting, IsPath, Reaches;
      if name == None {
        return No;
      }
      var t := name.value;
      ReachesItself(program, [t], t);
      assert t in Elements(checked.names) && t in Elements(interesting.names);
      var seen, died := interesting.Has(t);
      if died {
        return Died;
      }
      if seen {
        return Yes;
      }
      var claimed;
      claimed, died := checked.TestAndSet(t);
      if died {
        return Died;
      }
      if !claimed {
        if t in path {
          ClosingThePath(program, path, t);
        }
        return No;
      }
      r := Evaluate(t, path);
    }

    /** Its second half: the verdict on a type that has just been claimed. */
    method Evaluate(t: string, ghost path: seq<string>) returns (r: Verdict)
      requires Valid()
      requires t in program && t in checked.elems && t !in interesting.elems
      requires InProgress(path, Some(t)) && Decided(path + [t])
      modifies Repr()
      ensures Valid() && Grows() && ChecksFrom(t)
      ensures r != Died ==> Decided(path)
      ensures r != Died ==> (r == Yes <==> Interesting(program, t))
      ensures Roomy() ==> r != Died
      decreases Unchecked(), 3
    {
      hide NameSet.Valid, Interesting, Reaches;
      InterestingIsFixedPoint(program, t);
      var blacklisted := HardcodedBlacklistTypename(t);
      if blacklisted {
        return No;
      }
      r := CheckInterestingSttype(t, path);
      if r == Yes {
        r := Record(t);
      }
    }

    /** The insertion that ends a successful evaluation. */
    method Record(t: string) returns (r: Verdict)
      requires Valid()
      requires t in program && t in checked.elems && Interesting(program, t)
      modifies Repr()
      ensures Valid() && checked.elems == old(checked.elems)
      ensures interesting.elems == if r == Died then old(interesting.elems) else old(interesting.elems) + {t}
      ensures r == Yes || r == Died
      ensures Roomy() ==> r != Died
    {
      hide NameSet.Valid, Interesting;
      assert t in Elements(interesting.names);
      var _, died := interesting.TestAndSet(t);
      r := if died then Died else Yes;
    }

    /** rai_stage1_execute: judges the type of every global.  Nothing about the result depends on
        the order of the globals or on what earlier translation units left in the caches. */
    method Execute(globals: seq<GlobalType>) returns (died: bool)
      requires Valid() && Decided([])
      requires forall g <- globals | g.Record? && g.name.Some? :: g.name.value in program
      modifies Repr()
      ensures Valid() && Grows()
      ensures Roomy() ==> !died
      ensures !died ==> Decided([])
      ensures !died ==> forall t <- checked.elems :: t in interesting.elems <==> Interesting(program, t)
      ensures !died ==>
                forall g <- globals | g.Record? && g.name.Some? ::
                  && g.name.value in checked.elems
                  && (g.name.value in interesting.elems <==> Interesting(program, g.name.value))
      ensures forall u <- checked.elems ::
                || u in old(checked.elems)
                || exists g <- globals :: g.Record? && g.name.Some? && Reaches(program, [g.name.value], u)
    {
      hide NameSet.Valid, Interesting, Reaches;
      for i := 0 to |globals|
        invariant Valid() && Grows() && Decided([])
        invariant forall g <- globals[..i] | g.Record? && g.name.Some? :: g.name.value in checked.elems
        invariant forall u <- checked.elems ::
                    || u in old(checked.elems)
                    || exists g <- globals :: g.Record? && g.name.Some? && Reaches(program, [g.name.value], u)
      {
        var g := globals[i];
        assert g in globals;
        if g.Record? {
          var r := InterestingStructType(g.name, []);
          if r == Died {
            return true;
          }
        }
        assert globals[..i + 1] == globals[..i] + [g];
      }
      died := false;
    }
  }
}
