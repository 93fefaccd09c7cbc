/** The struct types of a program, by name, and which of them are interesting: the least set of
    types that have fields, are not blacklisted and refer only to named types of the set
    (the comment above rai_check_interesting_sttype in contrib/roafteriniter/roafteriniter.c). */
module StructTypes {
  import opened Prelude

  /** A field.  `None` is an anonymous struct; `Other` is everything that is neither a struct nor
      a pointer to one. */
  datatype Member =
    | Pointer(target: Option<string>)
    | Embedded(target: Option<string>)
    | Other

  /** One definition per name; a type that is only declared has no fields. */
  type Program = map<string, seq<Member>>

  const BLACKLIST: seq<string> :=
    ["atomic_t", "atomic64_t", "arch_spinlock_t", "spinlock_t", "cpumask_t", "sk_buff_head"]

  /** Every struct that a field names is listed. */
  ghost predicate Closed(p: Program) {
    forall t <- p :: forall m <- p[t] :: Refers(m) ==> m.target.value in p
  }

  predicate Refers(m: Member) {
    !m.Other? && m.target.Some?
  }

  /** The type t has a field that names u. */
  ghost predicate RefersTo(p: Program, t: string, u: string) {
    t in p && exists m <- p[t] :: Refers(m) && m.target.value == u
  }

  // ---------- the least fixed point ----------

  /** What the field demands of the set of types below rank k. */
  ghost predicate MemberWithin(p: Program, m: Member, k: nat)
    decreases k, 1
  {
    && (m.Embedded? ==> m.target.Some?)
    && (Refers(m) ==> Within(p, m.target.value, k))
  }

  /** t is interesting by a derivation of height at most k. */
  ghost predicate Within(p: Program, t: string, k: nat)
    decreases k, 0
  {
    && k > 0 && t in p && p[t] != [] && t !in BLACKLIST
    && forall m <- p[t] :: MemberWithin(p, m, k - 1)
  }

  ghost predicate Interesting(p: Program, t: string) {
    exists k: nat :: Within(p, t, k)
  }

  ghost predicate MemberInteresting(p: Program, m: Member) {
    && (m.Embedded? ==> m.target.Some?)
    && (Refers(m) ==> Interesting(p, m.target.value))
  }

  lemma {:induction false} WithinMonotone(p: Program, t: string, k: nat, l: nat)
    requires k <= l && Within(p, t, k)
    ensures Within(p, t, l)
    decreases k
  {
    forall m <- p[t] ensures MemberWithin(p, m, l - 1) {
      assert MemberWithin(p, m, k - 1);
      if Refers(m) {
        WithinMonotone(p, m.target.value, k - 1, l - 1);
      }
    }
  }

  lemma {:induction false} CommonHeight(p: Program, ms: seq<Member>) returns (k: nat)
    requires forall m <- ms :: MemberInteresting(p, m)
    ensures forall m <- ms :: MemberWithin(p, m, k)
  {
    if ms == [] {
      k := 0;
    } else {
      assert ms[0] in ms;
      var l := CommonHeight(p, ms[1..]);
      var h: nat := 0;
      if Refers(ms[0]) {
        h :| Within(p, ms[0].target.value, h);
      }
      k := if h < l then l else h;
      forall m <- ms ensures MemberWithin(p, m, k) {
        if m == ms[0] {
          if Refers(m) { WithinMonotone(p, m.target.value, h, k); }
        } else {
          assert m in ms[1..];
          assert MemberWithin(p, m, l);
          if Refers(m) { WithinMonotone(p, m.target.value, l, k); }
        }
      }
    }
  }

  /** The interesting types solve the defining equation... */
  lemma InterestingIsFixedPoint(p: Program, t: string)
    ensures Interesting(p, t) <==>
            t in p && p[t] != [] && t !in BLACKLIST && forall m <- p[t] :: MemberInteresting(p, m)
  {
    if Interesting(p, t) {
      var k: nat :| Within(p, t, k);
      forall m <- p[t] ensures MemberInteresting(p, m) {
        assert MemberWithin(p, m, k - 1);
        assert Refers(m) ==> Within(p, m.target.value, k - 1);
      }
    }
    if t in p && p[t] != [] && t !in BLACKLIST && forall m <- p[t] :: MemberInteresting(p, m) {
      var k := CommonHeight(p, p[t]);
      assert Within(p, t, k + 1);
    }
  }

  /** ...and every other solution contains them. */
  lemma {:induction false} InterestingIsLeast(p: Program, s: iset<string>, t: string, k: nat)
    requires forall u <- p ::
               && p[u] != [] && u !in BLACKLIST
               && (forall m <- p[u] :: (m.Embedded? ==> m.target.Some?) && (Refers(m) ==> m.target.value in s))
               ==> u in s
    requires Within(p, t, k)
    ensures t in s
    decreases k
  {
    forall m <- p[t] ensures (m.Embedded? ==> m.target.Some?) && (Refers(m) ==> m.target.value in s) {
      assert MemberWithin(p, m, k - 1);
      if Refers(m) {
        InterestingIsLeast(p, s, m.target.value, k - 1);
      }
    }
  }

  // ---------- cycles ----------

  /** Each type of the path has a field that names the next. */
  ghost predicate IsPath(p: Program, path: seq<string>) {
    forall i :: 0 < i < |path| ==> RefersTo(p, path[i - 1], path[i])
  }

  lemma {:induction false} HeightDropsAlongPath(p: Program, path: seq<string>, k: nat)
    requires |path| > 0 && IsPath(p, path) && Within(p, path[0], k)
    ensures |path| <= k && Within(p, path[|path| - 1], k + 1 - |path|)
    decreases |path|
  {
    if |path| > 1 {
      var front := path[..|path| - 1];
      HeightDropsAlongPath(p, front, k);
      var t, u := path[|path| - 2], path[|path| - 1];
      assert RefersTo(p, t, u);
      var m :| m in p[t] && Refers(m) && m.target.value == u;
      assert MemberWithin(p, m, k + 1 - |front| - 1);
    }
  }

  lemma {:induction false} CycleHasNoHeight(p: Program, cycle: seq<string>, k: nat)
    requires |cycle| > 1 && IsPath(p, cycle) && cycle[0] == cycle[|cycle| - 1]
    ensures !Within(p, cycle[0], k)
    decreases k
  {
    if Within(p, cycle[0], k) {
      HeightDropsAlongPath(p, cycle, k);
      CycleHasNoHeight(p, cycle, k + 1 - |cycle|);
    }
  }

  /** A type that reaches itself is not interesting. */
  lemma CycleNotInteresting(p: Program, cycle: seq<string>)
    requires |cycle| > 1 && IsPath(p, cycle) && cycle[0] == cycle[|cycle| - 1]
    ensures !Interesting(p, cycle[0])
  {
    forall k: nat ensures !Within(p, cycle[0], k) {
      CycleHasNoHeight(p, cycle, k);
    }
  }

  /** Nor is a type that reaches one. */
  lemma ReachingACycle(p: Program, path: seq<string>, cycle: seq<string>)
    requires |path| > 0 && IsPath(p, path)
    requires |cycle| > 1 && IsPath(p, cycle) && cycle[0] == cycle[|cycle| - 1]
    requires path[|path| - 1] == cycle[0]
    ensures !Interesting(p, path[0])
  {
    if Interesting(p, path[0]) {
      var k: nat :| Within(p, path[0], k);
      HeightDropsAlongPath(p, path, k);
      CycleNotInteresting(p, cycle);
    }
  }

  /** Walking back along the path from its last type to an earlier one closes a cycle. */
  lemma ClosingThePath(p: Program, path: seq<string>, t: string)
    requires |path| > 0 && IsPath(p, path) && RefersTo(p, path[|path| - 1], t) && t in path
    ensures !Interesting(p, t)
  {
    var i :| 0 <= i < |path| && path[i] == t;
    CycleNotInteresting(p, path[i..] + [t]);
  }

  // ---------- reaching types ----------

  /** Fields lead from one of the types to t. */
  ghost predicate Reaches(p: Program, from: seq<string>, t: string) {
    exists path :: IsPath(p, path) && PathTo(path, from, t)
  }

  ghost predicate PathTo(path: seq<string>, from: seq<string>, t: string) {
    |path| > 0 && path[0] in from && path[|path| - 1] == t
  }

  lemma ReachesItself(p: Program, from: seq<string>, t: string)
    requires t in from
    ensures Reaches(p, from, t)
  {
    assert IsPath(p, [t]) && PathTo([t], from, t);
  }

  lemma ReachesField(p: Program, from: seq<string>, t: string, u: string)
    requires Reaches(p, from, t) && RefersTo(p, t, u)
    ensures Reaches(p, from, u)
  {
    var path :| IsPath(p, path) && PathTo(path, from, t);
    assert IsPath(p, path + [u]) && PathTo(path + [u], from, u);
  }

  lemma ReachesThrough(p: Program, t: string, u: string, v: string)
    requires RefersTo(p, t, u) && Reaches(p, [u], v)
    ensures Reaches(p, [t], v)
  {
    var path :| IsPath(p, path) && PathTo(path, [u], v);
    assert path[0] == u;
    assert IsPath(p, [t] + path) && PathTo([t] + path, [t], v);
  }
}
