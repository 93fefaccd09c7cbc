/** The graph that the overlay visualiser builds, and its cut to what some roots reach
    (class Digraph in contrib/graphviz_overlays.py).  The ids "N1", "N2", ... and "cluster_1", ...
    are modelled by their numbers. */
module Digraph {
  import opened Prelude

  // ---------- the abstract value ----------

  type Edge = (string, string)

  /** A graph by names: the order of the edges is not part of its meaning, their number is. */
  datatype Graph = Graph(nodes: set<string>, edges: seq<Edge>, members: map<string, set<string>>)

  ghost predicate Same(g: Graph, h: Graph) {
    g.nodes == h.nodes && multiset(g.edges) == multiset(h.edges) && g.members == h.members
  }

  /** The edges that leave the nodes of s. */
  ghost function From(edges: seq<Edge>, s: set<string>): seq<Edge> {
    if edges == [] then [] else (if edges[0].0 in s then [edges[0]] else []) + From(edges[1..], s)
  }

  ghost predicate IsPath(edges: seq<Edge>, path: seq<string>) {
    forall i :: 0 < i < |path| ==> (path[i - 1], path[i]) in edges
  }

  ghost predicate Reaches(edges: seq<Edge>, roots: seq<string>, x: string) {
    exists path :: |path| > 0 && path[0] in roots && path[|path| - 1] == x && IsPath(edges, path)
  }

  /** h is the part of g that the roots reach. */
  ghost predicate IsCut(g: Graph, roots: seq<string>, h: Graph) {
    && (forall x :: x in h.nodes <==> Reaches(g.edges, roots, x))
    && multiset(h.edges) == multiset(From(g.edges, h.nodes))
    && h.members == map s | s in g.members && g.members[s] * h.nodes != {} :: g.members[s] * h.nodes
  }

  // ---------- lemmas about edges and paths ----------

  lemma {:induction false} FromIs(edges: seq<Edge>, s: set<string>, e: Edge)
    ensures multiset(From(edges, s))[e] == if e.0 in s then multiset(edges)[e] else 0
  {
    if edges != [] {
      FromIs(edges[1..], s, e);
      assert edges == [edges[0]] + edges[1..];
    }
  }

  lemma {:induction false} FromUnion(edges: seq<Edge>, s: set<string>, t: set<string>)
    requires s !! t
    ensures multiset(From(edges, s + t)) == multiset(From(edges, s)) + multiset(From(edges, t))
  {
    if edges != [] {
      FromUnion(edges[1..], s, t);
    }
  }

  lemma {:induction false} FromAppend(xs: seq<Edge>, ys: seq<Edge>, s: set<string>)
    ensures From(xs + ys, s) == From(xs, s) + From(ys, s)
  {
    if xs == [] {
      assert xs + ys == ys;
    } else {
      assert (xs + ys)[1..] == xs[1..] + ys;
      FromAppend(xs[1..], ys, s);
      var first, middle, last := if xs[0].0 in s then [xs[0]] else [], From(xs[1..], s), From(ys, s);
      assert From(xs + ys, s) == first + From((xs + ys)[1..], s);
      assert From(xs, s) == first + middle;
      hide From;
      assert (first + middle) + last == first + (middle + last);
    }
  }

  lemma {:induction false} FromNone(edges: seq<Edge>)
    ensures From(edges, {}) == []
  {
    if edges != [] {
      FromNone(edges[1..]);
    }
  }

  lemma ReachesRoot(edges: seq<Edge>, roots: seq<string>, x: string)
    requires x in roots
    ensures Reaches(edges, roots, x)
  {
    assert IsPath(edges, [x]) && [x][0] == x;
  }

  /** A set that holds the roots and is closed under the edges holds everything reachable. */
  lemma {:induction false} ReachesWithin(edges: seq<Edge>, roots: seq<string>, s: set<string>, path: seq<string>)
    requires |path| > 0 && path[0] in s && IsPath(edges, path)
    requires forall e <- edges :: e.0 in s ==> e.1 in s
    ensures path[|path| - 1] in s
  {
    if |path| > 1 {
      var front := path[..|path| - 1];
      ReachesWithin(edges, roots, s, front);
      assert (path[|path| - 2], path[|path| - 1]) in edges;
    }
  }

  // ---------- what a cut keeps ----------

  lemma CutEdges(g: Graph, roots: seq<string>, h: Graph, e: Edge)
    requires IsCut(g, roots, h)
    ensures e in h.edges <==> e in g.edges && e.0 in h.nodes
    ensures multiset(h.edges)[e] == if e.0 in h.nodes then multiset(g.edges)[e] else 0
  {
    FromIs(g.edges, h.nodes, e);
    assert e in h.edges <==> e in multiset(h.edges);
    assert e in g.edges <==> e in multiset(g.edges);
  }

  lemma CutReaches(g: Graph, roots: seq<string>, h: Graph, x: string)
    requires IsCut(g, roots, h)
    ensures Reaches(h.edges, roots, x) <==> Reaches(g.edges, roots, x)
  {
    if path :| |path| > 0 && path[0] in roots && path[|path| - 1] == x && IsPath(h.edges, path) {
      forall i | 0 < i < |path| ensures (path[i - 1], path[i]) in g.edges {
        CutEdges(g, roots, h, (path[i - 1], path[i]));
      }
      assert IsPath(g.edges, path);
    }
    if path :| |path| > 0 && path[0] in roots && path[|path| - 1] == x && IsPath(g.edges, path) {
      forall i | 0 < i < |path| ensures (path[i - 1], path[i]) in h.edges {
        var front := path[..i];
        assert IsPath(g.edges, front) && front[0] == path[0] && front[|front| - 1] == path[i - 1];
        assert Reaches(g.edges, roots, path[i - 1]);
        CutEdges(g, roots, h, (path[i - 1], path[i]));
      }
      assert IsPath(h.edges, path);
    }
  }

  /** Cutting again by the same roots changes nothing. */
  lemma CutIdempotent(g: Graph, roots: seq<string>, h: Graph, k: Graph)
    requires IsCut(g, roots, h) && IsCut(h, roots, k)
    ensures Same(h, k)
  {
    forall x ensures x in k.nodes <==> x in h.nodes {
      CutReaches(g, roots, h, x);
    }
    assert k.nodes == h.nodes;
    forall e ensures multiset(k.edges)[e] == multiset(h.edges)[e] {
      CutEdges(g, roots, h, e);
      CutEdges(h, roots, k, e);
    }
    forall s ensures s in k.members <==> s in h.members {
      if s in h.members {
        assert h.members[s] * k.nodes == h.members[s];
      }
    }
    forall s <- h.members ensures k.members[s] == h.members[s] {
      assert h.members[s] * k.nodes == h.members[s];
    }
  }

  /** The roots and the graph determine the cut. */
  lemma CutUnique(g: Graph, roots: seq<string>, h: Graph, k: Graph)
    requires IsCut(g, roots, h) && IsCut(g, roots, k)
    ensures Same(h, k)
  {
    assert h.nodes == k.nodes;
  }

  // ---------- the class ----------

  ghost predicate Injective(m: map<string, nat>) {
    forall a <- m, b <- m :: m[a] == m[b] ==> a == b
  }

  /** The name with the id. */
  ghost function NameOf(m: map<string, nat>, id: nat): string
    requires id in m.Values
  {
    var n :| n in m && m[n] == id;
    n
  }

  lemma NameOfId(m: map<string, nat>, n: string)
    requires Injective(m) && n in m
    ensures m[n] in m.Values && NameOf(m, m[n]) == n
  {
  }

  ghost function Named(m: map<string, nat>, edges: seq<(nat, nat)>): seq<Edge>
    requires EdgesOk(m, edges)
  {
    seq(|edges|, i requires 0 <= i < |edges| =>
      assert edges[i] in edges;
      (NameOf(m, edges[i].0), NameOf(m, edges[i].1)))
  }

  /** Numbering one more node renames no edge. */
  lemma NamedExtends(m: map<string, nat>, edges: seq<(nat, nat)>, n: string, id: nat)
    requires EdgesOk(m, edges)
    requires n !in m && id !in m.Values && Injective(m)
    ensures Injective(m[n := id]) && EdgesOk(m[n := id], edges)
    ensures forall v <- m.Values :: v in m[n := id].Values && NameOf(m[n := id], v) == NameOf(m, v)
    ensures Named(m[n := id], edges) == Named(m, edges)
  {
    var m' := m[n := id];
    forall v <- m.Values ensures v in m'.Values && NameOf(m', v) == NameOf(m, v) {
      var a := NameOf(m, v);
      assert m'[a] == v;
    }
    forall i | 0 <= i < |edges| ensures Named(m', edges)[i] == Named(m, edges)[i] {
      assert edges[i] in edges;
    }
  }

  /** The representation: ids count up from 1, and every id in use names something. */
  ghost predicate Numbered(m: map<string, nat>) {
    Injective(m) && forall n <- m :: 1 <= m[n] <= |m|
  }

  ghost predicate EdgesOk(nodes: map<string, nat>, edges: seq<(nat, nat)>) {
    forall e <- edges :: e.0 in nodes.Values && e.1 in nodes.Values
  }

  ghost predicate ItemsOk(nodes: map<string, nat>, subgraphs: map<string, nat>, items: map<nat, set<nat>>) {
    && items.Keys == subgraphs.Values
    && (forall c <- items :: items[c] <= nodes.Values && items[c] != {})
  }

  ghost function MembersOf(nodes: map<string, nat>, subgraphs: map<string, nat>,
                           items: map<nat, set<nat>>): map<string, set<string>>
    requires ItemsOk(nodes, subgraphs, items)
  {
    map s | s in subgraphs ::
      assert subgraphs[s] in items;
      set n | n in nodes && nodes[n] in items[subgraphs[s]]
  }

  lemma NumberNext(m: map<string, nat>, n: string)
    requires Numbered(m) && n !in m
    ensures |m| + 1 !in m.Values && Numbered(m[n := |m| + 1])
    ensures m[n := |m| + 1].Values == m.Values + {|m| + 1}
  {
    var m' := m[n := |m| + 1];
    assert m'[n] == |m| + 1;
    forall v <- m.Values ensures v in m'.Values {
      var k :| k in m && m[k] == v;
      assert m'[k] == v;
    }
  }

  lemma MembersOfNewNode(nodes: map<string, nat>, subgraphs: map<string, nat>, items: map<nat, set<nat>>, n: string,
                         id: nat)
    requires ItemsOk(nodes, subgraphs, items) && n !in nodes && id !in nodes.Values
    requires nodes[n := id].Values == nodes.Values + {id}
    ensures ItemsOk(nodes[n := id], subgraphs, items)
    ensures MembersOf(nodes[n := id], subgraphs, items) == MembersOf(nodes, subgraphs, items)
  {
    var nodes' := nodes[n := id];
    forall s <- subgraphs ensures MembersOf(nodes', subgraphs, items)[s] == MembersOf(nodes, subgraphs, items)[s] {
      assert subgraphs[s] in items;
      assert id !in items[subgraphs[s]];
    }
  }

  ghost function JoinId(subgraphs: map<string, nat>, s: string): nat {
    if s in subgraphs then subgraphs[s] else |subgraphs| + 1
  }

  ghost function JoinItems(items: map<nat, set<nat>>, cid: nat, id: nat): map<nat, set<nat>> {
    items[cid := (if cid in items then items[cid] else {}) + {id}]
  }

  lemma JoinedId(subgraphs: map<string, nat>, s: string)
    ensures JoinId(subgraphs, s) == if s in subgraphs then subgraphs[s] else |subgraphs| + 1
    ensures s in subgraphs ==> subgraphs[s := JoinId(subgraphs, s)] == subgraphs
  {
  }

  lemma JoinedItems(items: map<nat, set<nat>>, cid: nat, id: nat)
    ensures JoinItems(items, cid, id) == items[cid := (if cid in items then items[cid] else {}) + {id}]
  {
  }

  lemma JoinOk(nodes: map<string, nat>, subgraphs: map<string, nat>, items: map<nat, set<nat>>, s: string, id: nat)
    requires ItemsOk(nodes, subgraphs, items) && Numbered(subgraphs) && id in nodes.Values
    ensures var cid := JoinId(subgraphs, s);
            && Numbered(subgraphs[s := cid]) && ItemsOk(nodes, subgraphs[s := cid], JoinItems(items, cid, id))
            && (s in subgraphs <==> cid in items)
            && forall r <- subgraphs :: r != s ==> subgraphs[r] != cid
  {
    hide Numbered, ItemsOk;
    var cid := JoinId(subgraphs, s);
    if s in subgraphs {
      assert subgraphs[s := cid] == subgraphs;
      OldId(subgraphs, s);
    } else {
      NumberNext(subgraphs, s);
      forall r <- subgraphs ensures subgraphs[r] != cid {
        assert subgraphs[r] in subgraphs.Values;
      }
    }
    ItemsJoined(nodes, subgraphs, items, subgraphs[s := cid], cid, id);
  }

  lemma OldId(m: map<string, nat>, s: string)
    requires Numbered(m) && s in m
    ensures m[s] in m.Values && forall r <- m :: r != s ==> m[r] != m[s]
  {
  }

  lemma ItemsJoined(nodes: map<string, nat>, subgraphs: map<string, nat>, items: map<nat, set<nat>>,
                    subgraphs': map<string, nat>, cid: nat, id: nat)
    requires ItemsOk(nodes, subgraphs, items) && id in nodes.Values
    requires subgraphs'.Values == subgraphs.Values + {cid}
    ensures ItemsOk(nodes, subgraphs', JoinItems(items, cid, id))
    ensures cid in items <==> cid in subgraphs.Values
  {
    assert JoinItems(items, cid, id).Keys == items.Keys + {cid};
  }

  /** A new subgraph starts out empty; an old one gains a member. */
  lemma MembersOfJoin(nodes: map<string, nat>, subgraphs: map<string, nat>, items: map<nat, set<nat>>, s: string,
                      n: string)
    requires ItemsOk(nodes, subgraphs, items) && Injective(nodes) && Numbered(subgraphs) && n in nodes
    ensures var cid := JoinId(subgraphs, s);
            && Numbered(subgraphs[s := cid]) && ItemsOk(nodes, subgraphs[s := cid], JoinItems(items, cid, nodes[n]))
            && MembersOf(nodes, subgraphs[s := cid], JoinItems(items, cid, nodes[n])) ==
               Joined(MembersOf(nodes, subgraphs, items), s, n)
  {
    hide ItemsOk, Numbered, Injective, MembersOf, JoinId, JoinItems, Joined;
    assert nodes[n] in nodes.Values;
    JoinOk(nodes, subgraphs, items, s, nodes[n]);
    MembersJoined(nodes, subgraphs, items, s, n, JoinId(subgraphs, s));
  }

  lemma MembersJoined(nodes: map<string, nat>, subgraphs: map<string, nat>, items: map<nat, set<nat>>, s: string,
                      n: string, cid: nat)
    requires ItemsOk(nodes, subgraphs, items) && Injective(nodes) && n in nodes && cid == JoinId(subgraphs, s)
    requires ItemsOk(nodes, subgraphs[s := cid], JoinItems(items, cid, nodes[n])) && (s in subgraphs <==> cid in items)
    requires forall r <- subgraphs :: r != s ==> subgraphs[r] != cid
    ensures MembersOf(nodes, subgraphs[s := cid], JoinItems(items, cid, nodes[n])) ==
            Joined(MembersOf(nodes, subgraphs, items), s, n)
  {
    hide ItemsOk, Injective, MembersOf, JoinId;
    var subgraphs', items' := subgraphs[s := cid], JoinItems(items, cid, nodes[n]);
    var before, after := MembersOf(nodes, subgraphs, items), MembersOf(nodes, subgraphs', items');
    MembersKeys(nodes, subgraphs, items);
    MembersKeys(nodes, subgraphs', items');
    MembersGain(nodes, subgraphs, items, s, n);
    forall r <- subgraphs | r != s ensures after[r] == before[r] {
      MembersSame(nodes, subgraphs, items, subgraphs', items', r);
    }
    hide JoinItems;
    assert after.Keys == Joined(before, s, n).Keys;
  }

  lemma MembersGain(nodes: map<string, nat>, subgraphs: map<string, nat>, items: map<nat, set<nat>>, s: string,
                    n: string)
    requires ItemsOk(nodes, subgraphs, items) && Injective(nodes) && n in nodes
    requires var cid := JoinId(subgraphs, s);
             ItemsOk(nodes, subgraphs[s := cid], JoinItems(items, cid, nodes[n])) && (s in subgraphs <==> cid in items)
    ensures var cid := JoinId(subgraphs, s);
            MembersOf(nodes, subgraphs[s := cid], JoinItems(items, cid, nodes[n]))[s] ==
                Joined(MembersOf(nodes, subgraphs, items), s, n)[s]
  {
    hide ItemsOk, Injective, MembersOf;
    var cid := JoinId(subgraphs, s);
    var ids: set<nat> := if cid in items then items[cid] else {};
    MembersOfJoined(nodes, ids, n);
    MembersAt(nodes, subgraphs[s := cid], JoinItems(items, cid, nodes[n]), s);
    MembersKeys(nodes, subgraphs, items);
    if s in subgraphs {
      MembersAt(nodes, subgraphs, items, s);
    } else {
      assert (set x | x in nodes && nodes[x] in ids) == {};
    }
  }

  lemma MembersKeys(nodes: map<string, nat>, subgraphs: map<string, nat>, items: map<nat, set<nat>>)
    requires ItemsOk(nodes, subgraphs, items)
    ensures MembersOf(nodes, subgraphs, items).Keys == subgraphs.Keys
  {
  }

  lemma MembersAt(nodes: map<string, nat>, subgraphs: map<string, nat>, items: map<nat, set<nat>>, s: string)
    requires ItemsOk(nodes, subgraphs, items) && s in subgraphs
    ensures subgraphs[s] in items
    ensures MembersOf(nodes, subgraphs, items)[s] == set x | x in nodes && nodes[x] in items[subgraphs[s]]
  {
    assert subgraphs[s] in items;
  }

  lemma MembersSame(nodes: map<string, nat>, subgraphs: map<string, nat>, items: map<nat, set<nat>>,
                    subgraphs': map<string, nat>, items': map<nat, set<nat>>, r: string)
    requires ItemsOk(nodes, subgraphs, items) && ItemsOk(nodes, subgraphs', items')
    requires r in subgraphs && r in subgraphs' && subgraphs'[r] == subgraphs[r]
    requires subgraphs[r] in items && subgraphs[r] in items' ==> items'[subgraphs[r]] == items[subgraphs[r]]
    ensures MembersOf(nodes, subgraphs', items')[r] == MembersOf(nodes, subgraphs, items)[r]
  {
    MembersAt(nodes, subgraphs, items, r);
    MembersAt(nodes, subgraphs', items', r);
  }

  lemma MembersOfJoined(nodes: map<string, nat>, ids: set<nat>, n: string)
    requires Injective(nodes) && n in nodes
    ensures (set x | x in nodes && nodes[x] in ids + {nodes[n]}) == (set x | x in nodes && nodes[x] in ids) + {n}
  {
  }

  function Joined(members: map<string, set<string>>, s: string, n: string): map<string, set<string>> {
    members[s := (if s in members then members[s] else {}) + {n}]
  }

  // ---------- growing the cut ----------

  lemma ReachesVia(edges: seq<Edge>, x: string, y: string, z: string)
    requires (x, y) in edges && Reaches(edges, [y], z)
    ensures Reaches(edges, [x], z)
  {
    var path :| |path| > 0 && path[0] in [y] && path[|path| - 1] == z && IsPath(edges, path);
    var longer := [x] + path;
    assert longer[0] == x && longer[|longer| - 1] == z;
    forall i | 0 < i < |longer| ensures (longer[i - 1], longer[i]) in edges {
      if i > 1 {
        assert (path[i - 2], path[i - 1]) in edges;
      }
    }
  }

  /** The closure has added to g everything that the node reaches and g lacked, with the edges. */
  ghost predicate Grown(edges: seq<Edge>, g: Graph, h: Graph, node: string) {
    && g.nodes + {node} <= h.nodes && h.members == g.members
    && (forall n <- h.nodes - g.nodes :: Reaches(edges, [node], n))
    && (forall e <- edges :: e.0 in h.nodes - g.nodes ==> e.1 in h.nodes)
    && multiset(h.edges) == multiset(g.edges) + multiset(From(edges, h.nodes - g.nodes))
  }

  /** The same while the edges of the node itself are visited, up to the i-th. */
  ghost predicate Growing(edges: seq<Edge>, i: nat, g: Graph, h: Graph, node: string)
    requires i <= |edges|
  {
    && node !in g.nodes && g.nodes + {node} <= h.nodes && h.members == g.members
    && (forall n <- h.nodes - g.nodes :: Reaches(edges, [node], n))
    && (forall e <- edges :: e.0 in h.nodes - g.nodes - {node} ==> e.1 in h.nodes)
    && (forall e <- edges[..i] :: e.0 == node ==> e.1 in h.nodes)
    && multiset(h.edges) == multiset(g.edges) + multiset(From(edges, h.nodes - g.nodes - {node}))
                            + multiset(From(edges[..i], {node}))
  }

  lemma GrowingStart(edges: seq<Edge>, g: Graph, node: string)
    requires node !in g.nodes
    ensures Growing(edges, 0, g, g.(nodes := g.nodes + {node}), node)
  {
    var h := g.(nodes := g.nodes + {node});
    ReachesRoot(edges, [node], node);
    assert h.nodes - g.nodes == {node} && h.nodes - g.nodes - {node} == {};
    FromNone(edges);
    assert edges[..0] == [];
  }

  /** One more edge of the node: what its target reaches is added first, then the edge. */
  lemma GrowingEdge(edges: seq<Edge>, i: nat, g: Graph, h: Graph, k: Graph, node: string)
    requires i < |edges| && Growing(edges, i, g, h, node) && edges[i].0 == node
    requires Grown(edges, h, k, edges[i].1)
    ensures Growing(edges, i + 1, g, k.(edges := k.edges + [edges[i]]), node)
  {
    GrowingNodes(edges, i, g, h, k, node);
    GrowingEdges(edges, i, g, h, k, node);
    hide From, Reaches;
  }

  lemma GrowingNodes(edges: seq<Edge>, i: nat, g: Graph, h: Graph, k: Graph, node: string)
    requires i < |edges| && Growing(edges, i, g, h, node) && edges[i].0 == node
    requires Grown(edges, h, k, edges[i].1)
    ensures forall n <- k.nodes - g.nodes :: Reaches(edges, [node], n)
    ensures forall e <- edges :: e.0 in k.nodes - g.nodes - {node} ==> e.1 in k.nodes
    ensures forall e <- edges[..i + 1] :: e.0 == node ==> e.1 in k.nodes
  {
    hide Reaches, From;
    forall n <- k.nodes - g.nodes ensures Reaches(edges, [node], n) {
      if n !in h.nodes {
        ReachesVia(edges, node, edges[i].1, n);
      }
    }
    forall e <- edges[..i + 1] | e.0 == node ensures e.1 in k.nodes {
      assert edges[..i + 1] == edges[..i] + [edges[i]];
    }
  }

  lemma GrowingEdges(edges: seq<Edge>, i: nat, g: Graph, h: Graph, k: Graph, node: string)
    requires i < |edges| && Growing(edges, i, g, h, node) && edges[i].0 == node
    requires Grown(edges, h, k, edges[i].1)
    ensures multiset(k.edges + [edges[i]]) == multiset(g.edges) + multiset(From(edges, k.nodes - g.nodes - {node}))
                                              + multiset(From(edges[..i + 1], {node}))
  {
    hide Reaches, From;
    var before, more := h.nodes - g.nodes - {node}, k.nodes - h.nodes;
    assert k.nodes - g.nodes - {node} == before + more;
    EdgesOfMore(edges, before, more);
    EdgeOfNode(edges, i, node);
    assert multiset(k.edges + [edges[i]]) == multiset(k.edges) + multiset([edges[i]]);
  }

  lemma EdgesOfMore(edges: seq<Edge>, a: set<string>, b: set<string>)
    requires a !! b
    ensures multiset(From(edges, a + b)) == multiset(From(edges, a)) + multiset(From(edges, b))
  {
    FromUnion(edges, a, b);
  }

  lemma EdgeOfNode(edges: seq<Edge>, i: nat, node: string)
    requires i < |edges| && edges[i].0 == node
    ensures multiset(From(edges[..i + 1], {node})) == multiset(From(edges[..i], {node})) + multiset([edges[i]])
  {
    assert edges[..i + 1] == edges[..i] + [edges[i]];
    FromAppend(edges[..i], [edges[i]], {node});
    assert From([edges[i]], {node}) == [edges[i]] by { assert [edges[i]][1..] == []; }
  }

  lemma GrowingSkip(edges: seq<Edge>, i: nat, g: Graph, h: Graph, node: string)
    requires i < |edges| && Growing(edges, i, g, h, node) && edges[i].0 != node
    ensures Growing(edges, i + 1, g, h, node)
  {
    assert edges[..i + 1] == edges[..i] + [edges[i]];
    FromAppend(edges[..i], [edges[i]], {node});
    assert From([edges[i]], {node}) == [] by { assert [edges[i]][1..] == []; }
  }

  lemma GrowingEnd(edges: seq<Edge>, g: Graph, h: Graph, node: string)
    requires Growing(edges, |edges|, g, h, node)
    ensures Grown(edges, g, h, node)
  {
    assert edges[..|edges|] == edges;
    FromUnion(edges, h.nodes - g.nodes - {node}, {node});
    assert h.nodes - g.nodes == (h.nodes - g.nodes - {node}) + {node};
  }

  lemma GrownAlready(edges: seq<Edge>, g: Graph, node: string)
    requires node in g.nodes
    ensures Grown(edges, g, g, node)
  {
    assert g.nodes - g.nodes == {};
    FromNone(edges);
  }

  /** h holds what the roots reach, with all its edges. */
  ghost predicate ReachedBy(edges: seq<Edge>, roots: seq<string>, h: Graph) {
    && (forall x <- h.nodes :: Reaches(edges, roots, x))
    && (forall x <- roots :: x in h.nodes)
    && (forall e <- edges :: e.0 in h.nodes ==> e.1 in h.nodes)
    && multiset(h.edges) == multiset(From(edges, h.nodes))
    && h.members == map[]
  }

  lemma ReachedNext(edges: seq<Edge>, roots: seq<string>, node: string, g: Graph, h: Graph)
    requires ReachedBy(edges, roots, g) && Grown(edges, g, h, node)
    ensures ReachedBy(edges, roots + [node], h)
  {
    forall x <- h.nodes ensures Reaches(edges, roots + [node], x) {
      if x in g.nodes {
        MoreRoots(edges, roots, roots + [node], x);
      } else {
        MoreRoots(edges, [node], roots + [node], x);
      }
    }
    FromUnion(edges, g.nodes, h.nodes - g.nodes);
    assert h.nodes == g.nodes + (h.nodes - g.nodes);
  }

  lemma MoreRoots(edges: seq<Edge>, roots: seq<string>, more: seq<string>, x: string)
    requires Reaches(edges, roots, x) && forall r <- roots :: r in more
    ensures Reaches(edges, more, x)
  {
    var path :| |path| > 0 && path[0] in roots && path[|path| - 1] == x && IsPath(edges, path);
    assert path[0] in more;
  }

  lemma ReachedAll(edges: seq<Edge>, roots: seq<string>, h: Graph)
    requires ReachedBy(edges, roots, h)
    ensures forall x :: x in h.nodes <==> Reaches(edges, roots, x)
  {
    forall x | Reaches(edges, roots, x) ensures x in h.nodes {
      var path :| |path| > 0 && path[0] in roots && path[|path| - 1] == x && IsPath(edges, path);
      ReachesWithin(edges, roots, h.nodes, path);
    }
  }

  /** The surviving members of the subgraphs in `done`. */
  ghost function Surviving(members: map<string, set<string>>, done: set<string>,
                           nodes: set<string>): map<string, set<string>> {
    map s | s in members && s in done && members[s] * nodes != {} :: members[s] * nodes
  }

  /** Surviving, while the members of s are visited and those in `seen` have been. */
  ghost function SurvivingPart(members: map<string, set<string>>, done: set<string>, nodes: set<string>, s: string,
                               seen: set<string>): map<string, set<string>> {
    if seen * nodes == {} then Surviving(members, done, nodes) else Surviving(members, done, nodes)[s := seen * nodes]
  }

  lemma SurvivingJoin(members: map<string, set<string>>, done: set<string>, nodes: set<string>, s: string,
                      seen: set<string>, n: string)
    requires s !in done && n !in seen
    ensures SurvivingPart(members, done, nodes, s, seen + {n}) ==
            if n in nodes then Joined(SurvivingPart(members, done, nodes, s, seen), s, n)
            else SurvivingPart(members, done, nodes, s, seen)
  {
    if n in nodes {
      assert (seen + {n}) * nodes == seen * nodes + {n};
    } else {
      assert (seen + {n}) * nodes == seen * nodes;
    }
  }

  lemma SurvivingDone(members: map<string, set<string>>, done: set<string>, nodes: set<string>, s: string)
    requires s !in done && s in members
    ensures SurvivingPart(members, done, nodes, s, members[s]) == Surviving(members, done + {s}, nodes)
  {
  }

  class Digraph {
    var nodes: map<string, nat>
    var edges: seq<(nat, nat)>
    var subgraphs: map<string, nat>
    var items: map<nat, set<nat>>

    constructor ()
      ensures Valid() && Value() == Graph({}, [], map[])
    {
      nodes, edges, subgraphs, items := map[], [], map[], map[];
    }

    ghost predicate Valid()
      reads this
    {
      Numbered(nodes) && Numbered(subgraphs) && EdgesOk(nodes, edges) && ItemsOk(nodes, subgraphs, items)
    }

    ghost function Value(): Graph
      requires Valid()
      reads this
    {
      Graph(nodes.Keys, Named(nodes, edges), MembersOf(nodes, subgraphs, items))
    }

    /** add_node */
    method AddNode(name: string, subgraph: Option<string>)
      requires Valid()
      modifies this
      ensures Valid()
      ensures name in old(nodes) ==> Value() == old(Value())
      ensures name !in old(nodes) ==>
                && Value().nodes == old(Value()).nodes + {name} && Value().edges == old(Value()).edges
                && Value().members ==
                   (if subgraph.Some? && subgraph.value != "" then Joined(old(Value()).members, subgraph.value, name)
                                       else old(Value()).members)
    {
      hide Numbered, Injective, ItemsOk, MembersOf, Named, Joined;
      if name in nodes {
        return;
      }
      var nid := |nodes| + 1;
      NumberNext(nodes, name);
      assert Injective(nodes) by { NumberedInjective(nodes); }
      NamedExtends(nodes, edges, name, nid);
      MembersOfNewNode(nodes, subgraphs, items, name, nid);
      nodes := nodes[name := nid];
      if subgraph.Some? && subgraph.value != "" {
        SubgraphSet(subgraph.value, name);
      }
    }

    /** subgraph_set */
    method SubgraphSet(name: string, nodeName: string)
      requires Valid() && nodeName in nodes
      modifies this
      ensures Valid() && nodes == old(nodes) && edges == old(edges)
      ensures Value() == old(Value()).(members := Joined(old(Value()).members, name, nodeName))
    {
      hide Numbered, Injective, ItemsOk, MembersOf, Named, Joined, EdgesOk, JoinId, JoinItems;
      NumberedInjective(nodes);
      MembersOfJoin(nodes, subgraphs, items, name, nodeName);
      ghost var joined := JoinId(subgraphs, name);
      JoinedId(subgraphs, name);
      JoinedItems(items, joined, nodes[nodeName]);
      var cid;
      if name !in subgraphs {
        cid := |subgraphs| + 1;
        subgraphs := subgraphs[name := cid];
      } else {
        cid := subgraphs[name];
      }
      items := items[cid := (if cid in items then items[cid] else {}) + {nodes[nodeName]}];
    }

    /** add_edge */
    method AddEdge(fromNode: string, toNode: string)
      requires Valid() && fromNode in nodes && toNode in nodes
      modifies this
      ensures Valid() && nodes == old(nodes)
      ensures Value() == old(Value()).(edges := old(Value()).edges + [(fromNode, toNode)])
    {
      hide Numbered, Injective, ItemsOk, MembersOf;
      assert Injective(nodes) by { NumberedInjective(nodes); }
      NameOfId(nodes, fromNode);
      NameOfId(nodes, toNode);
      edges := edges + [(nodes[fromNode], nodes[toNode])];
      assert Named(nodes, edges) == Named(nodes, old(edges)) + [(fromNode, toNode)];
    }

    lemma EdgeNames(i: nat)
      requires Valid() && i < |edges|
      ensures edges[i].0 in nodes.Values && edges[i].1 in nodes.Values
      ensures Value().edges[i] == (NameOf(nodes, edges[i].0), NameOf(nodes, edges[i].1))
      ensures NameOf(nodes, edges[i].1) in nodes
      ensures forall n <- nodes :: edges[i].0 == nodes[n] <==> NameOf(nodes, edges[i].0) == n
    {
      assert edges[i] in edges;
      forall n <- nodes ensures edges[i].0 == nodes[n] <==> NameOf(nodes, edges[i].0) == n {
        NameOfId(nodes, n);
      }
    }

    /** The closure of cut_to_roots: adds the node and what it reaches to g.  It is false where the
        original fails with a KeyError. */
    method AddReachable(g: Digraph, node: string) returns (ok: bool)
      requires Valid() && g.Valid() && g != this
      modifies g
      ensures g.Valid()
      ensures ok <==> node in old(g.Value()).nodes || node in nodes || edges == []
      ensures ok ==> Grown(Value().edges, old(g.Value()), g.Value(), node)
      decreases nodes.Keys - g.Value().nodes
    {
      hide Grown, Growing, Numbered, ItemsOk, MembersOf, Injective, Named;
      ghost var names := Value().edges;
      ghost var start := g.Value();
      if node in g.nodes {
        GrownAlready(names, start, node);
        return true;
      }
      g.AddNode(node, None);
      GrowingStart(names, start, node);
      assert g.Value() == start.(nodes := start.nodes + {node});
      NamedLength();
      for i := 0 to |edges|
        invariant g.Valid() && start.nodes + {node} <= g.Value().nodes
        invariant i > 0 ==> node in nodes
        invariant Growing(names, i, start, g.Value(), node)
      {
        if node !in nodes {
          return false;
        }
        EdgeNames(i);
        if edges[i].0 == nodes[node] {
          var toNode := NameWithId(edges[i].1);
          ghost var before := g.Value();
          var _ := AddReachable(g, toNode);
          ghost var after := g.Value();
          assert toNode in after.nodes && before.nodes <= after.nodes by {
            GrownNodes(names, before, after, toNode);
          }
          g.AddEdge(node, toNode);
          GrowingEdge(names, i, start, before, after, node);
        } else {
          GrowingSkip(names, i, start, g.Value(), node);
        }
      }
      GrowingEnd(names, start, g.Value(), node);
      return true;
    }

    lemma NamedLength()
      requires Valid()
      ensures |Value().edges| == |edges|
    {
    }

    /** id_to_name */
    method NameWithId(id: nat) returns (name: string)
      requires Valid() && id in nodes.Values
      ensures name == NameOf(nodes, id) && name in nodes && nodes[name] == id
    {
      var n :| n in nodes && nodes[n] == id;
      NameOfId(nodes, n);
      return n;
    }

    /** cut_to_roots; None is a KeyError. */
    method CutToRoots(roots: seq<string>) returns (r: Option<Digraph>)
      requires Valid()
      ensures r == None <==> edges != [] && exists x <- roots :: x !in nodes
      ensures r.Some? ==> fresh(r.value) && r.value.Valid() && IsCut(Value(), roots, r.value.Value())
    {
      hide Grown, ReachedBy, Numbered, ItemsOk, MembersOf, Injective, Named, Reaches, Surviving;
      var g := new Digraph();
      ghost var names := Value().edges;
      ReachedNone(names);
      for i := 0 to |roots|
        invariant g.Valid() && fresh(g)
        invariant ReachedBy(names, roots[..i], g.Value())
        invariant edges == [] || forall x <- roots[..i] :: x in nodes
      {
        ghost var before := g.Value();
        var ok := AddReachable(g, roots[i]);
        if !ok {
          return None;
        }
        assert roots[..i + 1] == roots[..i] + [roots[i]];
        ReachedNext(names, roots[..i], roots[i], before, g.Value());
        assert edges == [] || roots[i] in nodes by {
          if roots[i] in before.nodes && edges != [] {
            KnownRoot(roots[..i], before, roots[i]);
          }
        }
      }
      assert roots[..|roots|] == roots;
      CutComplete(Value(), roots, g.Value());
      KeepMembers(g);
      r := Some(g);
    }

    lemma KnownRoot(roots: seq<string>, g: Graph, x: string)
      requires Valid() && ReachedBy(Value().edges, roots, g) && x in g.nodes
      requires forall r <- roots :: r in nodes
      ensures x in nodes
    {
      var path :| |path| > 0 && path[0] in roots && path[|path| - 1] == x && IsPath(Value().edges, path);
      forall e <- Value().edges ensures e.1 in nodes {
        var i :| 0 <= i < |edges| && Value().edges[i] == e;
        EdgeNames(i);
      }
      ReachesWithin(Value().edges, roots, nodes.Keys, path);
    }

    /** The loop over the subgraphs that ends cut_to_roots. */
    method KeepMembers(g: Digraph)
      requires Valid() && g.Valid() && g != this && g.Value().members == map[]
      modifies g
      ensures g.Valid()
      ensures g.Value() ==
              old(g.Value()).(members := Surviving(Value().members, Value().members.Keys, old(g.Value()).nodes))
    {
      hide Numbered, ItemsOk, MembersOf, Injective, Named, Surviving, SurvivingPart, Joined;
      ghost var start := g.Value();
      ghost var members := Value().members;
      var todo := subgraphs.Keys;
      ghost var done: set<string> := {};
      assert members.Keys == todo by { MembersKeys(nodes, subgraphs, items); }
      assert Surviving(members, {}, start.nodes) == map[] by { SurvivingNone(members, start.nodes); }
      while todo != {}
        invariant g.Valid() && done !! todo && done + todo == members.Keys
        invariant g.Value() == start.(members := Surviving(members, done, start.nodes))
        decreases todo
      {
        var s :| s in todo;
        MembersAt(nodes, subgraphs, items, s);
        KeepMembersOf(g, s, done);
        SurvivingDone(members, done, start.nodes, s);
        todo, done := todo - {s}, done + {s};
      }
      assert done == members.Keys;
    }

    method KeepMembersOf(g: Digraph, s: string, ghost done: set<string>)
      requires Valid() && g.Valid() && g != this && s in Value().members && s !in done
      requires g.Value().members == Surviving(Value().members, done, g.Value().nodes)
      modifies g
      ensures g.Valid()
      ensures var members := Value().members;
              g.Value() == old(g.Value()).(members := SurvivingPart(members, done, old(g.Value()).nodes, s, members[s]))
    {
      hide Numbered, MembersOf, Injective, Named, Surviving, SurvivingPart, Joined;
      ghost var start := g.Value();
      ghost var members := Value().members;
      MembersKeys(nodes, subgraphs, items);
      MembersAt(nodes, subgraphs, items, s);
      var ids := items[subgraphs[s]];
      ghost var seen: set<string> := {};
      assert SurvivingPart(members, done, start.nodes, s, {}) == Surviving(members, done, start.nodes) by {
        SurvivingFirst(members, done, start.nodes, s);
      }
      while ids != {}
        invariant g.Valid() && ids <= items[subgraphs[s]]
        invariant seen == set n | n in nodes && nodes[n] in items[subgraphs[s]] - ids
        invariant g.Value() == start.(members := SurvivingPart(members, done, start.nodes, s, seen))
        decreases ids
      {
        var id :| id in ids;
        var name := NameWithId(id);
        SurvivingJoin(members, done, start.nodes, s, seen, name);
        if name in g.nodes {
          g.SubgraphSet(s, name);
        }
        SeenNext(items[subgraphs[s]], ids, id, name);
        seen := seen + {name};
        ids := ids - {id};
      }
      assert items[subgraphs[s]] - ids == items[subgraphs[s]];
    }

    lemma SeenNext(all: set<nat>, ids: set<nat>, id: nat, name: string)
      requires Valid() && ids <= all && id in ids && name in nodes && nodes[name] == id
      ensures (set n | n in nodes && nodes[n] in all - (ids - {id})) ==
              (set n | n in nodes && nodes[n] in all - ids) + {name}
    {
    }
  }

  lemma CutComplete(g: Graph, roots: seq<string>, h: Graph)
    requires ReachedBy(g.edges, roots, h)
    ensures h.members == map[]
    ensures IsCut(g, roots, h.(members := Surviving(g.members, g.members.Keys, h.nodes)))
  {
    ReachedAll(g.edges, roots, h);
  }

  lemma GrownNodes(edges: seq<Edge>, g: Graph, h: Graph, node: string)
    requires Grown(edges, g, h, node)
    ensures node in h.nodes && g.nodes <= h.nodes
  {
  }

  lemma ReachedNone(edges: seq<Edge>)
    ensures ReachedBy(edges, [], Graph({}, [], map[]))
  {
    FromNone(edges);
  }

  lemma SurvivingNone(members: map<string, set<string>>, nodes: set<string>)
    ensures Surviving(members, {}, nodes) == map[]
  {
  }

  lemma SurvivingFirst(members: map<string, set<string>>, done: set<string>, nodes: set<string>, s: string)
    ensures SurvivingPart(members, done, nodes, s, {}) == Surviving(members, done, nodes)
  {
    var none: set<string> := {};
    assert none * nodes == {};
  }

  lemma NumberedInjective(m: map<string, nat>)
    requires Numbered(m)
    ensures Injective(m)
  {
  }
}
