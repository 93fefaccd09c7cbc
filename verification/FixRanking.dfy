/** The order in which findmissing lists a fix, the fixes of that fix, and so on
    (get_subsequent_fixes in contrib/findmissing/missing.py). */
module FixRanking {
  import opened Prelude

  /** A row of upstream_fixes: `fixedby` fixes `upstream`. */
  datatype Row = Row(upstream: string, fixedby: string)

  /** upstream_fixes_for_shas: the fixes of any of the shas, in table order and with repetitions. */
  function Query(rows: seq<Row>, shas: set<string>): seq<string> {
    if rows == [] then []
    else (if rows[0].upstream in shas then [rows[0].fixedby] else []) + Query(rows[1..], shas)
  }

  ghost predicate Fixes(rows: seq<Row>, x: string, y: string) {
    Row(y, x) in rows
  }

  lemma {:induction false} QueryIs(rows: seq<Row>, shas: set<string>, x: string)
    ensures x in Query(rows, shas) <==> exists y <- shas :: Fixes(rows, x, y)
  {
    if rows != [] {
      QueryIs(rows[1..], shas, x);
      assert rows == [rows[0]] + rows[1..];
      if y :| y in shas && Fixes(rows, x, y) {
        assert Row(y, x) == rows[0] || Row(y, x) in rows[1..];
      }
      if x in Query(rows[1..], shas) {
        var y :| y in shas && Fixes(rows[1..], x, y);
        assert Fixes(rows, x, y);
      }
      if rows[0].upstream in shas && x == rows[0].fixedby {
        assert Fixes(rows, x, rows[0].upstream);
      }
    }
  }

  // ---------- distances and ranks ----------

  ghost function Fixers(rows: seq<Row>, shas: set<string>): set<string> {
    Elements(Query(rows, shas))
  }

  /** The shas first met after k rounds, and those met in the first k + 1 rounds. */
  ghost function Layer(rows: seq<Row>, root: string, k: nat): set<string>
    decreases k, 0
  {
    if k == 0 then {root} else Fixers(rows, Layer(rows, root, k - 1)) - Seen(rows, root, k - 1)
  }

  ghost function Seen(rows: seq<Row>, root: string, k: nat): set<string>
    decreases k, 1
  {
    Layer(rows, root, k) + if k == 0 then {} else Seen(rows, root, k - 1)
  }

  /** A chain of fixes from the root: each element fixes the one before. */
  ghost predicate IsChain(rows: seq<Row>, root: string, chain: seq<string>) {
    && |chain| > 0 && chain[0] == root
    && forall i :: 0 < i < |chain| ==> Fixes(rows, chain[i], chain[i - 1])
  }

  ghost predicate ReachesIn(rows: seq<Row>, root: string, x: string, k: nat) {
    exists chain :: IsChain(rows, root, chain) && |chain| == k + 1 && chain[k] == x
  }

  ghost predicate Reachable(rows: seq<Row>, root: string, x: string) {
    exists k: nat :: ReachesIn(rows, root, x, k)
  }

  /** k is the length of a shortest chain from the root to x. */
  ghost predicate Distance(rows: seq<Row>, root: string, x: string, k: nat) {
    ReachesIn(rows, root, x, k) && forall j: nat :: j < k ==> !ReachesIn(rows, root, x, j)
  }

  lemma ReachesNext(rows: seq<Row>, root: string, x: string, k: nat)
    ensures ReachesIn(rows, root, x, k + 1) <==> exists y :: ReachesIn(rows, root, y, k) && Fixes(rows, x, y)
  {
    if chain :| IsChain(rows, root, chain) && |chain| == k + 2 && chain[k + 1] == x {
      var front := chain[..k + 1];
      assert IsChain(rows, root, front) && front[k] == chain[k];
      assert ReachesIn(rows, root, chain[k], k) && Fixes(rows, x, chain[k]);
    }
    if y :| ReachesIn(rows, root, y, k) && Fixes(rows, x, y) {
      var chain :| IsChain(rows, root, chain) && |chain| == k + 1 && chain[k] == y;
      var longer := chain + [x];
      assert IsChain(rows, root, longer) && |longer| == k + 2 && longer[k + 1] == x;
    }
  }

  lemma ReachesZero(rows: seq<Row>, root: string, x: string)
    ensures ReachesIn(rows, root, x, 0) <==> x == root
  {
    assert IsChain(rows, root, [root]) && |[root]| == 1 && [root][0] == root;
  }

  lemma {:induction false} SeenFrom(rows: seq<Row>, root: string, k: nat, x: string) returns (j: nat)
    requires x in Seen(rows, root, k)
    ensures j <= k && x in Layer(rows, root, j)
  {
    j := k;
    if x !in Layer(rows, root, k) {
      j := SeenFrom(rows, root, k - 1, x);
    }
  }

  lemma {:induction false} SeenSince(rows: seq<Row>, root: string, j: nat, k: nat, x: string)
    requires j <= k && x in Layer(rows, root, j)
    ensures x in Seen(rows, root, k)
    decreases k
  {
    if j < k {
      SeenSince(rows, root, j, k - 1, x);
    }
  }

  /** The rounds are the breadth-first distances. */
  lemma {:induction false} LayerIsDistance(rows: seq<Row>, root: string, k: nat, x: string)
    ensures x in Layer(rows, root, k) <==> Distance(rows, root, x, k)
    decreases k
  {
    ReachesZero(rows, root, x);
    if k > 0 {
      if Distance(rows, root, x, k) {
        DistanceInLayer(rows, root, k, x);
      }
      if x in Layer(rows, root, k) {
        LayerAtDistance(rows, root, k, x);
      }
    }
  }

  lemma {:induction false} DistanceInLayer(rows: seq<Row>, root: string, k: nat, x: string)
    requires k > 0 && Distance(rows, root, x, k)
    ensures x in Layer(rows, root, k)
    decreases k, 0
  {
    hide ReachesIn, Fixes;
    ReachesNext(rows, root, x, k - 1);
    var y :| ReachesIn(rows, root, y, k - 1) && Fixes(rows, x, y);
    forall j: nat | j < k - 1 ensures !ReachesIn(rows, root, y, j) {
      ReachesNext(rows, root, x, j);
    }
    LayerIsDistance(rows, root, k - 1, y);
    QueryIs(rows, Layer(rows, root, k - 1), x);
    if x in Seen(rows, root, k - 1) {
      var j := SeenFrom(rows, root, k - 1, x);
      LayerIsDistance(rows, root, j, x);
    }
  }

  lemma {:induction false} LayerAtDistance(rows: seq<Row>, root: string, k: nat, x: string)
    requires k > 0 && x in Layer(rows, root, k)
    ensures Distance(rows, root, x, k)
    decreases k, 0
  {
    hide ReachesIn, Fixes, Query;
    assert x in Query(rows, Layer(rows, root, k - 1)) && x !in Seen(rows, root, k - 1);
    hide Layer, Seen;
    QueryIs(rows, Layer(rows, root, k - 1), x);
    var y :| y in Layer(rows, root, k - 1) && Fixes(rows, x, y);
    LayerIsDistance(rows, root, k - 1, y);
    assert ReachesIn(rows, root, y, k - 1);
    hide Distance;
    ReachesNext(rows, root, x, k - 1);
    forall j: nat | j < k ensures !ReachesIn(rows, root, x, j) {
      if ReachesIn(rows, root, x, j) {
        var i := Shortest(rows, root, x, j);
        LayerIsDistance(rows, root, i, x);
        SeenSince(rows, root, i, k - 1, x);
      }
    }
    IsDistance(rows, root, x, k);
  }

  lemma IsDistance(rows: seq<Row>, root: string, x: string, k: nat)
    requires ReachesIn(rows, root, x, k) && forall j: nat :: j < k ==> !ReachesIn(rows, root, x, j)
    ensures Distance(rows, root, x, k)
  {
  }

  lemma {:induction false} Shortest(rows: seq<Row>, root: string, x: string, k: nat) returns (d: nat)
    requires ReachesIn(rows, root, x, k)
    ensures d <= k && Distance(rows, root, x, d)
  {
    d := k;
    if j: nat :| j < k && ReachesIn(rows, root, x, j) {
      d := Shortest(rows, root, x, j);
    }
  }

  /** The last of the first n rounds in which x was found to fix something, counted from 1. */
  ghost function RankAfter(rows: seq<Row>, root: string, n: nat, x: string): nat {
    if n == 0 then 0
    else if x in Fixers(rows, Layer(rows, root, n - 1)) then n
    else RankAfter(rows, root, n - 1, x)
  }

  /** x fixes a sha at distance d. */
  ghost predicate FixesAt(rows: seq<Row>, root: string, x: string, d: nat) {
    exists y :: Fixes(rows, x, y) && Distance(rows, root, y, d)
  }

  /** r is 1 plus the largest distance of a sha that x fixes, or 0 if x fixes no reachable sha. */
  ghost predicate Rank(rows: seq<Row>, root: string, x: string, r: nat) {
    && (forall d: nat :: FixesAt(rows, root, x, d) ==> d < r)
    && (r > 0 ==> FixesAt(rows, root, x, r - 1))
  }

  lemma FixersIs(rows: seq<Row>, root: string, k: nat, x: string)
    ensures x in Fixers(rows, Layer(rows, root, k)) <==> FixesAt(rows, root, x, k)
  {
    QueryIs(rows, Layer(rows, root, k), x);
    if y :| Fixes(rows, x, y) && Distance(rows, root, y, k) {
      LayerIsDistance(rows, root, k, y);
    }
    if y :| y in Layer(rows, root, k) && Fixes(rows, x, y) {
      LayerIsDistance(rows, root, k, y);
    }
  }

  lemma RankUnique(rows: seq<Row>, root: string, x: string, r: nat, s: nat)
    requires Rank(rows, root, x, r) && Rank(rows, root, x, s)
    ensures r == s
  {
    assert r > 0 ==> FixesAt(rows, root, x, r - 1);
    assert s > 0 ==> FixesAt(rows, root, x, s - 1);
  }

  lemma {:induction false} RankAfterIs(rows: seq<Row>, root: string, n: nat, x: string)
    ensures var r := RankAfter(rows, root, n, x);
            && r <= n
            && (forall d: nat :: d < n && FixesAt(rows, root, x, d) ==> d < r)
            && (r > 0 ==> FixesAt(rows, root, x, r - 1))
  {
    hide Layer, FixesAt;
    if n > 0 {
      RankAfterIs(rows, root, n - 1, x);
      FixersIs(rows, root, n - 1, x);
    }
  }

  /** Once a round finds nothing new, later rounds would find nothing at all. */
  lemma {:induction false} EmptyLayers(rows: seq<Row>, root: string, n: nat, k: nat)
    requires Layer(rows, root, n) == {} && n <= k
    ensures Layer(rows, root, k) == {}
  {
    if k > n {
      hide Query, Fixes, Seen;
      EmptyLayers(rows, root, n, k - 1);
      forall x ensures x !in Fixers(rows, {}) {
        QueryIs(rows, {}, x);
      }
    }
  }

  lemma FinalRank(rows: seq<Row>, root: string, n: nat, x: string)
    requires Layer(rows, root, n) == {}
    ensures Rank(rows, root, x, RankAfter(rows, root, n, x))
  {
    RankAfterIs(rows, root, n, x);
    forall d: nat | FixesAt(rows, root, x, d) ensures d < n {
      var y :| Fixes(rows, x, y) && Distance(rows, root, y, d);
      LayerIsDistance(rows, root, d, y);
      if n <= d {
        EmptyLayers(rows, root, n, d);
      }
    }
  }

  lemma FinalSeen(rows: seq<Row>, root: string, n: nat, x: string)
    requires Layer(rows, root, n) == {}
    ensures x in Seen(rows, root, n) <==> Reachable(rows, root, x)
  {
    if x in Seen(rows, root, n) {
      var j := SeenFrom(rows, root, n, x);
      LayerIsDistance(rows, root, j, x);
    }
    if Reachable(rows, root, x) {
      var k: nat :| ReachesIn(rows, root, x, k);
      var d := Shortest(rows, root, x, k);
      LayerIsDistance(rows, root, d, x);
      if n <= d {
        EmptyLayers(rows, root, n, d);
      }
      SeenSince(rows, root, d, n, x);
    }
  }

  // ---------- the final sort ----------

  /** list.sort by rank: stable insertion before the first element that does not rank lower. */
  function Insert(ranks: map<string, nat>, x: string, sorted: seq<string>): seq<string>
    requires x in ranks && forall y <- sorted :: y in ranks
  {
    if sorted == [] || ranks[sorted[0]] >= ranks[x] then [x] + sorted
    else [sorted[0]] + Insert(ranks, x, sorted[1..])
  }

  function SortByRank(ranks: map<string, nat>, xs: seq<string>): (r: seq<string>)
    requires forall x <- xs :: x in ranks
    ensures multiset(r) == multiset(xs)
    ensures forall x <- r :: x in ranks
  {
    if xs == [] then []
    else
      var rest := SortByRank(ranks, xs[1..]);
      InsertContents(ranks, xs[0], rest);
      assert xs == [xs[0]] + xs[1..];
      SameElements(xs, Insert(ranks, xs[0], rest));
      Insert(ranks, xs[0], rest)
  }

  lemma SameElements(xs: seq<string>, ys: seq<string>)
    requires multiset(xs) == multiset(ys)
    ensures forall x :: x in xs <==> x in ys
  {
    forall x ensures x in xs <==> x in ys {
      assert x in xs <==> x in multiset(xs);
    }
  }

  lemma {:induction false} InsertContents(ranks: map<string, nat>, x: string, sorted: seq<string>)
    requires x in ranks && forall y <- sorted :: y in ranks
    ensures multiset(Insert(ranks, x, sorted)) == multiset(sorted) + multiset{x}
  {
    if sorted != [] {
      assert sorted == [sorted[0]] + sorted[1..];
      InsertContents(ranks, x, sorted[1..]);
    }
  }

  ghost predicate Ascending(ranks: map<string, nat>, xs: seq<string>) {
    && (forall x <- xs :: x in ranks)
    && forall i, j :: 0 <= i < j < |xs| ==> ranks[xs[i]] <= ranks[xs[j]]
  }

  lemma {:induction false} InsertAscending(ranks: map<string, nat>, x: string, sorted: seq<string>)
    requires x in ranks && Ascending(ranks, sorted)
    ensures Ascending(ranks, Insert(ranks, x, sorted))
  {
    if sorted == [] || ranks[x] <= ranks[sorted[0]] {
      AscendingFront(ranks, x, sorted);
    } else {
      AscendingRest(ranks, sorted);
      hide Ascending;
      InsertAscending(ranks, x, sorted[1..]);
      InsertContents(ranks, x, sorted[1..]);
      assert sorted == [sorted[0]] + sorted[1..];
      AscendingFrom(ranks, sorted[0], x, sorted[1..], Insert(ranks, x, sorted[1..]));
    }
  }

  lemma AscendingFront(ranks: map<string, nat>, x: string, sorted: seq<string>)
    requires x in ranks && Ascending(ranks, sorted) && (sorted == [] || ranks[x] <= ranks[sorted[0]])
    ensures Ascending(ranks, [x] + sorted)
  {
  }

  lemma AscendingRest(ranks: map<string, nat>, sorted: seq<string>)
    requires sorted != [] && Ascending(ranks, sorted)
    ensures Ascending(ranks, sorted[1..])
  {
  }

  lemma AscendingFrom(ranks: map<string, nat>, first: string, x: string, rest: seq<string>, r: seq<string>)
    requires Ascending(ranks, r) && Ascending(ranks, [first] + rest) && x in ranks && ranks[first] < ranks[x]
    requires multiset(r) == multiset(rest) + multiset{x}
    ensures Ascending(ranks, [first] + r)
  {
    forall i | 0 <= i < |r| ensures ranks[first] <= ranks[r[i]] {
      assert r[i] in multiset(r);
      if r[i] != x {
        assert r[i] in rest;
        var j :| 0 <= j < |rest| && rest[j] == r[i];
        assert ([first] + rest)[0] == first && ([first] + rest)[j + 1] == rest[j];
      }
    }
  }

  lemma {:induction false} SortAscending(ranks: map<string, nat>, xs: seq<string>)
    requires forall x <- xs :: x in ranks
    ensures Ascending(ranks, SortByRank(ranks, xs))
  {
    if xs != [] {
      SortAscending(ranks, xs[1..]);
      InsertAscending(ranks, xs[0], SortByRank(ranks, xs[1..]));
    }
  }

  /** x occurs in xs before y does. */
  ghost predicate Earlier(xs: seq<string>, x: string, y: string) {
    exists i :: 0 <= i < |xs| && xs[i] == x && y !in xs[..i + 1]
  }

  lemma EarlierFront(a: string, xs: seq<string>, x: string, y: string)
    ensures Earlier([a] + xs, x, y) <==> a != y && (a == x || Earlier(xs, x, y))
  {
    var all := [a] + xs;
    assert all[..1] == [a];
    if i :| 0 <= i < |all| && all[i] == x && y !in all[..i + 1] {
      assert all[..i + 1][0] == a && all[..i + 1] == [a] + xs[..i];
      if i > 0 {
        assert xs[i - 1] == x && y !in xs[..i];
      }
    }
    if i :| 0 <= i < |xs| && xs[i] == x && y !in xs[..i + 1] {
      assert all[i + 1] == x && all[..i + 2] == [a] + xs[..i + 1];
    }
    if a == x && a != y {
      assert all[0] == x && y !in all[..1];
    }
  }

  /** A row of the shas for the fix x comes before every row of the shas for y. */
  ghost predicate InTableOrder(rows: seq<Row>, shas: set<string>, x: string, y: string) {
    exists i :: 0 <= i < |rows| && rows[i].upstream in shas && rows[i].fixedby == x
                && forall j :: 0 <= j <= i && rows[j].upstream in shas ==> rows[j].fixedby != y
  }

  lemma TableOrderFront(rows: seq<Row>, shas: set<string>, x: string, y: string)
    requires rows != []
    ensures InTableOrder(rows, shas, x, y) <==>
            if rows[0].upstream in shas
            then rows[0].fixedby != y && (rows[0].fixedby == x || InTableOrder(rows[1..], shas, x, y))
            else InTableOrder(rows[1..], shas, x, y)
  {
    var rest := rows[1..];
    if i :| 0 <= i < |rows| && rows[i].upstream in shas && rows[i].fixedby == x
            && forall j :: 0 <= j <= i && rows[j].upstream in shas ==> rows[j].fixedby != y {
      if i > 0 {
        assert rest[i - 1] == rows[i];
        assert forall j :: 0 <= j <= i - 1 ==> rest[j] == rows[j + 1];
      }
    }
    if i :| 0 <= i < |rest| && rest[i].upstream in shas && rest[i].fixedby == x
            && forall j :: 0 <= j <= i && rest[j].upstream in shas ==> rest[j].fixedby != y {
      assert rows[i + 1] == rest[i];
      assert forall j :: 1 <= j <= i + 1 ==> rows[j] == rest[j - 1];
    }
  }

  /** The answers to a query come in the order of the table. */
  lemma {:induction false} AnswersInTableOrder(rows: seq<Row>, shas: set<string>, x: string, y: string)
    ensures Earlier(Query(rows, shas), x, y) <==> InTableOrder(rows, shas, x, y)
  {
    if rows != [] {
      hide Earlier, InTableOrder;
      AnswersInTableOrder(rows[1..], shas, x, y);
      TableOrderFront(rows, shas, x, y);
      if rows[0].upstream in shas {
        EarlierFront(rows[0].fixedby, Query(rows[1..], shas), x, y);
      } else {
        assert [] + Query(rows[1..], shas) == Query(rows[1..], shas);
      }
    }
  }

  lemma EarlierAsymmetric(xs: seq<string>, x: string, y: string)
    requires Earlier(xs, x, y)
    ensures !Earlier(xs, y, x)
  {
    var i :| 0 <= i < |xs| && xs[i] == x && y !in xs[..i + 1];
    assert forall m :: 0 <= m <= i ==> xs[m] == xs[..i + 1][m] && xs[..i + 1][m] in xs[..i + 1];
    forall k | 0 <= k < |xs| && xs[k] == y ensures x in xs[..k + 1] {
      assert i < k;
      assert xs[..k + 1][i] == x;
    }
  }

  /** The element is inserted behind everything that ranks lower and before everything else. */
  lemma {:induction false} InsertedAt(ranks: map<string, nat>, x: string, sorted: seq<string>) returns (k: nat)
    requires x in ranks && forall y <- sorted :: y in ranks
    ensures k <= |sorted| && Insert(ranks, x, sorted) == sorted[..k] + [x] + sorted[k..]
    ensures forall m :: 0 <= m < k ==> ranks[sorted[m]] < ranks[x]
  {
    if sorted == [] || ranks[sorted[0]] >= ranks[x] {
      k := 0;
    } else {
      var rest := InsertedAt(ranks, x, sorted[1..]);
      k := rest + 1;
      forall m | 0 <= m < k ensures ranks[sorted[m]] < ranks[x] {
        assert m > 0 ==> sorted[m] == sorted[1..][m - 1];
      }
      assert [sorted[0]] + (sorted[1..][..rest] + [x] + sorted[1..][rest..]) == sorted[..k] + [x] + sorted[k..];
    }
  }

  ghost predicate Before(xs: seq<string>, x: string, y: string) {
    exists a, b :: 0 <= a < b < |xs| && xs[a] == x && xs[b] == y
  }

  lemma BeforeTail(x: string, tail: seq<string>, y: string, z: string)
    ensures y in tail ==> Before([x] + tail, x, y)
    ensures Before(tail, y, z) ==> Before([x] + tail, y, z)
  {
    var xs := [x] + tail;
    if y in tail {
      var b :| 0 <= b < |tail| && tail[b] == y;
      assert xs[0] == x && xs[b + 1] == y;
    }
    if Before(tail, y, z) {
      var a, b :| 0 <= a < b < |tail| && tail[a] == y && tail[b] == z;
      assert xs[a + 1] == y && xs[b + 1] == z;
    }
  }

  /** Elements of one rank come in the order of xs. */
  ghost predicate Stable(ranks: map<string, nat>, xs: seq<string>, r: seq<string>)
    requires forall x <- r :: x in ranks
  {
    forall i, j :: 0 <= i < j < |r| && ranks[r[i]] == ranks[r[j]] ==> Before(xs, r[i], r[j])
  }

  lemma InsertStable(ranks: map<string, nat>, x: string, tail: seq<string>, rest: seq<string>, k: nat)
    requires x in ranks && k <= |rest| && (forall y <- rest :: y in ranks) && Stable(ranks, tail, rest)
    requires (forall m :: 0 <= m < k ==> ranks[rest[m]] < ranks[x]) && forall y <- rest :: y in tail
    ensures (forall y <- rest[..k] + [x] + rest[k..] :: y in ranks)
            && Stable(ranks, [x] + tail, rest[..k] + [x] + rest[k..])
  {
    var r := rest[..k] + [x] + rest[k..];
    assert r[k] == x && (forall m :: 0 <= m < k ==> r[m] == rest[m]) && forall m :: k < m < |r| ==> r[m] == rest[m - 1];
    hide Before;
    forall i, j | 0 <= i < j < |r| && ranks[r[i]] == ranks[r[j]] ensures Before([x] + tail, r[i], r[j]) {
      BeforeTail(x, tail, r[j], r[j]);
      BeforeTail(x, tail, r[i], r[j]);
    }
  }

  /** The sort is stable. */
  lemma {:induction false} SortStable(ranks: map<string, nat>, xs: seq<string>)
    requires forall x <- xs :: x in ranks
    ensures Stable(ranks, xs, SortByRank(ranks, xs))
  {
    if xs != [] {
      hide Stable, Insert, SortByRank;
      var x, tail := xs[0], xs[1..];
      var rest := SortByRank(ranks, tail);
      SortStable(ranks, tail);
      var k := InsertedAt(ranks, x, rest);
      SameElements(tail, rest);
      InsertStable(ranks, x, tail, rest, k);
      SortNext(ranks, xs);
      assert xs == [x] + tail;
    }
  }

  lemma SortNext(ranks: map<string, nat>, xs: seq<string>)
    requires xs != [] && forall x <- xs :: x in ranks
    ensures SortByRank(ranks, xs) == Insert(ranks, xs[0], SortByRank(ranks, xs[1..]))
  {
  }

  /** The first of the unsorted elements stays first exactly if none ranks lower. */
  lemma SortKeepsFirst(ranks: map<string, nat>, xs: seq<string>)
    requires xs != [] && forall x <- xs :: x in ranks
    ensures SortByRank(ranks, xs) != []
    ensures SortByRank(ranks, xs)[0] == xs[0] <==> forall x <- xs :: ranks[xs[0]] <= ranks[x]
  {
    SortAscending(ranks, xs);
    var rest := SortByRank(ranks, xs[1..]);
    var r := SortByRank(ranks, xs);
    SameElements(xs, r);
    assert r[0] in r;
    if r[0] == xs[0] {
      forall x <- xs ensures ranks[xs[0]] <= ranks[x] {
        assert x in r;
      }
    } else {
      assert rest != [] && ranks[rest[0]] < ranks[xs[0]];
      SameElements(xs[1..], rest);
      assert rest[0] in rest;
    }
  }

  // ---------- the algorithm ----------

  /** x is met before y: in an earlier round, or earlier among the answers of the same round. */
  ghost predicate Arrives(rows: seq<Row>, root: string, x: string, y: string) {
    exists i: nat, j: nat ::
      && x in Layer(rows, root, i) && y in Layer(rows, root, j)
      && (i < j || (i == j && i > 0 && Earlier(Query(rows, Layer(rows, root, i - 1)), x, y)))
  }

  lemma LayersApart(rows: seq<Row>, root: string, i: nat, j: nat, x: string)
    requires x in Layer(rows, root, i) && x in Layer(rows, root, j)
    ensures i == j
  {
    hide Layer;
    LayerIsDistance(rows, root, i, x);
    LayerIsDistance(rows, root, j, x);
  }

  lemma ArrivesAsymmetric(rows: seq<Row>, root: string, x: string, y: string)
    requires Arrives(rows, root, x, y)
    ensures !Arrives(rows, root, y, x)
  {
    hide Layer, Earlier;
    var i: nat, j: nat :| x in Layer(rows, root, i) && y in Layer(rows, root, j)
                          && (i < j || (i == j && i > 0 && Earlier(Query(rows, Layer(rows, root, i - 1)), x, y)));
    if Arrives(rows, root, y, x) {
      var k: nat, l: nat :| y in Layer(rows, root, k) && x in Layer(rows, root, l)
                            && (k < l || (k == l && k > 0 && Earlier(Query(rows, Layer(rows, root, k - 1)), y, x)));
      LayersApart(rows, root, i, l, x);
      LayersApart(rows, root, j, k, y);
      EarlierAsymmetric(Query(rows, Layer(rows, root, i - 1)), x, y);
    }
  }

  /** The dict keeps its keys in the order in which they are met. */
  ghost predicate InArrival(rows: seq<Row>, root: string, order: seq<string>) {
    forall i, j :: 0 <= i < j < |order| ==> Arrives(rows, root, order[i], order[j])
  }

  /** The table names finitely many shas. */
  ghost function Named(rows: seq<Row>, root: string): set<string> {
    {root} + set row <- rows :: row.fixedby
  }

  lemma {:induction false} QueryNamed(rows: seq<Row>, root: string, shas: set<string>)
    ensures Elements(Query(rows, shas)) <= Named(rows, root)
  {
    forall x <- Query(rows, shas) ensures x in set row <- rows :: row.fixedby {
      QueryIs(rows, shas, x);
      var y :| y in shas && Fixes(rows, x, y);
      assert Row(y, x).fixedby == x;
    }
  }

  /** r lists the reachable shas once each, in the order of their ranks, and those of one rank in the
      order in which they are met. */
  ghost predicate IsListing(rows: seq<Row>, root: string, r: seq<string>, ranks: seq<nat>) {
    && (forall x :: x in r <==> Reachable(rows, root, x))
    && Distinct(r)
    && |ranks| == |r|
    && (forall i :: 0 <= i < |r| ==> Rank(rows, root, r[i], ranks[i]))
    && (forall i, j :: 0 <= i < j < |r| ==> ranks[i] <= ranks[j])
    && (forall i, j :: 0 <= i < j < |r| && ranks[i] == ranks[j] ==> Arrives(rows, root, r[i], r[j]))
  }

  /** No reachable sha ranks below the root. */
  ghost predicate RootRanksLowest(rows: seq<Row>, root: string) {
    forall x, s: nat, t: nat :: Reachable(rows, root, x) && Rank(rows, root, root, s) && Rank(rows, root, x, t) ==>
        s <= t
  }

  /** What the dict holds after n rounds: keys in insertion order, and the rank of each. */
  ghost predicate Round(rows: seq<Row>, root: string, n: nat, fixes: map<string, nat>, order: seq<string>) {
    && fixes.Keys == Seen(rows, root, n)
    && Elements(order) == fixes.Keys && Distinct(order)
    && order != [] && order[0] == root && InArrival(rows, root, order)
    && forall x <- fixes :: fixes[x] == RankAfter(rows, root, n, x)
  }

  /** The middle of round n: the first i answers of the query have been entered. */
  ghost predicate InRound(rows: seq<Row>, root: string, n: nat, answers: seq<string>, i: nat,
                          fixes: map<string, nat>, order: seq<string>)
    requires n > 0 && i <= |answers|
  {
    && fixes.Keys == Seen(rows, root, n - 1) + Elements(answers[..i])
    && Elements(order) == fixes.Keys && Distinct(order)
    && order != [] && order[0] == root && InArrival(rows, root, order)
    && forall x <- fixes :: fixes[x] == if x in answers[..i] then n else RankAfter(rows, root, n - 1, x)
  }

  lemma EnterAnswer(rows: seq<Row>, root: string, n: nat, answers: seq<string>, i: nat, fixes: map<string, nat>,
                    order: seq<string>)
    requires n > 0 && i < |answers| && InRound(rows, root, n, answers, i, fixes, order)
    requires answers == Query(rows, Layer(rows, root, n - 1))
    ensures InRound(rows, root, n, answers, i + 1, fixes[answers[i] := n],
                    if answers[i] in fixes then order else order + [answers[i]])
  {
    hide Seen, RankAfter, InArrival, Layer, Query;
    var x := answers[i];
    assert answers[..i + 1] == answers[..i] + [x];
    assert Elements(answers[..i + 1]) == Elements(answers[..i]) + {x};
    if x !in fixes {
      assert x !in order by {
        assert x !in Elements(order);
      }
      assert Elements(order + [x]) == Elements(order) + {x};
      ArrivesLast(rows, root, n, answers, i, order);
    }
  }

  /** A new answer is met after everything that the dict holds. */
  lemma ArrivesLast(rows: seq<Row>, root: string, n: nat, answers: seq<string>, i: nat, order: seq<string>)
    requires n > 0 && answers == Query(rows, Layer(rows, root, n - 1)) && i < |answers|
    requires Elements(order) == Seen(rows, root, n - 1) + Elements(answers[..i]) && answers[i] !in Elements(order)
    requires InArrival(rows, root, order)
    ensures InArrival(rows, root, order + [answers[i]])
  {
    hide Arrives, Seen, Layer, Query;
    forall y <- order ensures Arrives(rows, root, y, answers[i]) {
      assert y in Elements(order);
      if y in Seen(rows, root, n - 1) {
        SeenArrives(rows, root, n, answers, i, y);
      } else {
        var m :| 0 <= m < |answers[..i]| && answers[..i][m] == y;
        AnswerArrives(rows, root, n, answers, m, i);
      }
    }
  }

  lemma SeenArrives(rows: seq<Row>, root: string, n: nat, answers: seq<string>, i: nat, y: string)
    requires n > 0 && answers == Query(rows, Layer(rows, root, n - 1)) && i < |answers|
    requires answers[i] !in Seen(rows, root, n - 1) && y in Seen(rows, root, n - 1)
    ensures Arrives(rows, root, y, answers[i])
  {
    hide Query, Seen, Earlier;
    var j := SeenFrom(rows, root, n - 1, y);
    assert answers[i] in Layer(rows, root, n);
  }

  lemma AnswerArrives(rows: seq<Row>, root: string, n: nat, answers: seq<string>, m: nat, i: nat)
    requires n > 0 && answers == Query(rows, Layer(rows, root, n - 1)) && m < i < |answers|
    requires answers[i] !in Seen(rows, root, n - 1) && answers[m] !in Seen(rows, root, n - 1)
    requires answers[i] !in answers[..i]
    ensures Arrives(rows, root, answers[m], answers[i])
  {
    hide Query, Seen, Earlier;
    EarlierAt(answers, m, i);
    assert answers[i] in Layer(rows, root, n) && answers[m] in Layer(rows, root, n);
  }

  lemma EarlierAt(xs: seq<string>, m: nat, i: nat)
    requires m < i < |xs| && xs[i] !in xs[..i]
    ensures Earlier(xs, xs[m], xs[i])
  {
    assert forall y <- xs[..m + 1] :: y in xs[..i];
  }

  lemma EndRound(rows: seq<Row>, root: string, n: nat, answers: seq<string>, fixes: map<string, nat>,
                 order: seq<string>)
    requires n > 0 && answers == Query(rows, Layer(rows, root, n - 1))
    requires InRound(rows, root, n, answers, |answers|, fixes, order)
    ensures Round(rows, root, n, fixes, order)
    ensures Elements(answers) - Seen(rows, root, n - 1) == Layer(rows, root, n)
  {
    assert answers[..|answers|] == answers;
    forall x <- fixes ensures fixes[x] == RankAfter(rows, root, n, x) {
      assert x in answers <==> x in Fixers(rows, Layer(rows, root, n - 1));
    }
  }

  method GetSubsequentFixes(rows: seq<Row>, root: string) returns (r: seq<string>, ghost ranks: seq<nat>)
    ensures IsListing(rows, root, r, ranks)
    ensures r != [] && (r[0] == root <==> RootRanksLowest(rows, root))
  {
    hide Round, InRound, Layer, Seen, RootRanksLowest, IsListing, Query, RankAfter, InArrival, Named, Distinct;
    var fixes: map<string, nat> := map[root := 0];
    var order := [root];
    var iteration := 0;
    var newShas := {root};
    FirstRound(rows, root);
    ghost var names := Named(rows, root);
    while newShas != {}
      invariant newShas == Layer(rows, root, iteration)
      invariant Round(rows, root, iteration, fixes, order)
      invariant newShas <= fixes.Keys <= names
      decreases names - fixes.Keys, newShas != {}
    {
      iteration := iteration + 1;
      var seenShas := fixes.Keys;
      var fixesForNew := Query(rows, newShas);
      QueryNamed(rows, root, newShas);
      assert InRound(rows, root, iteration, fixesForNew, 0, fixes, order) by {
        BeginRound(rows, root, iteration, fixesForNew, fixes, order);
      }
      assert seenShas == Seen(rows, root, iteration - 1) by {
        RoundKeys(rows, root, iteration - 1, fixes, order);
      }
      for i := 0 to |fixesForNew|
        invariant InRound(rows, root, iteration, fixesForNew, i, fixes, order)
        invariant fixes.Keys == seenShas + Elements(fixesForNew[..i])
      {
        var sha := fixesForNew[i];
        assert fixesForNew[..i + 1] == fixesForNew[..i] + [sha];
        var current := if sha in fixes && fixes[sha] != 0 then fixes[sha] else 0;
        assert current <= iteration by {
          RanksBounded(rows, root, iteration, fixesForNew, i, fixes, order, sha);
        }
        EnterAnswer(rows, root, iteration, fixesForNew, i, fixes, order);
        if sha !in fixes {
          order := order + [sha];
        }
        fixes := fixes[sha := if current > iteration then current else iteration];
      }
      assert fixesForNew[..|fixesForNew|] == fixesForNew;
      EndRound(rows, root, iteration, fixesForNew, fixes, order);
      newShas := (set x | x in fixesForNew) - seenShas;
    }
    r, ranks := Finish(rows, root, iteration, fixes, order);
  }

  method Finish(rows: seq<Row>, root: string, ghost n: nat, fixes: map<string, nat>, order: seq<string>)
    returns (r: seq<string>, ghost ranks: seq<nat>)
    requires Layer(rows, root, n) == {} && Round(rows, root, n, fixes, order)
    ensures IsListing(rows, root, r, ranks)
    ensures r != [] && (r[0] == root <==> RootRanksLowest(rows, root))
  {
    hide Layer, Seen, RankAfter, SortByRank, Rank, Reachable, InArrival, Distinct, IsListing, RootRanksLowest;
    LastRound(rows, root, n, fixes, order);
    r := SortByRank(fixes, order);
    SameElements(order, r);
    ranks := seq(|r|, i requires 0 <= i < |r| && r[i] in fixes => fixes[r[i]]);
    SortedIsListing(rows, root, fixes, order, ranks);
    SortKeepsFirst(fixes, order);
    RootFirst(rows, root, fixes, order);
  }

  /** After the last round the dict holds the reachable shas and their ranks. */
  lemma LastRound(rows: seq<Row>, root: string, n: nat, fixes: map<string, nat>, order: seq<string>)
    requires Layer(rows, root, n) == {} && Round(rows, root, n, fixes, order)
    ensures forall x :: x in order <==> x in fixes
    ensures forall x :: x in order <==> Reachable(rows, root, x)
    ensures forall x <- fixes :: Rank(rows, root, x, fixes[x])
  {
    hide Layer, Seen, RankAfter, Rank, Reachable, InArrival;
    forall x ensures x in order <==> x in fixes {
      assert x in order <==> x in Elements(order);
    }
    forall x ensures x in order <==> Reachable(rows, root, x) {
      FinalSeen(rows, root, n, x);
    }
    forall x <- fixes ensures Rank(rows, root, x, fixes[x]) {
      FinalRank(rows, root, n, x);
    }
  }

  lemma SortedIsListing(rows: seq<Row>, root: string, fixes: map<string, nat>, order: seq<string>, ranks: seq<nat>)
    requires (forall x :: x in order <==> x in fixes) && forall x :: x in order <==> Reachable(rows, root, x)
    requires Distinct(order) && InArrival(rows, root, order) && forall x <- fixes :: Rank(rows, root, x, fixes[x])
    requires var r := SortByRank(fixes, order);
             |ranks| == |r| && forall i :: 0 <= i < |r| ==> r[i] in fixes && ranks[i] == fixes[r[i]]
    ensures IsListing(rows, root, SortByRank(fixes, order), ranks)
  {
    hide SortByRank, Rank, Reachable, Arrives;
    var r := SortByRank(fixes, order);
    SameElements(order, r);
    SortAscending(fixes, order);
    DistinctByMultiset(order, r);
    TiesInArrival(rows, root, fixes, order);
    hide Distinct, InArrival;
  }

  lemma TiesInArrival(rows: seq<Row>, root: string, fixes: map<string, nat>, order: seq<string>)
    requires (forall x <- order :: x in fixes) && Distinct(order) && InArrival(rows, root, order)
    ensures var r := SortByRank(fixes, order);
            forall i, j :: 0 <= i < j < |r| && fixes[r[i]] == fixes[r[j]] ==> Arrives(rows, root, r[i], r[j])
  {
    hide Arrives, SortByRank;
    var r := SortByRank(fixes, order);
    forall i, j | 0 <= i < j < |r| && fixes[r[i]] == fixes[r[j]] ensures Arrives(rows, root, r[i], r[j]) {
      SortStable(fixes, order);
    }
  }

  lemma RootFirst(rows: seq<Row>, root: string, fixes: map<string, nat>, order: seq<string>)
    requires root in fixes && forall x <- order :: x in fixes
    requires forall x :: x in order <==> Reachable(rows, root, x)
    requires forall x <- fixes :: Rank(rows, root, x, fixes[x])
    ensures (forall x <- order :: fixes[root] <= fixes[x]) <==> RootRanksLowest(rows, root)
  {
    hide Rank, Reachable;
    if forall x <- order :: fixes[root] <= fixes[x] {
      forall x, s: nat, t: nat | Reachable(rows, root, x) && Rank(rows, root, root, s) && Rank(rows, root, x, t)
        ensures s <= t {
        RankUnique(rows, root, root, s, fixes[root]);
        RankUnique(rows, root, x, t, fixes[x]);
      }
    }
  }

  lemma {:induction false} DistinctByMultiset(xs: seq<string>, ys: seq<string>)
    requires Distinct(xs) && multiset(xs) == multiset(ys)
    ensures Distinct(ys)
  {
    forall i, j | 0 <= i < j < |ys| ensures ys[i] != ys[j] {
      if ys[i] == ys[j] {
        assert ys == ys[..i] + [ys[i]] + ys[i + 1..j] + [ys[j]] + ys[j + 1..];
        assert multiset(ys)[ys[i]] >= 2;
        AtMostOnce(xs, ys[i]);
      }
    }
  }

  lemma {:induction false} AtMostOnce(xs: seq<string>, x: string)
    requires Distinct(xs)
    ensures multiset(xs)[x] <= 1
  {
    if xs != [] {
      AtMostOnce(xs[1..], x);
      assert xs == [xs[0]] + xs[1..];
    }
  }

  lemma FirstRound(rows: seq<Row>, root: string)
    ensures {root} == Layer(rows, root, 0)
    ensures Round(rows, root, 0, map[root := 0], [root])
    ensures root in Named(rows, root)
  {
  }

  lemma BeginRound(rows: seq<Row>, root: string, n: nat, answers: seq<string>, fixes: map<string, nat>,
                   order: seq<string>)
    requires n > 0 && Round(rows, root, n - 1, fixes, order)
    ensures InRound(rows, root, n, answers, 0, fixes, order)
  {
    assert answers[..0] == [];
  }

  lemma RoundKeys(rows: seq<Row>, root: string, n: nat, fixes: map<string, nat>, order: seq<string>)
    requires Round(rows, root, n, fixes, order)
    ensures fixes.Keys == Seen(rows, root, n)
  {
  }

  lemma RanksBounded(rows: seq<Row>, root: string, n: nat, answers: seq<string>, i: nat, fixes: map<string, nat>,
                     order: seq<string>, x: string)
    requires n > 0 && i <= |answers| && InRound(rows, root, n, answers, i, fixes, order)
    ensures x in fixes ==> fixes[x] <= n
  {
    hide InArrival, FixesAt, Layer, Seen;
    RankAfterIs(rows, root, n - 1, x);
  }

  // ---------- what the order guarantees, and what it does not ----------

  /** A fix comes after every sha it fixes whose rank is its own distance. */
  lemma FixFollows(rows: seq<Row>, root: string, r: seq<string>, ranks: seq<nat>, i: nat, j: nat)
    requires IsListing(rows, root, r, ranks) && i < |r| && j < |r|
    requires Fixes(rows, r[j], r[i]) && Distance(rows, root, r[i], ranks[i])
    ensures i < j
  {
    assert Rank(rows, root, r[j], ranks[j]);
    assert FixesAt(rows, root, r[j], ranks[i]);
  }

  /** The root comes first if it fixes nothing that it reaches, as getopen takes for granted. */
  lemma RootComesFirst(rows: seq<Row>, root: string)
    requires forall y :: Reachable(rows, root, y) ==> !Fixes(rows, root, y)
    ensures RootRanksLowest(rows, root)
  {
    forall d: nat, y | Distance(rows, root, y, d) ensures !Fixes(rows, root, y) {
      assert Reachable(rows, root, y);
    }
    assert forall d: nat :: !FixesAt(rows, root, root, d);
  }

  /** A fix comes after a sha that it fixes exactly if it fixes something at least as far out as
      anything that sha fixes; farther out, where the fix is met first. */
  lemma OrderedExactlyWhen(rows: seq<Row>, root: string, r: seq<string>, ranks: seq<nat>, i: nat, j: nat)
    requires IsListing(rows, root, r, ranks) && i < |r| && j < |r| && Fixes(rows, r[i], r[j])
    ensures j < i <==>
            forall e: nat :: FixesAt(rows, root, r[j], e) ==>
              exists d: nat :: FixesAt(rows, root, r[i], d) && if Arrives(rows, root, r[j], r[i]) then e <= d else e < d
  {
    var x, y := r[i], r[j];
    RankedExactlyWhen(rows, root, x, y, ranks[i], ranks[j]);
    hide FixesAt, Rank, Fixes, Reachable, Arrives;
    if i < j && ranks[i] == ranks[j] {
      ArrivesAsymmetric(rows, root, x, y);
    } else if i == j && Arrives(rows, root, x, x) {
      ArrivesAsymmetric(rows, root, x, x);
    }
  }

  lemma RankedExactlyWhen(rows: seq<Row>, root: string, x: string, y: string, t: nat, s: nat)
    requires Fixes(rows, x, y) && Reachable(rows, root, y) && Rank(rows, root, x, t) && Rank(rows, root, y, s)
    ensures (s < t || (s == t && Arrives(rows, root, y, x))) <==>
            forall e: nat :: FixesAt(rows, root, y, e) ==>
              exists d: nat :: FixesAt(rows, root, x, d) && if Arrives(rows, root, y, x) then e <= d else e < d
  {
    var k: nat :| ReachesIn(rows, root, y, k);
    var d := Shortest(rows, root, y, k);
    assert FixesAt(rows, root, x, d);
    hide FixesAt, Fixes, Arrives, ReachesIn;
    assert t > 0 && FixesAt(rows, root, x, t - 1);
    assert s > 0 ==> FixesAt(rows, root, y, s - 1);
  }

  /** Every sha has a rank. */
  lemma {:induction false} RankOf(rows: seq<Row>, root: string, x: string) returns (r: nat)
    ensures Rank(rows, root, x, r)
  {
    var n := LastLayer(rows, root, 0);
    FinalRank(rows, root, n, x);
    r := RankAfter(rows, root, n, x);
  }

  lemma {:induction false} LastLayer(rows: seq<Row>, root: string, k: nat) returns (n: nat)
    ensures Layer(rows, root, n) == {}
    decreases Named(rows, root) - Seen(rows, root, k)
  {
    hide Layer, Seen, Named;
    if Layer(rows, root, k + 1) == {} {
      n := k + 1;
    } else {
      NewlySeen(rows, root, k);
      n := LastLayer(rows, root, k + 1);
    }
  }

  lemma NewlySeen(rows: seq<Row>, root: string, k: nat)
    requires Layer(rows, root, k + 1) != {}
    ensures Named(rows, root) - Seen(rows, root, k + 1) < Named(rows, root) - Seen(rows, root, k)
  {
    var x :| x in Layer(rows, root, k + 1);
    QueryNamed(rows, root, Layer(rows, root, k));
    assert x in Named(rows, root) && x !in Seen(rows, root, k) && x in Seen(rows, root, k + 1);
  }

  // E is a fix of B, which fixes A; C fixes both A and E; D fixes C.
  const TWO_ROUTES: seq<Row> := [Row("A", "B"), Row("B", "E"), Row("A", "C"), Row("E", "C"), Row("C", "D")]

  /** The fixes of some shas in a concrete table; `at` gives a row for each of them. */
  lemma FixersAre(rows: seq<Row>, shas: set<string>, expected: set<string>, at: map<string, nat>)
    requires forall i :: 0 <= i < |rows| && rows[i].upstream in shas ==> rows[i].fixedby in expected
    requires forall x <- expected ::
              x in at && at[x] < |rows| && rows[at[x]].upstream in shas && rows[at[x]].fixedby == x
    ensures Fixers(rows, shas) == expected
  {
    forall x ensures x in Fixers(rows, shas) <==> x in expected {
      QueryIs(rows, shas, x);
      if x in expected {
        assert rows[at[x]] == Row(rows[at[x]].upstream, x);
        assert Fixes(rows, x, rows[at[x]].upstream);
      }
    }
  }

  lemma TwoRoutesRounds()
    ensures Layer(TWO_ROUTES, "A", 1) == {"B", "C"} && Layer(TWO_ROUTES, "A", 2) == {"E", "D"}
            && Layer(TWO_ROUTES, "A", 3) == {}
    ensures Fixers(TWO_ROUTES, {"A"}) == {"B", "C"} && Fixers(TWO_ROUTES, {"B", "C"}) == {"E", "D"}
    ensures Fixers(TWO_ROUTES, {"E", "D"}) == {"C"}
  {
    hide Fixers;
    FixersAre(TWO_ROUTES, {"A"}, {"B", "C"}, map["B" := 0, "C" := 2]);
    FixersAre(TWO_ROUTES, {"B", "C"}, {"E", "D"}, map["E" := 1, "D" := 4]);
    FixersAre(TWO_ROUTES, {"E", "D"}, {"C"}, map["C" := 3]);
    assert Layer(TWO_ROUTES, "A", 0) == {"A"} && Seen(TWO_ROUTES, "A", 0) == {"A"};
    assert Layer(TWO_ROUTES, "A", 1) == {"B", "C"} && Seen(TWO_ROUTES, "A", 1) == {"A", "B", "C"};
    assert Layer(TWO_ROUTES, "A", 2) == {"E", "D"} && Seen(TWO_ROUTES, "A", 2) == {"A", "B", "C", "E", "D"};
  }

  /** The documentation promises fixes after what they fix; here D fixes C and comes before it. */
  lemma NotTopological(r: seq<string>, ranks: seq<nat>, i: nat, j: nat)
    requires IsListing(TWO_ROUTES, "A", r, ranks)
    requires i < |r| && r[i] == "D" && j < |r| && r[j] == "C"
    ensures Fixes(TWO_ROUTES, "D", "C") && i < j
  {
    hide Fixers, Layer, Rank;
    TwoRoutesRounds();
    assert TWO_ROUTES[4] == Row("C", "D");
    assert RankAfter(TWO_ROUTES, "A", 2, "D") == 2 && RankAfter(TWO_ROUTES, "A", 3, "D") == 2;
    assert RankAfter(TWO_ROUTES, "A", 3, "C") == 3;
    FinalRank(TWO_ROUTES, "A", 3, "C");
    FinalRank(TWO_ROUTES, "A", 3, "D");
    RankUnique(TWO_ROUTES, "A", "C", 3, ranks[j]);
    RankUnique(TWO_ROUTES, "A", "D", 2, ranks[i]);
  }

  // E is a fix of B, which fixes A; C fixes A and E; X fixes C and E.
  const TIE: seq<Row> := [Row("A", "B"), Row("B", "E"), Row("A", "C"), Row("E", "C"), Row("C", "X"), Row("E", "X")]

  lemma TieRounds()
    ensures Layer(TIE, "A", 1) == {"B", "C"} && Layer(TIE, "A", 2) == {"E", "X"} && Layer(TIE, "A", 3) == {}
    ensures Fixers(TIE, {"A"}) == {"B", "C"} && Fixers(TIE, {"B", "C"}) == {"E", "X"}
    ensures Fixers(TIE, {"E", "X"}) == {"C", "X"}
  {
    hide Fixers;
    FixersAre(TIE, {"A"}, {"B", "C"}, map["B" := 0, "C" := 2]);
    FixersAre(TIE, {"B", "C"}, {"E", "X"}, map["E" := 1, "X" := 4]);
    FixersAre(TIE, {"E", "X"}, {"C", "X"}, map["C" := 3, "X" := 5]);
    assert Layer(TIE, "A", 0) == {"A"} && Seen(TIE, "A", 0) == {"A"};
    assert Layer(TIE, "A", 1) == {"B", "C"} && Seen(TIE, "A", 1) == {"A", "B", "C"};
    assert Layer(TIE, "A", 2) == {"E", "X"} && Seen(TIE, "A", 2) == {"A", "B", "C", "E", "X"};
  }

  /** X and C, which X fixes, rank the same; C is met first, so X does come after it. */
  lemma TieInOrder(r: seq<string>, ranks: seq<nat>, i: nat, j: nat)
    requires IsListing(TIE, "A", r, ranks) && i < |r| && r[i] == "X" && j < |r| && r[j] == "C"
    ensures Fixes(TIE, "X", "C") && ranks[i] == ranks[j] && j < i
  {
    hide Fixers, Layer, Rank;
    TieRounds();
    assert TIE[4] == Row("C", "X");
    assert RankAfter(TIE, "A", 3, "X") == 3 && RankAfter(TIE, "A", 3, "C") == 3;
    FinalRank(TIE, "A", 3, "C");
    FinalRank(TIE, "A", 3, "X");
    RankUnique(TIE, "A", "C", 3, ranks[j]);
    RankUnique(TIE, "A", "X", 3, ranks[i]);
    assert "C" in Layer(TIE, "A", 1) && "X" in Layer(TIE, "A", 2) && 1 < 2;
    hide Query, Earlier, Fixes, RankAfter;
    assert Arrives(TIE, "A", "C", "X");
    if i < j {
      ArrivesAsymmetric(TIE, "A", "C", "X");
    }
  }

  // A, B and C fix one another in a circle.
  const CIRCLE: seq<Row> := [Row("A", "B"), Row("B", "C"), Row("C", "A")]

  lemma CircleFixers()
    ensures Fixers(CIRCLE, {"A"}) == {"B"} && Fixers(CIRCLE, {"B"}) == {"C"} && Fixers(CIRCLE, {"C"}) == {"A"}
  {
    hide Fixers;
    FixersAre(CIRCLE, {"A"}, {"B"}, map["B" := 0]);
    FixersAre(CIRCLE, {"B"}, {"C"}, map["C" := 1]);
    FixersAre(CIRCLE, {"C"}, {"A"}, map["A" := 2]);
  }

  lemma CircleRounds()
    ensures Layer(CIRCLE, "A", 0) == {"A"}
    ensures Layer(CIRCLE, "A", 1) == {"B"} && Layer(CIRCLE, "A", 2) == {"C"} && Layer(CIRCLE, "A", 3) == {}
    ensures Fixers(CIRCLE, {"A"}) == {"B"} && Fixers(CIRCLE, {"B"}) == {"C"} && Fixers(CIRCLE, {"C"}) == {"A"}
    ensures "B" in Seen(CIRCLE, "A", 3)
  {
    CircleFixers();
    hide Fixers;
    assert Layer(CIRCLE, "A", 0) == {"A"} && Seen(CIRCLE, "A", 0) == {"A"};
    assert Layer(CIRCLE, "A", 1) == {"B"} && Seen(CIRCLE, "A", 1) == {"A", "B"};
    assert Layer(CIRCLE, "A", 2) == {"C"} && Seen(CIRCLE, "A", 2) == {"A", "B", "C"};
    SeenSince(CIRCLE, "A", 1, 3, "B");
  }

  /** Dropping the first element then drops another sha instead of the root. */
  lemma RootDisplaced()
    ensures !RootRanksLowest(CIRCLE, "A")
  {
    hide Fixers, Layer, Seen, Rank;
    CircleRounds();
    FinalRank(CIRCLE, "A", 3, "A");
    FinalRank(CIRCLE, "A", 3, "B");
    FinalSeen(CIRCLE, "A", 3, "B");
    assert RankAfter(CIRCLE, "A", 3, "A") == 3;
    assert RankAfter(CIRCLE, "A", 1, "B") == 1 && RankAfter(CIRCLE, "A", 2, "B") == 1
           && RankAfter(CIRCLE, "A", 3, "B") == 1;
  }
}
