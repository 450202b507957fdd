/**
 Finite directed graphs: walks, reachability and cycles, and the two facts behind every topological sort.
 */
module Digraph {

  type Edges = set<(int, int)>

  ghost predicate Walk(E: Edges, p: seq<int>) {
    |p| >= 2 && forall i, j :: 0 <= i && j == i + 1 && j < |p| ==> (p[i], p[j]) in E
  }

  ghost predicate WalkBetween(E: Edges, a: int, b: int, p: seq<int>) {
    Walk(E, p) && p[0] == a && p[|p| - 1] == b
  }

  /** There is a walk of at least one edge. */
  ghost predicate Reaches(E: Edges, a: int, b: int) {
    exists p :: WalkBetween(E, a, b, p)
  }

  ghost predicate Acyclic(E: Edges) {
    forall v :: !Reaches(E, v, v)
  }

  lemma EdgeReaches(E: Edges, a: int, b: int)
    requires (a, b) in E
    ensures Reaches(E, a, b)
  {
    assert WalkBetween(E, a, b, [a, b]);
  }

  lemma ReachesTransitive(E: Edges, a: int, b: int, c: int)
    requires Reaches(E, a, b) && Reaches(E, b, c)
    ensures Reaches(E, a, c)
  {
    var p :| WalkBetween(E, a, b, p);
    var q :| WalkBetween(E, b, c, q);
    var w := p + q[1..];
    forall i, j | 0 <= i && j == i + 1 && j < |w| ensures (w[i], w[j]) in E {
      if j < |p| {
        assert w[i] == p[i] && w[j] == p[j];
      } else {
        assert w[i] == q[i - |p| + 1] && w[j] == q[j - |p| + 1];
      }
    }
    assert w[|w| - 1] == q[|q| - 1];
    assert WalkBetween(E, a, c, w);
  }

  /** Every walk has a first edge. */
  lemma FirstStep(E: Edges, a: int, b: int) returns (c: int)
    requires Reaches(E, a, b)
    ensures (a, c) in E && (c == b || Reaches(E, c, b))
  {
    var p :| WalkBetween(E, a, b, p);
    c := p[1];
    if |p| > 2 {
      var q := p[1..];
      forall i, j | 0 <= i && j == i + 1 && j < |q| ensures (q[i], q[j]) in E {
        assert q[i] == p[i + 1] && q[j] == p[j + 1];
      }
      assert WalkBetween(E, c, b, q);
    }
  }

  lemma FewerEdges(E: Edges, F: Edges, a: int, b: int)
    requires E <= F && Reaches(E, a, b)
    ensures Reaches(F, a, b)
  {
    var p :| WalkBetween(E, a, b, p);
    assert WalkBetween(F, a, b, p);
  }

  // ---------------------------------------------------------------- orders and cycles

  /** Each vertex is listed after all its predecessors. */
  ghost predicate Ordered(E: Edges, q: seq<int>) {
    forall i, u :: 0 <= i < |q| && (u, q[i]) in E ==> u in q[..i]
  }

  ghost predicate Distinct(q: seq<int>) {
    forall i, j :: 0 <= i < j < |q| ==> q[i] != q[j]
  }

  /** A walk that ends at position `i` of an order starts at an earlier position. */
  lemma {:induction false} WalkGoesUp(E: Edges, q: seq<int>, a: int, i: int, p: seq<int>)
    requires Ordered(E, q) && 0 <= i < |q| && WalkBetween(E, a, q[i], p)
    ensures a in q[..i]
    decreases |p|
  {
    var u := p[|p| - 2];
    assert (u, q[i]) in E;
    assert u in q[..i];
    if |p| > 2 {
      var t := q[..i];
      var k :| 0 <= k < |t| && t[k] == u;
      var r := p[..|p| - 1];
      forall x, y | 0 <= x && y == x + 1 && y < |r| ensures (r[x], r[y]) in E {
        assert r[x] == p[x] && r[y] == p[y];
      }
      assert WalkBetween(E, a, q[k], r);
      WalkGoesUp(E, q, a, k, r);
      var t' := q[..k];
      var m :| 0 <= m < |t'| && t'[m] == a;
      assert t[m] == a;
    }
  }

  /** A graph whose edges all end in an order without repetitions has no cycle. */
  lemma OrderedIsAcyclic(E: Edges, q: seq<int>)
    requires Ordered(E, q) && Distinct(q) && forall e :: e in E ==> e.1 in q
    ensures Acyclic(E)
  {
    forall v ensures !Reaches(E, v, v) {
      if Reaches(E, v, v) {
        var p :| WalkBetween(E, v, v, p);
        var last := (p[|p| - 2], v);
        assert last in E && last.1 in q;
        var i :| 0 <= i < |q| && q[i] == v;
        WalkGoesUp(E, q, v, i, p);
      }
    }
  }

  /** Every vertex of `R` has a predecessor in `R`. */
  ghost predicate Stuck(E: Edges, R: set<int>) {
    forall v {:trigger HasPredecessor(E, R, v)} :: v in R ==> HasPredecessor(E, R, v)
  }

  ghost predicate HasPredecessor(E: Edges, R: set<int>, v: int) {
    exists u :: u in R && (u, v) in E
  }

  ghost function Vertices(p: seq<int>): set<int> {
    set x | x in p
  }

  lemma {:induction false} DistinctVertices(p: seq<int>)
    requires Distinct(p)
    ensures |Vertices(p)| == |p|
  {
    if p != [] {
      DistinctVertices(p[1..]);
      assert p[0] !in p[1..];
      assert Vertices(p) == {p[0]} + Vertices(p[1..]);
    }
  }

  lemma SubsetSize(A: set<int>, B: set<int>)
    requires A <= B
    ensures |A| <= |B|
  {
    assert B == A + (B - A);
  }

  /** Walking backwards inside a stuck set must come back to a vertex already seen. */
  lemma {:induction false} BackwardsWalkCloses(E: Edges, R: set<int>, p: seq<int>)
    requires Stuck(E, R) && p != [] && Distinct(p) && (forall x :: x in p ==> x in R)
    requires forall i, j :: 0 <= i && j == i + 1 && j < |p| ==> (p[i], p[j]) in E
    ensures !Acyclic(E)
    decreases |R| - |p|
  {
    DistinctVertices(p);
    SubsetSize(Vertices(p), R);
    assert p[0] in p;
    assert HasPredecessor(E, R, p[0]);
    var u :| u in R && (u, p[0]) in E;
    var w := [u] + p;
    forall i, j | 0 <= i && j == i + 1 && j < |w| ensures (w[i], w[j]) in E {
      assert i > 0 ==> w[i] == p[i - 1] && w[j] == p[j - 1];
    }
    if u in p {
      var k :| 0 <= k < |p| && p[k] == u;
      var c := w[..k + 2];
      assert WalkBetween(E, u, u, c);
      assert Reaches(E, u, u);
    } else {
      DistinctVertices(w);
      SubsetSize(Vertices(w), R);
      BackwardsWalkCloses(E, R, w);
    }
  }

  lemma StuckHasCycle(E: Edges, R: set<int>, v: int)
    requires Stuck(E, R) && v in R
    ensures !Acyclic(E)
  {
    BackwardsWalkCloses(E, R, [v]);
  }

  // ---------------------------------------------------------------- adding an edge

  /** A walk in a graph with one more edge either avoids it or passes through it. */
  lemma {:induction false} WalkThroughNewEdge(E: Edges, F: Edges, x: int, y: int, a: int, b: int, p: seq<int>)
    requires F <= E + {(x, y)} && WalkBetween(F, a, b, p)
    ensures Reaches(E, a, b) || ((a == x || Reaches(E, a, x)) && (y == b || Reaches(E, y, b)))
    decreases |p|
  {
    var c := p[1];
    assert (a, c) in F;
    if (a, c) in E { EdgeReaches(E, a, c); }
    if |p| > 2 {
      var q := p[1..];
      forall i, j | 0 <= i && j == i + 1 && j < |q| ensures (q[i], q[j]) in F {
        assert q[i] == p[i + 1] && q[j] == p[j + 1];
      }
      assert WalkBetween(F, c, b, q);
      WalkThroughNewEdge(E, F, x, y, c, b, q);
      if (a, c) in E {
        if Reaches(E, c, b) { ReachesTransitive(E, a, c, b); }
        if Reaches(E, c, x) { ReachesTransitive(E, a, c, x); }
      } else {
        assert a == x && c == y;
      }
    }
  }

  /** An edge from `x` to `y` creates no cycle if `y` can not reach `x`. */
  lemma SafeEdgeKeepsAcyclic(E: Edges, F: Edges, x: int, y: int)
    requires Acyclic(E) && x != y && !Reaches(E, y, x) && F <= E + {(x, y)}
    ensures Acyclic(F)
  {
    forall v ensures !Reaches(F, v, v) {
      if Reaches(F, v, v) {
        var p :| WalkBetween(F, v, v, p);
        WalkThroughNewEdge(E, F, x, y, v, v, p);
        if y != v && v != x { ReachesTransitive(E, y, v, x); }
      }
    }
  }

  // ---------------------------------------------------------------- sets of reachable vertices

  ghost function Heads(E: Edges): set<int> {
    set e | e in E :: e.1
  }

  ghost function ReachSet(E: Edges, a: int): set<int> {
    set b | b in Heads(E) && Reaches(E, a, b)
  }

  lemma ReachSetIsComplete(E: Edges, a: int, b: int)
    requires Reaches(E, a, b)
    ensures b in ReachSet(E, a)
  {
    var p :| WalkBetween(E, a, b, p);
    assert (p[|p| - 2], b) in E;
    assert (p[|p| - 2], b).1 in Heads(E);
  }

  /** In an acyclic graph a successor reaches strictly fewer vertices. */
  lemma SuccessorReachesLess(E: Edges, a: int, c: int)
    requires Acyclic(E) && (a, c) in E
    ensures |ReachSet(E, c)| < |ReachSet(E, a)|
  {
    EdgeReaches(E, a, c);
    ReachSetIsComplete(E, a, c);
    forall b | b in ReachSet(E, c) ensures b in ReachSet(E, a) {
      ReachesTransitive(E, a, c, b);
    }
    assert c !in ReachSet(E, c);
    SubsetSize(ReachSet(E, c) + {c}, ReachSet(E, a));
  }

  /** A set that contains the successors of `a` and of its members contains all that `a` reaches. */
  lemma {:induction false} ClosedSetIsReached(E: Edges, a: int, V: set<int>, b: int, p: seq<int>)
    requires a in V && (forall u, v :: u in V && (u, v) in E ==> v in V) && WalkBetween(E, a, b, p)
    ensures b in V
    decreases |p|
  {
    assert (a, p[1]) in E;
    if |p| > 2 {
      var q := p[1..];
      forall i, j | 0 <= i && j == i + 1 && j < |q| ensures (q[i], q[j]) in E {
        assert q[i] == p[i + 1] && q[j] == p[j + 1];
      }
      ClosedSetIsReached(E, p[1], V, b, q);
    }
  }

  // ---------------------------------------------------------------- topological sorting

  ghost predicate Within(E: Edges, n: nat) {
    forall e :: e in E ==> 0 <= e.0 < n && 0 <= e.1 < n
  }

  ghost function UpTo(n: nat): (s: set<int>)
    ensures |s| == n && forall x :: x in s <==> 0 <= x < n
  {
    if n == 0 then {} else UpTo(n - 1) + {n - 1}
  }

  /** A list of distinct numbers below `n` has `n` of them exactly when it has them all. */
  lemma FullListHasAll(q: seq<int>, n: nat)
    requires Distinct(q) && forall x :: x in q ==> 0 <= x < n
    ensures |q| <= n && (|q| == n <==> forall x :: 0 <= x < n ==> x in q)
  {
    DistinctVertices(q);
    SubsetSize(Vertices(q), UpTo(n));
    forall x | 0 <= x < n && |q| == n ensures x in q {
      if x !in q { SubsetSize(Vertices(q) + {x}, UpTo(n)); }
    }
    if forall x :: 0 <= x < n ==> x in q {
      assert Vertices(q) == UpTo(n);
    }
  }

  /** A topological sort that has run dry lists everything exactly when there is no cycle. */
  lemma SortDecidesAcyclicity(E: Edges, n: nat, q: seq<int>)
    requires Within(E, n) && Distinct(q) && Ordered(E, q) && (forall x :: x in q ==> 0 <= x < n)
    requires forall v :: 0 <= v < n && v !in q ==> HasPredecessor(E, UpTo(n) - Vertices(q), v)
    ensures |q| == n <==> Acyclic(E)
  {
    FullListHasAll(q, n);
    if |q| == n {
      OrderedIsAcyclic(E, q);
    } else {
      var v :| 0 <= v < n && v !in q;
      StuckHasCycle(E, UpTo(n) - Vertices(q), v);
    }
  }
}
