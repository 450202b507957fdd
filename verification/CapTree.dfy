/**
 The capability derivation tree as a value: what it means for the first-child / next-sibling
 tables to represent a forest, the ancestor relation, and what each table edit does to both.

 `N` is the node table, `E` the handle entries of all processes, and `K` gives for every slot the
 list of its children in chain order.
 */
module CapTree {
  import opened CapTypes

  type Kids = seq<seq<Slot>>

  // ---------------------------------------------------------------- chains

  function Head(l: seq<Slot>): Link {
    if l == [] then NIL else l[0]
  }

  ghost predicate Distinct(l: seq<Slot>) {
    forall i, j :: 0 <= i < j < |l| ==> l[i] != l[j]
  }

  /** Following `nextSibling` through `l` visits its elements in order and then stops. */
  ghost predicate Linked(N: seq<Node>, l: seq<Slot>)
    requires |N| == NODES
  {
    && (forall i, j :: 0 <= i && j == i + 1 && j < |l| ==> N[l[i]].nextSibling == l[j])
    && (l != [] ==> N[l[|l| - 1]].nextSibling == NIL)
  }

  ghost predicate ListAt(N: seq<Node>, s: Slot, l: seq<Slot>)
    requires |N| == NODES
  {
    N[s].firstChild == Head(l) && Linked(N, l)
  }

  function Without(l: seq<Slot>, j: int): seq<Slot>
    requires 0 <= j < |l|
  {
    l[..j] + l[j + 1..]
  }

  lemma LinkedFrame(N: seq<Node>, M: seq<Node>, l: seq<Slot>)
    requires |N| == |M| == NODES && Linked(N, l)
    requires forall x :: x in l ==> M[x].nextSibling == N[x].nextSibling
    ensures Linked(M, l)
  {
  }

  lemma OnePredecessor(N: seq<Node>, l: seq<Slot>, j: int)
    requires |N| == NODES && Linked(N, l) && Distinct(l) && 0 <= j < |l|
    ensures forall x :: x in l ==> (N[x].nextSibling == l[j] <==> j > 0 && x == l[j - 1])
  {
    forall x | x in l ensures N[x].nextSibling == l[j] <==> j > 0 && x == l[j - 1] {
      var i :| 0 <= i < |l| && l[i] == x;
      assert i + 1 < |l| ==> N[l[i]].nextSibling == l[i + 1];
      assert j > 0 ==> N[l[j - 1]].nextSibling == l[j];
    }
  }

  lemma WithoutMembers(l: seq<Slot>, j: int)
    requires Distinct(l) && 0 <= j < |l|
    ensures forall i :: 0 <= i < |l| - 1 ==> Without(l, j)[i] == if i < j then l[i] else l[i + 1]
    ensures Distinct(Without(l, j))
    ensures forall x :: x in Without(l, j) <==> x in l && x != l[j]
  {
    var w := Without(l, j);
    forall x | x in l && x != l[j] ensures x in w {
      var i :| 0 <= i < |l| && l[i] == x;
      assert w[if i < j then i else i - 1] == x;
    }
  }

  /** Cutting position `j` out of a chain: its predecessor takes over its link. */
  lemma LinkedWithout(N: seq<Node>, M: seq<Node>, l: seq<Slot>, j: int)
    requires |N| == |M| == NODES && Linked(N, l) && Distinct(l) && 0 <= j < |l|
    requires forall x :: x in l && x != l[j] && (j == 0 || x != l[j - 1]) ==> M[x].nextSibling == N[x].nextSibling
    requires j > 0 ==> M[l[j - 1]].nextSibling == N[l[j]].nextSibling
    ensures Linked(M, Without(l, j))
    ensures j == 0 ==> Head(Without(l, j)) == N[l[0]].nextSibling
  {
  }

  /** Two chains joined by one link. */
  lemma LinkedAppend(N: seq<Node>, M: seq<Node>, a: seq<Slot>, b: seq<Slot>)
    requires |N| == |M| == NODES && Linked(N, a) && Linked(N, b)
    requires Distinct(a) && Distinct(b) && (forall x :: x in a ==> x !in b)
    requires a != [] ==> M[a[|a| - 1]].nextSibling == Head(b)
    requires forall x :: (x in a && x != a[|a| - 1]) || x in b ==> M[x].nextSibling == N[x].nextSibling
    ensures Linked(M, a + b) && Distinct(a + b)
  {
    var w := a + b;
    forall i, k | 0 <= i && k == i + 1 && k < |w| ensures M[w[i]].nextSibling == w[k] {
      if i < |a| {
        assert w[i] == a[i] && a[i] in a;
        if k < |a| {
          assert a[i] != a[|a| - 1];
          assert w[k] == a[k];
        }
      } else {
        assert w[i] == b[i - |a|] && b[i - |a|] in b && w[k] == b[k - |a|];
      }
    }
    if b != [] {
      assert w[|w| - 1] == b[|b| - 1] && b[|b| - 1] in b;
    } else {
      assert w == a;
    }
    forall i, k | 0 <= i < k < |w| ensures w[i] != w[k] {
      if i < |a| <= k {
        assert w[i] in a && w[k] in b;
      }
    }
  }

  /** Cutting position `j` out of `l` and joining the chain `k` in front of what is left. */
  lemma LinkedSplice(N: seq<Node>, M: seq<Node>, l: seq<Slot>, j: int, k: seq<Slot>)
    requires |N| == |M| == NODES && Linked(N, l) && Distinct(l) && 0 <= j < |l|
    requires Linked(N, k) && Distinct(k) && (forall x :: x in k ==> x !in l)
    requires forall x :: x in l && x != l[j] && (j == 0 || x != l[j - 1]) ==> M[x].nextSibling == N[x].nextSibling
    requires j > 0 ==> M[l[j - 1]].nextSibling == N[l[j]].nextSibling
    requires forall x :: x in k && x != k[|k| - 1] ==> M[x].nextSibling == N[x].nextSibling
    requires k != [] ==> M[k[|k| - 1]].nextSibling == Head(Without(l, j))
    ensures Linked(M, k + Without(l, j)) && Distinct(k + Without(l, j))
  {
    var rest := Without(l, j);
    LinkedWithout(N, M, l, j);
    WithoutMembers(l, j);
    var T := seq(NODES, i requires 0 <= i < NODES => if i in rest then M[i] else N[i]);
    LinkedFrame(M, T, rest);
    LinkedFrame(N, T, k);
    LinkedAppend(T, M, k, rest);
  }

  /** Putting `d` in the place of position `j` of a chain. */
  lemma LinkedReplace(N: seq<Node>, M: seq<Node>, l: seq<Slot>, j: int, d: Slot)
    requires |N| == |M| == NODES && Linked(N, l) && Distinct(l) && 0 <= j < |l| && d !in l
    requires M[d].nextSibling == N[l[j]].nextSibling
    requires j > 0 ==> M[l[j - 1]].nextSibling == d
    requires forall x :: x in l && x != l[j] && (j == 0 || x != l[j - 1]) ==> M[x].nextSibling == N[x].nextSibling
    ensures Linked(M, l[j := d]) && Distinct(l[j := d])
  {
  }

  // ---------------------------------------------------------------- the forest

  /** What holds along every parent-child edge. */
  ghost predicate Edge(N: seq<Node>, E: seq<Entry>, s: Slot, c: Slot)
    requires |N| == |E| == NODES
  {
    && E[s].occupied && E[c].occupied
    && N[c].parent == s && N[c].parentGen == E[s].gen
    && N[s].depth < N[c].depth
    && RightsSubset(E[c].rights, E[s].rights)
    && E[c].obj == E[s].obj && E[c].objGen == E[s].objGen && E[c].endpoint == E[s].endpoint
  }

  ghost predicate LiveNode(n: Node) {
    !n.revoked && n.depth <= MAX_DEPTH && (n.parent == NIL <==> n.depth == 0)
  }

  /**
   The tables represent the forest `K`: each slot's chain is `K[s]`, free of duplicates; exactly the
   occupied slots that name `s` as parent, with its current generation, are on it.
   */
  ghost predicate Forest(N: seq<Node>, E: seq<Entry>, K: Kids) {
    && |N| == |E| == |K| == NODES
    && (forall s: Slot :: ListAt(N, s, K[s]) && Distinct(K[s]))
    && (forall s: Slot, c: Slot :: c in K[s] ==> Edge(N, E, s, c))
    && (forall s: Slot, c: Slot {:trigger N[c], K[s]} :: E[c].occupied && N[c].parent == s ==> c in K[s])
    && (forall c: Slot :: E[c].occupied ==> LiveNode(N[c]))
  }

  lemma ChainAt(N: seq<Node>, E: seq<Entry>, K: Kids, s: Slot)
    requires Forest(N, E, K)
    ensures |N| == |K| == NODES && N[s].firstChild == Head(K[s]) && Linked(N, K[s]) && Distinct(K[s])
  {
  }

  lemma EmptyChain(N: seq<Node>, s: Slot)
    requires |N| == NODES && N[s].firstChild == NIL
    ensures ListAt(N, s, []) && Distinct([])
  {
  }

  lemma ForestShape(N: seq<Node>, E: seq<Entry>, K: Kids)
    requires Forest(N, E, K)
    ensures |N| == |E| == |K| == NODES
  {
  }

  lemma EdgeAt(N: seq<Node>, E: seq<Entry>, K: Kids, s: Slot, c: Slot)
    requires Forest(N, E, K) && c in K[s]
    ensures Edge(N, E, s, c)
  {
  }

  lemma LiveAt(N: seq<Node>, E: seq<Entry>, K: Kids, c: Slot)
    requires Forest(N, E, K) && E[c].occupied
    ensures LiveNode(N[c]) && (N[c].parent != NIL ==> c in K[N[c].parent])
  {
  }

  /** The parts of a forest, put together. */
  lemma MakeForest(N: seq<Node>, E: seq<Entry>, K: Kids)
    requires |N| == |E| == |K| == NODES
    requires forall s: Slot :: ListAt(N, s, K[s]) && Distinct(K[s])
    requires forall s: Slot, c: Slot :: c in K[s] ==> Edge(N, E, s, c)
    requires forall s: Slot, c: Slot {:trigger N[c], K[s]} :: E[c].occupied && N[c].parent == s ==> c in K[s]
    requires forall c: Slot :: E[c].occupied ==> LiveNode(N[c])
    ensures Forest(N, E, K)
  {
  }

  lemma HeadIsMember(l: seq<Slot>)
    ensures l == [] || (Head(l) != NIL && Head(l) in l)
  {
  }

  lemma UnoccupiedIsChildless(N: seq<Node>, E: seq<Entry>, K: Kids, s: Slot)
    requires Forest(N, E, K) && !E[s].occupied
    ensures |N| == |E| == |K| == NODES
    ensures K[s] == [] && N[s].firstChild == NIL
    ensures forall t: Slot :: s !in K[t]
  {
    HeadIsMember(K[s]);
  }

  /** The parent, the siblings and the children of a slot are kept apart. */
  lemma FamilyIsDisjoint(N: seq<Node>, E: seq<Entry>, K: Kids, c: Slot, p: Slot)
    requires Forest(N, E, K) && E[c].occupied && N[c].parent == p
    ensures |N| == |E| == |K| == NODES
    ensures c in K[p] && p != c && p !in K[p] && p !in K[c] && c !in K[c]
    ensures forall x :: x in K[c] ==> x !in K[p]
    ensures ListAt(N, p, K[p]) && Distinct(K[p]) && ListAt(N, c, K[c]) && Distinct(K[c])
  {
  }

  lemma DepthIsBounded(N: seq<Node>, E: seq<Entry>, K: Kids, c: Slot, p: Slot)
    requires Forest(N, E, K) && E[c].occupied && N[c].parent == p
    ensures N[p].depth < N[c].depth <= MAX_DEPTH
  {
    assert c in K[p];
  }

  // ---------------------------------------------------------------- ancestors

  /** The n-th parent of `b`, or NIL when there are fewer. */
  ghost function NthUp(N: seq<Node>, b: Slot, n: nat): Link
    requires |N| == NODES
    decreases n
  {
    if n == 0 then b else if N[b].parent == NIL then NIL else NthUp(N, N[b].parent, n - 1)
  }

  ghost predicate Ancestor(N: seq<Node>, a: Slot, b: Slot)
    requires |N| == NODES
  {
    exists n: nat :: n > 0 && NthUp(N, b, n) == a
  }

  lemma ParentIsLive(N: seq<Node>, E: seq<Entry>, K: Kids, c: Slot, p: Slot)
    requires Forest(N, E, K) && E[c].occupied && N[c].parent == p
    ensures c in K[p] && Edge(N, E, p, c) && p != c
  {
  }

  /** Rights only shrink on the way down, the object never changes, and depth bounds the distance. */
  lemma {:induction false} AttenuationAlongPath(N: seq<Node>, E: seq<Entry>, K: Kids, b: Slot, n: nat)
    requires Forest(N, E, K) && E[b].occupied
    ensures var a := NthUp(N, b, n);
      a != NIL ==>
        && E[a].occupied && N[a].depth + n <= N[b].depth
        && RightsSubset(E[b].rights, E[a].rights)
        && E[b].obj == E[a].obj && E[b].objGen == E[a].objGen && E[b].endpoint == E[a].endpoint
    decreases n
  {
    if n > 0 && N[b].parent != NIL {
      var p: Slot := N[b].parent;
      ParentIsLive(N, E, K, b, p);
      AttenuationAlongPath(N, E, K, p, n - 1);
      var a := NthUp(N, p, n - 1);
      if a != NIL {
        RightsSubsetTransitive(E[b].rights, E[p].rights, E[a].rights);
      }
    } else if n == 0 {
      assert RightsSubset(E[b].rights, E[b].rights);
    }
  }

  lemma AncestorAttenuation(N: seq<Node>, E: seq<Entry>, K: Kids, a: Slot, b: Slot)
    requires Forest(N, E, K) && E[b].occupied && Ancestor(N, a, b)
    ensures E[a].occupied && a != b
    ensures N[a].depth < N[b].depth <= MAX_DEPTH
    ensures RightsSubset(E[b].rights, E[a].rights)
    ensures E[b].obj == E[a].obj && E[b].objGen == E[a].objGen && E[b].endpoint == E[a].endpoint
  {
    var n: nat :| n > 0 && NthUp(N, b, n) == a;
    AttenuationAlongPath(N, E, K, b, n);
  }

  lemma ParentIsAncestor(N: seq<Node>, c: Slot, p: Slot)
    requires |N| == NODES && N[c].parent == p
    ensures Ancestor(N, p, c)
    ensures forall a: Slot :: Ancestor(N, a, p) ==> Ancestor(N, a, c)
    ensures forall a: Slot :: Ancestor(N, a, c) ==> a == p || Ancestor(N, a, p)
  {
    assert NthUp(N, p, 0) == p;
    assert NthUp(N, c, 1) == p;
    forall a: Slot | Ancestor(N, a, p) ensures Ancestor(N, a, c) {
      var n: nat :| n > 0 && NthUp(N, p, n) == a;
      assert NthUp(N, c, n + 1) == a;
    }
    forall a: Slot | Ancestor(N, a, c) ensures a == p || Ancestor(N, a, p) {
      var n: nat :| n > 0 && NthUp(N, c, n) == a;
      assert NthUp(N, p, n - 1) == a;
    }
  }

  // ---------------------------------------------------------------- table edits

  function IndexOf(l: seq<Slot>, x: Slot): (i: int)
    requires x in l
    ensures 0 <= i < |l| && l[i] == x
  {
    if l[0] == x then 0 else 1 + IndexOf(l[1..], x)
  }

  function RootNode(id: nat): Node {
    Node(id, NIL, 0, 0, false, 0, NIL, NIL)
  }

  function DerivedNode(N: seq<Node>, E: seq<Entry>, p: Slot, id: nat): Node
    requires |N| == |E| == NODES
  {
    Node(id, p, E[p].gen, N[p].depth + 1, false, 0, NIL, N[p].firstChild)
  }

  function DerivedEntry(E: seq<Entry>, p: Slot, d: Slot, rights: bv16): Entry
    requires |E| == NODES
  {
    Entry(E[p].obj, E[d].gen, E[p].objGen, rights, E[p].endpoint, true)
  }

  function FreedEntry(e: Entry): Entry {
    e.(occupied := false, gen := NextGen(e.gen))
  }

  lemma RootKeepsForest(N: seq<Node>, E: seq<Entry>, K: Kids, d: Slot, id: nat, e: Entry)
    requires Forest(N, E, K) && !E[d].occupied && e.occupied && e.gen == E[d].gen
    ensures Forest(N[d := RootNode(id)], E[d := e], K)
  {
    UnoccupiedIsChildless(N, E, K, d);
    var M, F := N[d := RootNode(id)], E[d := e];
    forall s: Slot ensures ListAt(M, s, K[s]) {
      LinkedFrame(N, M, K[s]);
    }
    forall s: Slot, c: Slot | c in K[s] ensures Edge(M, F, s, c) {
      assert Edge(N, E, s, c);
    }
  }

  /** The new child goes to the front of its parent's chain; no other chain changes. */
  lemma DeriveKeepsChain(N: seq<Node>, E: seq<Entry>, K: Kids, p: Slot, d: Slot, n: Node, s: Slot)
    requires Forest(N, E, K) && E[p].occupied && !E[d].occupied && n.firstChild == NIL && n.nextSibling == N[p].firstChild
    ensures var L := K[p := [d] + K[p]];
      ListAt(N[d := n][p := N[p].(firstChild := d)], s, L[s]) && Distinct(L[s])
  {
    hide Forest;
    ForestShape(N, E, K);
    UnoccupiedIsChildless(N, E, K, d);
    ChainAt(N, E, K, s);
    ChainAt(N, E, K, p);
    var M := N[d := n][p := N[p].(firstChild := d)];
    LinkedFrame(N, M, K[s]);
    if s == p {
      var A := N[d := N[d].(nextSibling := NIL)];
      assert Linked(A, [d]);
      LinkedFrame(N, A, K[p]);
      LinkedAppend(A, M, [d], K[p]);
    }
  }

  lemma DeriveKeepsForest(N: seq<Node>, E: seq<Entry>, K: Kids, p: Slot, d: Slot, id: nat, rights: bv16)
    requires Forest(N, E, K) && E[p].occupied && !E[d].occupied
    requires N[p].depth < MAX_DEPTH && RightsSubset(rights, E[p].rights)
    ensures Forest(N[d := DerivedNode(N, E, p, id)][p := N[p].(firstChild := d)],
                   E[d := DerivedEntry(E, p, d, rights)], K[p := [d] + K[p]])
  {
    hide Forest, ListAt, Distinct, Linked, RightsSubset;
    ForestShape(N, E, K);
    UnoccupiedIsChildless(N, E, K, d);
    var n := DerivedNode(N, E, p, id);
    var M := N[d := n][p := N[p].(firstChild := d)];
    var F := E[d := DerivedEntry(E, p, d, rights)];
    var L := K[p := [d] + K[p]];
    forall s: Slot ensures ListAt(M, s, L[s]) && Distinct(L[s]) {
      DeriveKeepsChain(N, E, K, p, d, n, s);
    }
    forall s: Slot, c: Slot | c in L[s] ensures Edge(M, F, s, c) {
      if !(s == p && c == d) {
        assert c in K[s];
        EdgeAt(N, E, K, s, c);
      }
    }
    forall c: Slot | F[c].occupied ensures LiveNode(M[c]) && (M[c].parent != NIL ==> c in L[M[c].parent]) {
      if c != d { LiveAt(N, E, K, c); }
    }
    MakeForest(M, F, L);
  }

  // ---------------------------------------------------------------- closing

  /** What is left of the parent's child list once `c` is unlinked from it. */
  ghost function Siblings(N: seq<Node>, K: Kids, c: Slot): seq<Slot>
    requires |N| == |K| == NODES
    requires N[c].parent != NIL ==> c in K[N[c].parent]
  {
    if N[c].parent == NIL then [] else Without(K[N[c].parent], IndexOf(K[N[c].parent], c))
  }

  /** Closing `c` hands its children to its parent, in front of the remaining siblings. */
  ghost function ClosedKids(N: seq<Node>, K: Kids, c: Slot): Kids
    requires |N| == |K| == NODES
    requires N[c].parent != NIL ==> c in K[N[c].parent]
  {
    if N[c].parent == NIL then K[c := []] else K[N[c].parent := K[c] + Siblings(N, K, c)][c := []]
  }

  /** A child of the closed capability: re-hung below the grandparent, or promoted to a root. */
  function Adopted(N: seq<Node>, c: Slot, x: Slot): Node
    requires |N| == NODES
  {
    if N[c].parent == NIL then
      N[x].(parent := NIL, parentGen := 0, depth := 0)
    else
      N[x].(parent := N[c].parent, parentGen := N[c].parentGen, depth := N[N[c].parent].depth + 1)
  }

  ghost function ClosedNode(N: seq<Node>, K: Kids, c: Slot, x: Slot): Node
    requires |N| == |K| == NODES
    requires N[c].parent != NIL ==> c in K[N[c].parent]
  {
    var rest := Siblings(N, K, c);
    if x == c then EMPTY_NODE
    else if x in K[c] then
      var y := Adopted(N, c, x);
      if N[c].parent != NIL && x == K[c][|K[c]| - 1] then y.(nextSibling := Head(rest)) else y
    else if x == N[c].parent then N[x].(firstChild := Head(K[c] + rest))
    else if N[c].parent != NIL && x in K[N[c].parent] && N[x].nextSibling == c then
      N[x].(nextSibling := N[c].nextSibling)
    else N[x]
  }

  /** The edit made by `capability_close_locked`, entry by entry. */
  ghost predicate Closes(N: seq<Node>, E: seq<Entry>, K: Kids, c: Slot, M: seq<Node>, F: seq<Entry>)
    requires Forest(N, E, K)
  {
    && E[c].occupied && |M| == NODES
    && F == E[c := FreedEntry(E[c])]
    && (N[c].parent != NIL ==> c in K[N[c].parent])
    && (forall x: Slot :: M[x] == ClosedNode(N, K, c, x))
  }

  /** The chain of the parent of a closed capability. */
  lemma CloseSplicesChain(N: seq<Node>, E: seq<Entry>, K: Kids, c: Slot, M: seq<Node>, F: seq<Entry>, p: Slot)
    requires Forest(N, E, K) && Closes(N, E, K, c, M, F) && N[c].parent == p
    ensures Linked(M, K[c] + Siblings(N, K, c)) && Distinct(K[c] + Siblings(N, K, c))
  {
    hide Forest, Linked, Distinct;
    FamilyIsDisjoint(N, E, K, c, p);
    OnePredecessor(N, K[p], IndexOf(K[p], c));
    LinkedSplice(N, M, K[p], IndexOf(K[p], c), K[c]);
  }

  lemma CloseKeepsChain(N: seq<Node>, E: seq<Entry>, K: Kids, c: Slot, M: seq<Node>, F: seq<Entry>, s: Slot)
    requires Forest(N, E, K) && Closes(N, E, K, c, M, F)
    ensures ListAt(M, s, ClosedKids(N, K, c)[s]) && Distinct(ClosedKids(N, K, c)[s])
  {
    hide Forest, Linked, Distinct, Siblings;
    ForestShape(N, E, K);
    if s == c {
      EmptyChain(M, s);
    } else if s == N[c].parent {
      CloseSplicesChain(N, E, K, c, M, F, s);
      FamilyIsDisjoint(N, E, K, c, s);
    } else {
      ChainAt(N, E, K, s);
      var p := N[c].parent;
      if p != NIL { EdgeAt(N, E, K, p, c); }
      forall x | x in K[s] ensures M[x].nextSibling == N[x].nextSibling {
        EdgeAt(N, E, K, s, x);
        if x in K[c] { EdgeAt(N, E, K, c, x); }
        if p != NIL && x in K[p] { EdgeAt(N, E, K, p, x); }
      }
      LinkedFrame(N, M, K[s]);
      if s in K[c] { EdgeAt(N, E, K, c, s); }
    }
  }

  lemma ClosesShape(N: seq<Node>, E: seq<Entry>, K: Kids, c: Slot, M: seq<Node>, F: seq<Entry>)
    requires Forest(N, E, K) && Closes(N, E, K, c, M, F)
    ensures |N| == |E| == |K| == |M| == |F| == NODES && (N[c].parent != NIL ==> c in K[N[c].parent])
    ensures |ClosedKids(N, K, c)| == NODES
  {
  }

  lemma CloseKeepsLive(N: seq<Node>, E: seq<Entry>, K: Kids, c: Slot, M: seq<Node>, F: seq<Entry>, x: Slot)
    requires Forest(N, E, K) && Closes(N, E, K, c, M, F) && F[x].occupied
    ensures LiveNode(M[x])
  {
    hide Forest, Siblings;
    ForestShape(N, E, K);
    LiveAt(N, E, K, x);
    LiveAt(N, E, K, c);
    var p := N[c].parent;
    if p != NIL { EdgeAt(N, E, K, p, c); }
  }

  lemma CloseKeepsForest(N: seq<Node>, E: seq<Entry>, K: Kids, c: Slot, M: seq<Node>, F: seq<Entry>)
    requires Forest(N, E, K) && Closes(N, E, K, c, M, F)
    ensures Forest(M, F, ClosedKids(N, K, c))
  {
    hide Forest, Closes, ClosedKids, ListAt, Distinct, Edge, LiveNode;
    ClosesShape(N, E, K, c, M, F);
    var L := ClosedKids(N, K, c);
    forall s: Slot ensures ListAt(M, s, L[s]) && Distinct(L[s]) {
      CloseKeepsChain(N, E, K, c, M, F, s);
    }
    forall s: Slot, x: Slot | x in L[s] ensures Edge(M, F, s, x) {
      CloseKeepsEdge(N, E, K, c, M, F, s, x);
    }
    forall s: Slot, x: Slot | F[x].occupied && M[x].parent == s ensures x in L[s] {
      CloseListsChildren(N, E, K, c, M, F, s, x);
    }
    forall x: Slot | F[x].occupied ensures LiveNode(M[x]) {
      CloseKeepsLive(N, E, K, c, M, F, x);
    }
    MakeForest(M, F, L);
  }

  lemma SiblingsMembers(N: seq<Node>, E: seq<Entry>, K: Kids, c: Slot, x: Slot)
    requires Forest(N, E, K) && E[c].occupied && N[c].parent != NIL && c in K[N[c].parent]
    ensures x in Siblings(N, K, c) <==> x in K[N[c].parent] && x != c
  {
  }

  lemma CloseKeepsEdge(N: seq<Node>, E: seq<Entry>, K: Kids, c: Slot, M: seq<Node>, F: seq<Entry>, s: Slot, x: Slot)
    requires Forest(N, E, K) && Closes(N, E, K, c, M, F)
    requires x in ClosedKids(N, K, c)[s]
    ensures Edge(M, F, s, x)
  {
    hide Forest, Siblings, RightsSubset;
    ForestShape(N, E, K);
    var p := N[c].parent;
    assert s != c;
    if s in K[c] { EdgeAt(N, E, K, c, s); }
    if p != NIL {
      EdgeAt(N, E, K, p, c);
      SiblingsMembers(N, E, K, c, x);
    }
    if x in K[c] { EdgeAt(N, E, K, c, x); }
    if s == p && x in K[c] {
      RightsSubsetTransitive(E[x].rights, E[c].rights, E[p].rights);
    } else {
      EdgeAt(N, E, K, s, x);
    }
  }

  lemma CloseListsChildren(N: seq<Node>, E: seq<Entry>, K: Kids, c: Slot, M: seq<Node>, F: seq<Entry>, s: Slot, x: Slot)
    requires Forest(N, E, K) && Closes(N, E, K, c, M, F)
    requires F[x].occupied && M[x].parent == s
    ensures x in ClosedKids(N, K, c)[s]
  {
    hide Forest, Siblings;
    ForestShape(N, E, K);
    LiveAt(N, E, K, x);
    var p := N[c].parent;
    if p != NIL {
      EdgeAt(N, E, K, p, c);
      SiblingsMembers(N, E, K, c, x);
    }
    if x in K[c] { EdgeAt(N, E, K, c, x); }
  }

  /** Closing never changes who is an ancestor of whom among the capabilities that survive. */
  lemma CloseKeepsAncestors(N: seq<Node>, E: seq<Entry>, K: Kids, c: Slot,
                            M: seq<Node>, F: seq<Entry>, a: Slot, b: Slot)
    requires Forest(N, E, K) && Closes(N, E, K, c, M, F)
    requires F[a].occupied && F[b].occupied
    ensures Ancestor(M, a, b) <==> Ancestor(N, a, b)
  {
    if Ancestor(N, a, b) {
      var n: nat :| n > 0 && NthUp(N, b, n) == a;
      CloseShortensPath(N, E, K, c, M, F, a, b, n);
    }
    if Ancestor(M, a, b) {
      var n: nat :| n > 0 && NthUp(M, b, n) == a;
      CloseLengthensPath(N, E, K, c, M, F, a, b, n);
    }
  }

  lemma ClosedParent(N: seq<Node>, E: seq<Entry>, K: Kids, c: Slot, M: seq<Node>, F: seq<Entry>, b: Slot)
    requires Forest(N, E, K) && Closes(N, E, K, c, M, F) && F[b].occupied
    ensures M[b].parent == if N[b].parent == c then N[c].parent else N[b].parent
    ensures N[c].parent != c
    ensures N[b].parent != NIL ==> E[N[b].parent].occupied
    ensures N[c].parent != NIL ==> E[N[c].parent].occupied
  {
    if b in K[c] { assert Edge(N, E, c, b); }
    var p, q := N[b].parent, N[c].parent;
    if p != NIL { ParentIsLive(N, E, K, b, p); }
    if q != NIL { ParentIsLive(N, E, K, c, q); }
  }

  lemma {:induction false} CloseShortensPath(N: seq<Node>, E: seq<Entry>, K: Kids, c: Slot,
                                             M: seq<Node>, F: seq<Entry>, a: Slot, b: Slot, n: nat)
    requires Forest(N, E, K) && Closes(N, E, K, c, M, F)
    requires F[a].occupied && F[b].occupied && n > 0 && NthUp(N, b, n) == a
    ensures Ancestor(M, a, b)
    decreases n
  {
    ClosedParent(N, E, K, c, M, F, b);
    var p := N[b].parent;
    if p == c {
      assert NthUp(N, c, n - 1) == a && n > 1;
      var q: Slot := N[c].parent;
      assert NthUp(N, q, n - 2) == a;
      if n == 2 { ParentIsAncestor(M, b, q); } else {
        CloseShortensPath(N, E, K, c, M, F, a, q, n - 2);
        ParentIsAncestor(M, b, q);
      }
    } else {
      ParentIsAncestor(M, b, p);
      if n > 1 { CloseShortensPath(N, E, K, c, M, F, a, p, n - 1); }
    }
  }

  lemma {:induction false} CloseLengthensPath(N: seq<Node>, E: seq<Entry>, K: Kids, c: Slot,
                                              M: seq<Node>, F: seq<Entry>, a: Slot, b: Slot, n: nat)
    requires Forest(N, E, K) && Closes(N, E, K, c, M, F)
    requires F[a].occupied && F[b].occupied && n > 0 && NthUp(M, b, n) == a
    ensures Ancestor(N, a, b)
    decreases n
  {
    ClosedParent(N, E, K, c, M, F, b);
    var q: Slot := M[b].parent;
    assert NthUp(M, q, n - 1) == a;
    if n > 1 { CloseLengthensPath(N, E, K, c, M, F, a, q, n - 1); }
    if N[b].parent == c {
      ParentIsAncestor(N, c, q);
      ParentIsAncestor(N, b, c);
    } else {
      ParentIsAncestor(N, b, q);
    }
  }

  // ---------------------------------------------------------------- moving

  function Renamed(src: Slot, dst: Slot, x: Link): Link {
    if x == src then dst else x
  }

  ghost function MovedKids(N: seq<Node>, K: Kids, src: Slot, dst: Slot): Kids
    requires |N| == |K| == NODES
    requires N[src].parent != NIL ==> src in K[N[src].parent]
  {
    var L := K[dst := K[src]][src := []];
    var p := N[src].parent;
    if p == NIL then L else L[p := K[p][IndexOf(K[p], src) := dst]]
  }

  ghost function MovedNode(N: seq<Node>, E: seq<Entry>, K: Kids, src: Slot, dst: Slot, id: nat, x: Slot): Node
    requires |N| == |E| == |K| == NODES
  {
    var p := N[src].parent;
    if x == src then EMPTY_NODE
    else if x == dst then
      N[src].(id := id, revoked := false, nextSibling := if p == NIL then NIL else N[src].nextSibling)
    else if x in K[src] then N[x].(parent := dst, parentGen := E[dst].gen)
    else if x == p && N[x].firstChild == src then N[x].(firstChild := dst)
    else if p != NIL && x in K[p] && N[x].nextSibling == src then N[x].(nextSibling := dst)
    else N[x]
  }

  /** The edit made by `install_moved_capability_locked`, entry by entry. */
  ghost predicate Moves(N: seq<Node>, E: seq<Entry>, K: Kids, src: Slot, dst: Slot, id: nat, M: seq<Node>, F: seq<Entry>)
    requires Forest(N, E, K)
  {
    && E[src].occupied && !E[dst].occupied && |M| == NODES
    && F == E[dst := E[src].(gen := E[dst].gen)][src := FreedEntry(E[src])]
    && (N[src].parent != NIL ==> src in K[N[src].parent])
    && (forall x: Slot :: M[x] == MovedNode(N, E, K, src, dst, id, x))
  }

  lemma MoveReplacesInChain(N: seq<Node>, E: seq<Entry>, K: Kids, src: Slot, dst: Slot, id: nat,
                            M: seq<Node>, F: seq<Entry>, p: Slot)
    requires Forest(N, E, K) && Moves(N, E, K, src, dst, id, M, F) && N[src].parent == p
    ensures ListAt(M, p, K[p][IndexOf(K[p], src) := dst]) && Distinct(K[p][IndexOf(K[p], src) := dst])
  {
    hide Forest, Linked, Distinct;
    UnoccupiedIsChildless(N, E, K, dst);
    FamilyIsDisjoint(N, E, K, src, p);
    OnePredecessor(N, K[p], IndexOf(K[p], src));
    LinkedReplace(N, M, K[p], IndexOf(K[p], src), dst);
  }

  lemma MoveKeepsChain(N: seq<Node>, E: seq<Entry>, K: Kids, src: Slot, dst: Slot, id: nat,
                       M: seq<Node>, F: seq<Entry>, s: Slot)
    requires Forest(N, E, K) && Moves(N, E, K, src, dst, id, M, F)
    ensures ListAt(M, s, MovedKids(N, K, src, dst)[s]) && Distinct(MovedKids(N, K, src, dst)[s])
  {
    hide Forest, Linked, Distinct;
    ForestShape(N, E, K);
    UnoccupiedIsChildless(N, E, K, dst);
    var p := N[src].parent;
    if p != NIL { EdgeAt(N, E, K, p, src); }
    if s == p {
      MoveReplacesInChain(N, E, K, src, dst, id, M, F, s);
    } else if s == src {
      EmptyChain(M, s);
    } else {
      var o := if s == dst then src else s;
      ChainAt(N, E, K, o);
      forall x | x in K[o] ensures M[x].nextSibling == N[x].nextSibling && x != src && x != dst {
        EdgeAt(N, E, K, o, x);
        if p != NIL && x in K[p] { EdgeAt(N, E, K, p, x); }
      }
      LinkedFrame(N, M, K[o]);
      if s in K[src] { EdgeAt(N, E, K, src, s); }
    }
  }

  lemma MovesShape(N: seq<Node>, E: seq<Entry>, K: Kids, src: Slot, dst: Slot, id: nat, M: seq<Node>, F: seq<Entry>)
    requires Forest(N, E, K) && Moves(N, E, K, src, dst, id, M, F)
    ensures |N| == |E| == |K| == |M| == |F| == NODES && (N[src].parent != NIL ==> src in K[N[src].parent])
    ensures |MovedKids(N, K, src, dst)| == NODES
  {
  }

  lemma MoveKeepsLive(N: seq<Node>, E: seq<Entry>, K: Kids, src: Slot, dst: Slot, id: nat,
                      M: seq<Node>, F: seq<Entry>, x: Slot)
    requires Forest(N, E, K) && Moves(N, E, K, src, dst, id, M, F) && F[x].occupied
    ensures LiveNode(M[x])
  {
    hide Forest;
    ForestShape(N, E, K);
    LiveAt(N, E, K, if x == dst then src else x);
    if x in K[src] { EdgeAt(N, E, K, src, x); }
  }

  lemma MoveKeepsForest(N: seq<Node>, E: seq<Entry>, K: Kids, src: Slot, dst: Slot, id: nat,
                        M: seq<Node>, F: seq<Entry>)
    requires Forest(N, E, K) && Moves(N, E, K, src, dst, id, M, F)
    ensures Forest(M, F, MovedKids(N, K, src, dst))
  {
    hide Forest, Moves, MovedKids, ListAt, Distinct, Edge, LiveNode;
    MovesShape(N, E, K, src, dst, id, M, F);
    var L := MovedKids(N, K, src, dst);
    forall s: Slot ensures ListAt(M, s, L[s]) && Distinct(L[s]) {
      MoveKeepsChain(N, E, K, src, dst, id, M, F, s);
    }
    forall s: Slot, x: Slot | x in L[s] ensures Edge(M, F, s, x) {
      MoveKeepsEdge(N, E, K, src, dst, id, M, F, s, x);
    }
    forall s: Slot, x: Slot | F[x].occupied && M[x].parent == s ensures x in L[s] {
      MoveListsChildren(N, E, K, src, dst, id, M, F, s, x);
    }
    forall x: Slot | F[x].occupied ensures LiveNode(M[x]) {
      MoveKeepsLive(N, E, K, src, dst, id, M, F, x);
    }
    MakeForest(M, F, L);
  }

  lemma MovedKidsMembers(N: seq<Node>, E: seq<Entry>, K: Kids, src: Slot, dst: Slot, s: Slot, x: Slot)
    requires Forest(N, E, K) && E[src].occupied && !E[dst].occupied
    requires N[src].parent != NIL ==> src in K[N[src].parent]
    ensures s != src && s != dst ==>
              (x in MovedKids(N, K, src, dst)[s] <==>
               if x == dst then s == N[src].parent else x != src && x in K[s])
    ensures x in MovedKids(N, K, src, dst)[dst] <==> x in K[src]
    ensures MovedKids(N, K, src, dst)[src] == []
  {
    UnoccupiedIsChildless(N, E, K, dst);
    var p := N[src].parent;
    if p != NIL {
      assert Edge(N, E, p, src);
      var l, j := K[p], IndexOf(K[p], src);
      var w := l[j := dst];
      assert w[j] == dst;
      forall y | y in l && y != src ensures y in w {
        var i :| 0 <= i < |l| && l[i] == y;
        assert w[i] == y;
      }
      forall y | y in w && y != dst ensures y in l && y != src {
        var i :| 0 <= i < |w| && w[i] == y;
        assert l[i] == y;
      }
    }
    assert src in K[s] ==> Edge(N, E, s, src);
  }

  lemma MoveKeepsEdge(N: seq<Node>, E: seq<Entry>, K: Kids, src: Slot, dst: Slot, id: nat,
                      M: seq<Node>, F: seq<Entry>, s: Slot, x: Slot)
    requires Forest(N, E, K) && Moves(N, E, K, src, dst, id, M, F)
    requires x in MovedKids(N, K, src, dst)[s]
    ensures Edge(M, F, s, x)
  {
    hide Forest, RightsSubset;
    ForestShape(N, E, K);
    UnoccupiedIsChildless(N, E, K, dst);
    MovedKidsMembers(N, E, K, src, dst, s, x);
    if s in K[src] { EdgeAt(N, E, K, src, s); }
    if x in K[src] { EdgeAt(N, E, K, src, x); }
    if s != dst { EdgeAt(N, E, K, s, if x == dst then src else x); }
  }

  lemma MoveListsChildren(N: seq<Node>, E: seq<Entry>, K: Kids, src: Slot, dst: Slot, id: nat,
                          M: seq<Node>, F: seq<Entry>, s: Slot, x: Slot)
    requires Forest(N, E, K) && Moves(N, E, K, src, dst, id, M, F)
    requires F[x].occupied && M[x].parent == s
    ensures x in MovedKids(N, K, src, dst)[s]
  {
    hide Forest, MovedKids;
    ForestShape(N, E, K);
    UnoccupiedIsChildless(N, E, K, dst);
    var o: Slot := if x == dst then src else x;
    MovedKidsMembers(N, E, K, src, dst, s, x);
    LiveAt(N, E, K, o);
    var q := N[o].parent;
    if q != NIL { EdgeAt(N, E, K, q, o); }
    if o in K[src] { EdgeAt(N, E, K, src, o); }
  }

  lemma {:induction false} MoveRenamesPath(N: seq<Node>, E: seq<Entry>, K: Kids, src: Slot, dst: Slot, id: nat,
                                           M: seq<Node>, F: seq<Entry>, b: Slot, n: nat)
    requires Forest(N, E, K) && Moves(N, E, K, src, dst, id, M, F) && E[b].occupied
    ensures NthUp(M, Renamed(src, dst, b), n) == Renamed(src, dst, NthUp(N, b, n))
    ensures NthUp(N, b, n) == NIL || E[NthUp(N, b, n)].occupied
    decreases n
  {
    UnoccupiedIsChildless(N, E, K, dst);
    if n > 0 {
      var b' := Renamed(src, dst, b);
      var p := N[b].parent;
      assert b in K[src] ==> Edge(N, E, src, b);
      if p != NIL {
        ParentIsLive(N, E, K, b, p);
        assert M[b'].parent == Renamed(src, dst, p);
        MoveRenamesPath(N, E, K, src, dst, id, M, F, p, n - 1);
      } else {
        assert M[b'].parent == NIL;
      }
    }
  }

  /** A move renames one slot and changes nothing else about who descends from whom. */
  lemma MoveRenamesAncestors(N: seq<Node>, E: seq<Entry>, K: Kids, src: Slot, dst: Slot, id: nat,
                             M: seq<Node>, F: seq<Entry>, a: Slot, b: Slot)
    requires Forest(N, E, K) && Moves(N, E, K, src, dst, id, M, F)
    requires E[a].occupied && E[b].occupied
    ensures Ancestor(M, Renamed(src, dst, a), Renamed(src, dst, b)) <==> Ancestor(N, a, b)
  {
    var a', b' := Renamed(src, dst, a), Renamed(src, dst, b);
    if Ancestor(N, a, b) {
      var n: nat :| n > 0 && NthUp(N, b, n) == a;
      MoveRenamesPath(N, E, K, src, dst, id, M, F, b, n);
      assert NthUp(M, b', n) == a';
    }
    if Ancestor(M, a', b') {
      var n: nat :| n > 0 && NthUp(M, b', n) == a';
      MoveRenamesPath(N, E, K, src, dst, id, M, F, b, n);
      assert NthUp(N, b, n) == a;
    }
  }

  // ---------------------------------------------------------------- revoking

  /** `W` lists the slots reached from `t` through child chains: closed under children, and nothing else in it. */
  ghost predicate Swept(N: seq<Node>, K: Kids, t: Slot, W: set<Slot>)
    requires |N| == |K| == NODES
  {
    && t !in W
    && (forall s: Slot, c: Slot :: (s == t || s in W) && c in K[s] ==> c in W)
    && (forall w: Slot :: w in W ==> Ancestor(N, t, w))
  }

  lemma {:induction false} SweptReachesPath(N: seq<Node>, E: seq<Entry>, K: Kids, t: Slot, W: set<Slot>, b: Slot, n: nat)
    requires Forest(N, E, K) && Swept(N, K, t, W)
    requires E[b].occupied && n > 0 && NthUp(N, b, n) == t
    ensures b in W
    decreases n
  {
    var p: Slot := N[b].parent;
    ParentIsLive(N, E, K, b, p);
    assert NthUp(N, p, n - 1) == t;
    if n > 1 {
      SweptReachesPath(N, E, K, t, W, p, n - 1);
    }
  }

  /** A swept set is exactly the set of live proper descendants. */
  lemma SweptIsDescendants(N: seq<Node>, E: seq<Entry>, K: Kids, t: Slot, W: set<Slot>, b: Slot)
    requires Forest(N, E, K) && Swept(N, K, t, W) && E[b].occupied
    ensures b in W <==> Ancestor(N, t, b)
  {
    if Ancestor(N, t, b) {
      var n: nat :| n > 0 && NthUp(N, b, n) == t;
      SweptReachesPath(N, E, K, t, W, b, n);
    }
  }

  function RevokedNode(n: Node): Node {
    n.(revoked := true, firstChild := NIL, nextSibling := NIL)
  }

  ghost function RevokedKids(K: Kids, t: Slot, W: set<Slot>): Kids
    requires |K| == NODES
  {
    seq(NODES, s requires 0 <= s < NODES => if s == t || s in W then [] else K[s])
  }

  /** The edit made by `revoke_descendants_tree_locked`, entry by entry. */
  ghost predicate Revokes(N: seq<Node>, E: seq<Entry>, t: Slot, W: set<Slot>, M: seq<Node>, F: seq<Entry>)
    requires |N| == |E| == NODES
  {
    && |M| == |F| == NODES
    && (forall x: Slot :: M[x] == if x == t then N[x].(firstChild := NIL) else if x in W then RevokedNode(N[x]) else N[x])
    && (forall x: Slot :: F[x] == if x in W then FreedEntry(E[x]) else E[x])
  }

  /** What is left on a chain after a revocation was on it before and is not revoked. */
  lemma RevokeLeavesChain(N: seq<Node>, E: seq<Entry>, K: Kids, t: Slot, W: set<Slot>, s: Slot, x: Slot)
    requires Forest(N, E, K) && Swept(N, K, t, W) && x in RevokedKids(K, t, W)[s]
    ensures x in K[s] && x !in W && Edge(N, E, s, x)
  {
    EdgeAt(N, E, K, s, x);
    if x in W {
      ParentIsAncestor(N, x, s);
      assert Ancestor(N, t, x);
      SweptIsDescendants(N, E, K, t, W, s);
    }
  }

  lemma RevokeKeepsForest(N: seq<Node>, E: seq<Entry>, K: Kids, t: Slot, W: set<Slot>, M: seq<Node>, F: seq<Entry>)
    requires Forest(N, E, K) && Swept(N, K, t, W) && Revokes(N, E, t, W, M, F)
    ensures Forest(M, F, RevokedKids(K, t, W))
  {
    hide Forest, Swept, Linked, Distinct, RightsSubset;
    ForestShape(N, E, K);
    var L := RevokedKids(K, t, W);
    forall s: Slot ensures ListAt(M, s, L[s]) && Distinct(L[s]) {
      ChainAt(N, E, K, s);
      if s == t || s in W {
        EmptyChain(M, s);
      } else {
        forall x | x in K[s] ensures M[x].nextSibling == N[x].nextSibling {
          RevokeLeavesChain(N, E, K, t, W, s, x);
        }
        LinkedFrame(N, M, K[s]);
      }
    }
    forall s: Slot, x: Slot | x in L[s] ensures Edge(M, F, s, x) {
      RevokeLeavesChain(N, E, K, t, W, s, x);
    }
    forall x: Slot | F[x].occupied ensures LiveNode(M[x]) && (M[x].parent != NIL ==> x in L[M[x].parent]) {
      LiveAt(N, E, K, x);
      if M[x].parent != NIL { SweptHasChildren(N, K, t, W, M[x].parent, x); }
    }
    MakeForest(M, F, L);
  }

  lemma SweptHasChildren(N: seq<Node>, K: Kids, t: Slot, W: set<Slot>, s: Slot, c: Slot)
    requires |N| == |K| == NODES && Swept(N, K, t, W) && c in K[s]
    ensures s == t || s in W ==> c in W
  {
  }

  // ---------------------------------------------------------------- the worklist of a revocation

  ghost function Descendants(N: seq<Node>, E: seq<Entry>, t: Slot): set<Slot>
    requires |N| == |E| == NODES
  {
    set x: Slot | E[x].occupied && Ancestor(N, t, x)
  }

  /** The worklist `W` with its first `idx` entries handled. */
  ghost predicate Sweep(N: seq<Node>, E: seq<Entry>, K: Kids, t: Slot, W: seq<Slot>, idx: int)
    requires |N| == |E| == |K| == NODES
  {
    && 0 <= idx <= |W| && Distinct(W)
    && (forall x :: x in W ==> x != t && E[x].occupied && Ancestor(N, t, x))
    && (forall c :: c in K[t] ==> c in W)
    && (forall s, c: Slot :: s in W[..idx] && c in K[s] ==> c in W)
    && (forall x :: x in W ==> N[x].parent == t || N[x].parent in W[..idx])
  }

  lemma SweepStarts(N: seq<Node>, E: seq<Entry>, K: Kids, t: Slot)
    requires Forest(N, E, K)
    ensures Sweep(N, E, K, t, K[t], 0)
  {
    forall x | x in K[t] ensures x != t && E[x].occupied && Ancestor(N, t, x) && N[x].parent == t {
      assert Edge(N, E, t, x);
      ParentIsAncestor(N, x, t);
    }
  }

  lemma SweepSteps(N: seq<Node>, E: seq<Entry>, K: Kids, t: Slot, W: seq<Slot>, idx: int)
    requires Forest(N, E, K) && Sweep(N, E, K, t, W, idx) && idx < |W|
    ensures Sweep(N, E, K, t, W + K[W[idx]], idx + 1)
    ensures forall c :: c in K[W[idx]] ==> c !in W && c != t
  {
    var u := W[idx];
    var V := W + K[u];
    assert u in W && u !in W[..idx];
    forall c | c in K[u] ensures c !in W && c != t && E[c].occupied && Ancestor(N, t, c) && N[c].parent == u {
      assert Edge(N, E, u, c);
      ParentIsAncestor(N, c, u);
      AncestorAttenuation(N, E, K, t, c);
    }
    assert V[..idx + 1] == W[..idx] + [u];
    forall s, c: Slot | s in V[..idx + 1] && c in K[s] ensures c in V {
      assert s in W[..idx] || s == u;
    }
    forall i, j | 0 <= i < j < |V| ensures V[i] != V[j] {
      if i < |W| <= j { assert V[i] in W && V[j] in K[u]; }
    }
  }

  lemma {:induction false} DistinctFits(l: seq<Slot>, n: nat)
    requires Distinct(l) && n <= NODES && forall x :: x in l ==> x < n
    ensures |l| <= n
    decreases n
  {
    if l != [] && n > 0 {
      var m := n - 1;
      if m in l {
        var j := IndexOf(l, m);
        var w := Without(l, j);
        WithoutMembers(l, j);
        DistinctFits(w, m);
      } else {
        DistinctFits(l, m);
      }
    } else {
      HeadIsMember(l);
    }
  }

  /** The 512-entry worklist always has room: it holds distinct slots, none of them the target. */
  lemma SweepFits(N: seq<Node>, E: seq<Entry>, K: Kids, t: Slot, W: seq<Slot>, idx: int)
    requires |N| == |E| == |K| == NODES && Sweep(N, E, K, t, W, idx)
    ensures |W| < NODES
  {
    var V := W + [t];
    forall x | x in V ensures x < NODES { assert x in W || x == t; }
    assert Distinct(V) by {
      forall i, j | 0 <= i < j < |V| ensures V[i] != V[j] { assert V[i] in W; }
    }
    DistinctFits(V, NODES);
  }

  ghost function Elements(l: seq<Slot>): set<Slot> {
    set x | x in l
  }

  lemma SweepEnds(N: seq<Node>, E: seq<Entry>, K: Kids, t: Slot, W: seq<Slot>)
    requires Forest(N, E, K) && Sweep(N, E, K, t, W, |W|)
    ensures Swept(N, K, t, Descendants(N, E, t))
    ensures forall x: Slot :: x in W <==> x in Descendants(N, E, t)
    ensures |Descendants(N, E, t)| == |W|
  {
    var S := Elements(W);
    assert W[..|W|] == W;
    assert Swept(N, K, t, S);
    forall x: Slot ensures x in S <==> x in Descendants(N, E, t) {
      if E[x].occupied { SweptIsDescendants(N, E, K, t, S, x); }
    }
    assert S == Descendants(N, E, t);
    DistinctSetSize(W);
  }

  lemma {:induction false} DistinctSetSize(l: seq<Slot>)
    requires Distinct(l)
    ensures |Elements(l)| == |l|
  {
    if l != [] {
      DistinctSetSize(l[1..]);
      assert Elements(l) == {l[0]} + Elements(l[1..]);
      assert l[0] !in l[1..];
    }
  }
}
