/**
 The intermediate tables inside one edit: what unlinking, relinking, splicing and partial revocation
 leave behind, position by position.
 */
module CapEdits {
  import opened CapTypes
  import opened CapTree

  /** Taking `c` out of the child list `l` of `p`. */
  function Unlinked(N: seq<Node>, p: Slot, c: Slot, l: seq<Slot>): seq<Node>
    requires |N| == NODES && c in l
  {
    var j := IndexOf(l, c);
    var M := if j == 0 then N[p := N[p].(firstChild := N[c].nextSibling)]
             else N[l[j - 1] := N[l[j - 1]].(nextSibling := N[c].nextSibling)];
    M[c := M[c].(nextSibling := NIL)]
  }

  /** Putting `d` in the place of `c` in the child list `l` of `p`. */
  function Relinked(N: seq<Node>, p: Slot, c: Slot, d: Slot, l: seq<Slot>): seq<Node>
    requires |N| == NODES && c in l
  {
    var j := IndexOf(l, c);
    var M := N[d := N[d].(nextSibling := N[c].nextSibling)];
    if j == 0 then M[p := M[p].(firstChild := d)]
    else M[l[j - 1] := M[l[j - 1]].(nextSibling := d)]
  }

  function Rehung(n: Node, parent: Link, gen: Gen, depth: nat): Node {
    n.(parent := parent, parentGen := gen, depth := depth)
  }

  ghost predicate UnlinkedFacts(N: seq<Node>, K: Kids, c: Slot, p: Slot, x: Slot)
    requires |N| == |K| == NODES && N[c].parent == p && c in K[p]
  {
    Unlinked(N, p, c, K[p])[x] ==
      if x == p then N[x].(firstChild := Head(Siblings(N, K, c)))
      else if x in K[p] && N[x].nextSibling == c then N[x].(nextSibling := N[c].nextSibling)
      else N[x]
  }

  /** Unlinking touches the parent's first link or the predecessor's next link, and nothing else. */
  lemma UnlinkedAt(N: seq<Node>, E: seq<Entry>, K: Kids, c: Slot, p: Slot, x: Slot)
    requires Forest(N, E, K) && E[c].occupied && N[c].parent == p && c in K[p] && x != c
    ensures UnlinkedFacts(N, K, c, p, x)
  {
    hide Forest;
    FamilyIsDisjoint(N, E, K, c, p);
    var l, j := K[p], IndexOf(K[p], c);
    OnePredecessor(N, l, j);
    assert if j == 0 then |l| > 1 ==> N[l[0]].nextSibling == l[1] && Without(l, 0)[0] == l[1]
           else Without(l, j)[0] == l[0];
  }

  /** So the closed capability's own children, and the parent but for its first link, are untouched. */
  lemma UnlinkedElsewhere(N: seq<Node>, E: seq<Entry>, K: Kids, c: Slot, p: Slot, x: Slot)
    requires Forest(N, E, K) && E[c].occupied && N[c].parent == p && c in K[p] && (x in K[c] || x == p)
    ensures Unlinked(N, p, c, K[p])[x].(firstChild := NIL) == N[x].(firstChild := NIL)
    ensures x in K[c] ==> Unlinked(N, p, c, K[p])[x] == N[x]
  {
    hide Forest, Unlinked;
    FamilyIsDisjoint(N, E, K, c, p);
    UnlinkedAt(N, E, K, c, p, x);
  }

  /** Unlink, re-hang and splice together give the closed tree. */
  lemma SplicedAt(N: seq<Node>, E: seq<Entry>, K: Kids, c: Slot, p: Slot, A: seq<Node>, M: seq<Node>, x: Slot)
    requires Forest(N, E, K) && E[c].occupied && N[c].parent == p && c in K[p] && x != c && |A| == NODES
    requires forall y: Slot :: A[y] ==
               if y in K[c] then Rehung(N[y], p, N[c].parentGen, N[p].depth + 1) else Unlinked(N, p, c, K[p])[y]
    requires M == if K[c] == [] then A else
                    var last := K[c][|K[c]| - 1];
                    A[last := A[last].(nextSibling := A[p].firstChild)][p := A[p].(firstChild := K[c][0])]
    ensures M[x] == ClosedNode(N, K, c, x)
  {
    hide Forest, Unlinked, Siblings, Distinct, Linked;
    FamilyIsDisjoint(N, E, K, c, p);
    UnlinkedAt(N, E, K, c, p, x);
    UnlinkedAt(N, E, K, c, p, p);
  }

  /** The node table after the destination is filled and put in the source's place among its siblings. */
  ghost function Replanted(N: seq<Node>, K: Kids, src: Slot, dst: Slot, id: nat): seq<Node>
    requires |N| == |K| == NODES
    requires N[src].parent != NIL ==> src in K[N[src].parent]
  {
    var A := N[dst := N[src].(id := id, revoked := false, nextSibling := NIL)];
    if N[src].parent == NIL then A else Relinked(A, N[src].parent, src, dst, K[N[src].parent])
  }

  lemma ReplantedAt(N: seq<Node>, E: seq<Entry>, K: Kids, src: Slot, dst: Slot, id: nat, x: Slot)
    requires Forest(N, E, K) && E[src].occupied && !E[dst].occupied && x != src
    ensures |N| == |E| == |K| == NODES
    requires N[src].parent != NIL ==> src in K[N[src].parent]
    ensures x in K[src] ==> x != dst && Replanted(N, K, src, dst, id)[x] == N[x]
    ensures x !in K[src] ==> Replanted(N, K, src, dst, id)[x] == MovedNode(N, E, K, src, dst, id, x)
  {
    hide Forest;
    UnoccupiedIsChildless(N, E, K, dst);
    var p := N[src].parent;
    if p != NIL {
      FamilyIsDisjoint(N, E, K, src, p);
      OnePredecessor(N, K[p], IndexOf(K[p], src));
    }
  }

  /** The tables when the first `idx` entries of the worklist `W` have been revoked. */
  ghost predicate PartlyRevoked(N: seq<Node>, E: seq<Entry>, t: Slot, W: seq<Slot>, idx: int, M: seq<Node>, F: seq<Entry>)
    requires |N| == |E| == NODES && 0 <= idx <= |W|
  {
    Revokes(N, E, t, Elements(W[..idx]), M, F)
  }

  lemma NothingRevoked(N: seq<Node>, E: seq<Entry>, t: Slot, W: seq<Slot>)
    requires |N| == |E| == NODES
    ensures PartlyRevoked(N, E, t, W, 0, N[t := N[t].(firstChild := NIL)], E)
  {
  }

  lemma SweepIsDistinct(N: seq<Node>, E: seq<Entry>, K: Kids, t: Slot, W: seq<Slot>, idx: int)
    requires |N| == |E| == |K| == NODES && Sweep(N, E, K, t, W, idx) && idx < |W|
    ensures W[idx] !in W[..idx]
  {
  }

  /** The next worklist entry is untouched: still live, still naming the target's object, its chain intact. */
  lemma NextToRevoke(N: seq<Node>, E: seq<Entry>, K: Kids, t: Slot, W: seq<Slot>, idx: int, M: seq<Node>, F: seq<Entry>)
    requires Forest(N, E, K) && Sweep(N, E, K, t, W, idx) && idx < |W| && E[t].occupied
    requires PartlyRevoked(N, E, t, W, idx, M, F)
    ensures var u := W[idx];
      && M[u].firstChild == Head(K[u]) && Linked(M, K[u])
      && u != t && F[u].occupied && F[t].occupied && F[u].obj == F[t].obj
  {
    var u := W[idx];
    var S := Elements(W[..idx]);
    assert u in W && u !in S;
    assert ListAt(N, u, K[u]);
    SweepSteps(N, E, K, t, W, idx);
    assert forall x :: x in K[u] ==> x !in S && x != t;
    LinkedFrame(N, M, K[u]);
    AncestorAttenuation(N, E, K, t, u);
  }

  lemma RevokeOneMore(N: seq<Node>, E: seq<Entry>, t: Slot, W: seq<Slot>, idx: int, kids: seq<Slot>, M: seq<Node>, F: seq<Entry>)
    requires |N| == |E| == NODES && 0 <= idx < |W| && W[idx] != t && W[idx] !in W[..idx]
    requires PartlyRevoked(N, E, t, W, idx, M, F)
    ensures var u := W[idx];
      PartlyRevoked(N, E, t, W + kids, idx + 1, M[u := RevokedNode(M[u])], F[u := FreedEntry(F[u])])
  {
    var u := W[idx];
    assert (W + kids)[..idx + 1] == W[..idx] + [u];
    assert Elements((W + kids)[..idx + 1]) == Elements(W[..idx]) + {u};
  }
}
