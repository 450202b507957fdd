/**
 The capability tables as one value, the edits the kernel makes to them as relations between two such
 values, and the proof that every edit keeps the tables sound.
 */
module CapSteps {
  import opened Common
  import opened CapTypes
  import opened CapTree
  import opened CapLedger

  /** All tables at one moment. `kids` is the forest the node table represents. */
  datatype Tables = Tables(nodes: seq<Node>, entries: seq<Entry>, counts: seq<nat>, objects: seq<ObjectSlot>,
                           nextId: nat, kids: Kids)

  ghost predicate Shape(T: Tables) {
    && |T.nodes| == |T.entries| == |T.kids| == NODES
    && |T.counts| == MAX_PROCESSES && |T.objects| == MAX_OBJECTS
  }

  ghost predicate Sound(T: Tables) {
    && Shape(T)
    && Forest(T.nodes, T.entries, T.kids)
    && Tallied(T.entries, T.counts)
    && Referenced(T.entries, T.objects)
    && Identified(T.nodes, T.entries, T.nextId)
  }

  lemma SoundHasShape(T: Tables)
    requires Sound(T)
    ensures Shape(T)
  {
  }

  lemma IdsAreBounded(T: Tables)
    requires Sound(T)
    ensures 1 <= T.nextId <= U64_MAX
  {
  }

  // ---------------------------------------------------------------- installing

  ghost predicate RootStep(T: Tables, d: Slot, o: int, rights: bv16, endpoint: int, U: Tables)
    requires Shape(T)
  {
    && 0 <= o < MAX_OBJECTS && T.objects[o].occupied && !T.entries[d].occupied && T.nextId < U64_MAX
    && U == Tables(T.nodes[d := RootNode(T.nextId)],
                   T.entries[d := Entry(o, T.entries[d].gen, T.objects[o].gen, rights, endpoint, true)],
                   WithCount(T.counts, ProcOf(d), 1),
                   WithRefs(T.objects, o, 1),
                   T.nextId + 1, T.kids)
  }

  lemma RootKeepsSound(T: Tables, d: Slot, o: int, rights: bv16, endpoint: int, U: Tables)
    requires Sound(T) && RootStep(T, d, o, rights, endpoint, U)
    ensures Sound(U) && T.objects[o].handleRefs < U16_MAX
  {
    hide Forest, Tallied, Referenced, Identified;
    var e := U.entries[d];
    RootKeepsForest(T.nodes, T.entries, T.kids, d, T.nextId, e);
    OccupyKeepsTally(T.entries, T.counts, d, e);
    OccupyKeepsRefs(T.entries, T.objects, d, e);
    NewIdKeepsIdentified(T.nodes, T.entries, T.nextId, d, U.nodes, U.entries);
  }

  ghost predicate DeriveStep(T: Tables, p: Slot, d: Slot, rights: bv16, U: Tables)
    requires Shape(T)
  {
    var e := DerivedEntry(T.entries, p, d, rights);
    && T.entries[p].occupied && !T.entries[d].occupied && T.nextId < U64_MAX
    && T.nodes[p].depth < MAX_DEPTH && RightsSubset(rights, T.entries[p].rights)
    && 0 <= e.obj < MAX_OBJECTS
    && U == Tables(T.nodes[d := DerivedNode(T.nodes, T.entries, p, T.nextId)][p := T.nodes[p].(firstChild := d)],
                   T.entries[d := e],
                   WithCount(T.counts, ProcOf(d), 1),
                   WithRefs(T.objects, e.obj, 1),
                   T.nextId + 1, T.kids[p := [d] + T.kids[p]])
  }

  lemma DeriveKeepsSound(T: Tables, p: Slot, d: Slot, rights: bv16, U: Tables)
    requires Sound(T) && DeriveStep(T, p, d, rights, U)
    ensures Sound(U) && T.objects[T.entries[p].obj].handleRefs < U16_MAX
  {
    hide Forest, Tallied, Referenced, Identified;
    var e := U.entries[d];
    LiveIsCounted(T, p);
    DeriveKeepsForest(T.nodes, T.entries, T.kids, p, d, T.nextId, rights);
    OccupyKeepsTally(T.entries, T.counts, d, e);
    OccupyKeepsRefs(T.entries, T.objects, d, e);
    NewIdKeepsIdentified(T.nodes, T.entries, T.nextId, d, U.nodes, U.entries);
  }

  // ---------------------------------------------------------------- closing

  ghost predicate CloseStep(T: Tables, c: Slot, U: Tables)
    requires Sound(T)
  {
    var o := T.entries[c].obj;
    && Closes(T.nodes, T.entries, T.kids, c, U.nodes, U.entries)
    && T.counts[ProcOf(c)] > 0 && 0 <= o < MAX_OBJECTS && T.objects[o].handleRefs > 0
    && U.counts == WithCount(T.counts, ProcOf(c), -1)
    && U.objects == WithRefs(T.objects, o, -1)
    && U.nextId == T.nextId
    && U.kids == ClosedKids(T.nodes, T.kids, c)
  }

  lemma LiveIsCounted(T: Tables, c: Slot)
    requires Sound(T) && T.entries[c].occupied
    ensures T.counts[ProcOf(c)] > 0 && Current(T.entries[c], T.objects) && T.objects[T.entries[c].obj].handleRefs > 0
    ensures LiveNode(T.nodes[c]) && T.nextId <= U64_MAX
  {
    FreeKeepsTally(T.entries, T.counts, c, FreedEntry(T.entries[c]));
    FreeKeepsRefs(T.entries, T.objects, c, FreedEntry(T.entries[c]));
  }

  lemma CloseKeepsSound(T: Tables, c: Slot, U: Tables)
    requires Sound(T) && CloseStep(T, c, U)
    ensures Sound(U)
  {
    hide Forest, Tallied, Referenced, Identified, ClosedNode, ClosedKids;
    ClosesShape(T.nodes, T.entries, T.kids, c, U.nodes, U.entries);
    CloseKeepsForest(T.nodes, T.entries, T.kids, c, U.nodes, U.entries);
    CloseKeepsIdentified(T.nodes, T.entries, T.kids, c, U.nodes, U.entries, T.nextId);
    FreeKeepsTally(T.entries, T.counts, c, FreedEntry(T.entries[c]));
    FreeKeepsRefs(T.entries, T.objects, c, FreedEntry(T.entries[c]));
  }

  lemma CloseKeepsIdentified(N: seq<Node>, E: seq<Entry>, K: Kids, c: Slot, M: seq<Node>, F: seq<Entry>, next: nat)
    requires Forest(N, E, K) && Closes(N, E, K, c, M, F) && Identified(N, E, next)
    ensures Identified(M, F, next)
  {
    hide Forest, Identified, Siblings;
    ClosesShape(N, E, K, c, M, F);
    FreeKeepsIdentified(N, E, next, M, F);
  }

  // ---------------------------------------------------------------- moving

  ghost predicate MoveStep(T: Tables, src: Slot, dst: Slot, U: Tables)
    requires Sound(T)
  {
    && T.nextId < U64_MAX
    && Moves(T.nodes, T.entries, T.kids, src, dst, T.nextId, U.nodes, U.entries)
    && T.counts[ProcOf(src)] > 0
    && U.counts == WithCount(WithCount(T.counts, ProcOf(dst), 1), ProcOf(src), -1)
    && U.objects == T.objects
    && U.nextId == T.nextId + 1
    && U.kids == MovedKids(T.nodes, T.kids, src, dst)
  }

  lemma MoveKeepsSound(T: Tables, src: Slot, dst: Slot, U: Tables)
    requires Sound(T) && MoveStep(T, src, dst, U)
    ensures Sound(U)
  {
    hide Forest, Tallied, Referenced, Identified, MovedNode, MovedKids;
    var e, f := T.entries[src].(gen := T.entries[dst].gen), FreedEntry(T.entries[src]);
    MovesShape(T.nodes, T.entries, T.kids, src, dst, T.nextId, U.nodes, U.entries);
    MoveKeepsForest(T.nodes, T.entries, T.kids, src, dst, T.nextId, U.nodes, U.entries);
    MoveKeepsIdentified(T.nodes, T.entries, T.kids, src, dst, T.nextId, U.nodes, U.entries);
    OccupyKeepsTally(T.entries, T.counts, dst, e);
    FreeKeepsTally(T.entries[dst := e], WithCount(T.counts, ProcOf(dst), 1), src, f);
    MoveKeepsRefs(T.entries, T.objects, src, dst, e, f);
  }

  lemma MoveKeepsIdentified(N: seq<Node>, E: seq<Entry>, K: Kids, src: Slot, dst: Slot, id: nat, M: seq<Node>, F: seq<Entry>)
    requires Forest(N, E, K) && Moves(N, E, K, src, dst, id, M, F) && Identified(N, E, id) && id < U64_MAX
    ensures Identified(M, F, id + 1)
  {
    hide Forest, Identified;
    MoveLeavesIds(N, E, K, src, dst, id, M, F);
    NewIdKeepsIdentified(N, E, id, dst, M, F);
  }

  /** A move gives the destination the fresh id, clears the source's, and leaves all others. */
  lemma MoveLeavesIds(N: seq<Node>, E: seq<Entry>, K: Kids, src: Slot, dst: Slot, id: nat, M: seq<Node>, F: seq<Entry>)
    requires Forest(N, E, K) && Moves(N, E, K, src, dst, id, M, F)
    ensures |N| == |E| == |M| == |F| == NODES && M[dst].id == id
    ensures forall s: Slot :: s != dst ==> (M[s].id == N[s].id || M[s].id == 0)
    ensures forall s: Slot :: s != dst && F[s].occupied ==> E[s].occupied && M[s].id == N[s].id
  {
    ForestShape(N, E, K);
    hide Forest;
  }

  // ---------------------------------------------------------------- revoking

  /** The same objects are in the table, whatever their reference counts. */
  ghost predicate SameObjects(O: seq<ObjectSlot>, P: seq<ObjectSlot>) {
    && |O| == |P| == MAX_OBJECTS
    && forall o :: 0 <= o < MAX_OBJECTS ==> P[o].(handleRefs := 0) == O[o].(handleRefs := 0)
  }

  ghost predicate RevokeStep(T: Tables, t: Slot, U: Tables)
    requires Shape(T)
  {
    var D := Descendants(T.nodes, T.entries, t);
    && Revokes(T.nodes, T.entries, t, D, U.nodes, U.entries)
    && SameObjects(T.objects, U.objects)
    && U.nextId == T.nextId
    && U.kids == RevokedKids(T.kids, t, D)
  }

  lemma RevokeKeepsSound(T: Tables, t: Slot, U: Tables)
    requires Sound(T) && RevokeStep(T, t, U) && Swept(T.nodes, T.kids, t, Descendants(T.nodes, T.entries, t))
    requires Tallied(U.entries, U.counts) && Referenced(U.entries, U.objects)
    ensures Sound(U)
  {
    var D := Descendants(T.nodes, T.entries, t);
    RevokeKeepsForest(T.nodes, T.entries, T.kids, t, D, U.nodes, U.entries);
    FreeKeepsIdentified(T.nodes, T.entries, T.nextId, U.nodes, U.entries);
  }

  /** A revocation frees the proper descendants and leaves the target and every other capability as it was. */
  lemma RevokeFreesExactly(T: Tables, t: Slot, U: Tables, x: Slot)
    requires Sound(T) && RevokeStep(T, t, U) && T.entries[x].occupied
    ensures !U.entries[x].occupied <==> Ancestor(T.nodes, t, x)
    ensures U.entries[x].occupied ==> U.entries[x] == T.entries[x]
    ensures U.entries[x].occupied ==> U.nodes[x].parent == T.nodes[x].parent && U.nodes[x].id == T.nodes[x].id
    ensures T.entries[t].occupied ==> U.entries[t] == T.entries[t]
  {
    if T.entries[t].occupied && Ancestor(T.nodes, t, t) {
      AncestorAttenuation(T.nodes, T.entries, T.kids, t, t);
    }
  }

  /** What a close leaves alone: every other entry and id. */
  lemma CloseLeavesRest(T: Tables, c: Slot, U: Tables)
    requires Sound(T) && CloseStep(T, c, U)
    ensures Shape(U) && !U.entries[c].occupied && U.nodes[c].id == 0
    ensures forall x: Slot :: x != c ==> U.entries[x] == T.entries[x] && U.nodes[x].id == T.nodes[x].id
  {
    hide Forest, Tallied, Referenced, Identified;
    CloseKeepsSound(T, c, U);
  }

  /** Closing changes no ancestor fact among the capabilities that survive. */
  lemma CloseKeepsLineage(T: Tables, c: Slot, U: Tables)
    requires Sound(T) && CloseStep(T, c, U)
    ensures Shape(U) && SameLineage(T, U)
  {
    hide Forest, Closes, Ancestor, Tallied, Referenced, Identified;
    CloseKeepsSound(T, c, U);
    forall a: Slot, b: Slot | U.entries[a].occupied && U.entries[b].occupied
      ensures Ancestor(U.nodes, a, b) <==> Ancestor(T.nodes, a, b)
    {
      CloseKeepsAncestors(T.nodes, T.entries, T.kids, c, U.nodes, U.entries, a, b);
    }
  }

  lemma CloseKeepsIds(T: Tables, c: Slot, U: Tables)
    requires Sound(T) && CloseStep(T, c, U)
    ensures U.nextId == T.nextId
  {
  }

  lemma LineageIgnoresObjects(T: Tables, U: Tables, V: Tables)
    requires Shape(T) && Shape(U) && Shape(V) && SameLineage(T, U) && V == U.(objects := V.objects)
    ensures SameLineage(T, V)
  {
  }

  ghost predicate SameLineage(T: Tables, U: Tables)
    requires Shape(T) && Shape(U)
  {
    forall a: Slot, b: Slot :: U.entries[a].occupied && U.entries[b].occupied ==>
      (Ancestor(U.nodes, a, b) <==> Ancestor(T.nodes, a, b))
  }

  // ---------------------------------------------------------------- identifiers over time

  /** Every id live in `U` was already live in `T`, or was issued since. */
  ghost predicate NoResurrection(T: Tables, U: Tables) {
    && Shape(T) && Shape(U) && T.nextId <= U.nextId
    && forall s: Slot :: U.entries[s].occupied ==> U.nodes[s].id >= T.nextId || LiveId(T, U.nodes[s].id)
  }

  ghost predicate LiveId(T: Tables, id: nat)
    requires Shape(T)
  {
    exists s: Slot :: T.entries[s].occupied && T.nodes[s].id == id
  }

  lemma NoResurrectionComposes(T: Tables, U: Tables, V: Tables)
    requires NoResurrection(T, U) && NoResurrection(U, V)
    ensures NoResurrection(T, V)
  {
  }

  lemma SubsetNoResurrection(T: Tables, U: Tables)
    requires Shape(T) && Shape(U) && T.nextId <= U.nextId
    requires forall s: Slot :: U.entries[s].occupied ==>
      U.nodes[s].id == T.nextId || (T.entries[s].occupied && U.nodes[s].id == T.nodes[s].id)
    ensures NoResurrection(T, U)
  {
  }

  lemma CloseNoResurrection(T: Tables, c: Slot, U: Tables)
    requires Sound(T) && CloseStep(T, c, U)
    ensures NoResurrection(T, U)
  {
    hide Forest, Tallied, Referenced, Identified, ClosedNode, ClosedKids;
    CloseLeavesRest(T, c, U);
    SubsetNoResurrection(T, U);
  }

  lemma MoveNoResurrection(T: Tables, src: Slot, dst: Slot, U: Tables)
    requires Sound(T) && MoveStep(T, src, dst, U)
    ensures NoResurrection(T, U)
  {
    hide Forest, Tallied, Referenced, Identified, MovedNode, MovedKids, NoResurrection;
    MoveKeepsSound(T, src, dst, U);
    MoveLeavesIds(T.nodes, T.entries, T.kids, src, dst, T.nextId, U.nodes, U.entries);
    SubsetNoResurrection(T, U);
  }

  lemma RevokeNoResurrection(T: Tables, t: Slot, U: Tables)
    requires Sound(T) && Shape(U) && RevokeStep(T, t, U)
    ensures NoResurrection(T, U)
  {
  }

  lemma RootNoResurrection(T: Tables, d: Slot, o: int, rights: bv16, endpoint: int, U: Tables)
    requires Shape(T) && RootStep(T, d, o, rights, endpoint, U)
    ensures NoResurrection(T, U)
  {
  }

  lemma DeriveNoResurrection(T: Tables, p: Slot, d: Slot, rights: bv16, U: Tables)
    requires Shape(T) && DeriveStep(T, p, d, rights, U)
    ensures NoResurrection(T, U)
  {
  }

  /** A process with no occupied entry has count zero and no child links. */
  lemma EmptyProcess(T: Tables, p: Proc)
    requires Sound(T) && forall s: Slot :: ProcOf(s) == p ==> !T.entries[s].occupied
    ensures T.counts[p] == 0
    ensures forall s: Slot :: ProcOf(s) == p ==> T.nodes[s].firstChild == NIL
  {
    hide Forest;
    CountBounds(T.entries, IsOccupied, p * MAX_HANDLES, p * MAX_HANDLES + MAX_HANDLES);
    forall s: Slot | ProcOf(s) == p ensures T.nodes[s].firstChild == NIL {
      UnoccupiedIsChildless(T.nodes, T.entries, T.kids, s);
    }
  }
}
