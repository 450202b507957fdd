/**
 Runs of the capability subsystem: any sequence of requests, from the empty tables or from any sound ones.
 */
module CapRuns {
  import opened CapTypes
  import opened CapTree
  import opened CapSteps
  import opened CapTables

  datatype Request =
    | NewObject
    | Pin(o: nat, pins: nat)
    | Create(p: Proc, o: nat, rights: bv16, endpoint: int)
    | Derive(p: Proc, h: nat, rights: bv16)
    | Duplicate(p: Proc, h: nat, gen: Gen)
    | Delegate(src: Slot, dst: Proc, rights: bv16)
    | Transfer(src: Slot, dst: Proc)
    | Revoke(s: Slot)
    | Close(s: Slot)
    | Exit(p: Proc)

  /** Serves one request. Creation is only asked for objects that exist; the kernel asserts as much. */
  method Serve(t: CapabilityTables, q: Request)
    requires t.Valid()
    modifies t, t.entries, t.nodes, t.counts, t.objects
    ensures t.Valid()
    ensures NoResurrection(old(t.Now()), t.Now())
  {
    hide Sound, RootStep, DeriveStep, MoveStep, RevokeStep, CloseStep, NoResurrection;
    ghost var T := t.Now();
    SoundHasShape(T);
    NothingResurrects(T, T);
    match q
    case NewObject =>
      var _ := t.AllocateObject();
      NothingResurrects(T, t.Now());
    case Pin(o, pins) =>
      if o < MAX_OBJECTS {
        t.SetPins(o, pins);
        NothingResurrects(T, t.Now());
      }
    case Create(p, o, rights, endpoint) =>
      if o < MAX_OBJECTS && t.objects[o].occupied {
        var r := t.Create(p, o, rights, endpoint);
        if r.Ok? { RootNoResurrection(T, r.value.0, o, rights, endpoint, t.Now()); }
      }
    case Derive(p, h, rights) =>
      var r := t.Derive(p, h, rights);
      if r.Ok? { DeriveNoResurrection(T, SlotAt(p, h), r.value.0, rights, t.Now()); }
    case Duplicate(p, h, gen) =>
      var r := t.Duplicate(p, h, gen);
      if r.Ok? { DeriveNoResurrection(T, SlotAt(p, h), r.value.0, T.entries[SlotAt(p, h)].rights, t.Now()); }
    case Delegate(src, dst, rights) =>
      var r := t.Delegate(src, dst, rights);
      if r.Ok? { DeriveNoResurrection(T, src, r.value.0, rights, t.Now()); }
    case Transfer(src, dst) =>
      var r := t.Transfer(src, dst);
      if r.Ok? { MoveNoResurrection(T, src, r.value.0, t.Now()); }
    case Revoke(s) =>
      var r := t.Revoke(s);
      if r.Ok? { SoundHasShape(t.Now()); RevokeNoResurrection(T, s, t.Now()); }
    case Close(s) =>
      var r := t.Close(s);
      if r.Ok? { CloseNoResurrection(T, s, t.Now()); }
    case Exit(p) =>
      t.Exit(p);
  }

  lemma NothingResurrects(T: Tables, U: Tables)
    requires Shape(T) && Shape(U) && U == T.(objects := U.objects)
    ensures NoResurrection(T, U)
  {
  }

  /** Every run keeps the tables sound, and no capability id that was retired ever becomes live again. */
  method Run(t: CapabilityTables, requests: seq<Request>)
    requires t.Valid()
    modifies t, t.entries, t.nodes, t.counts, t.objects
    ensures t.Valid()
    ensures NoResurrection(old(t.Now()), t.Now())
  {
    hide Sound, NoResurrection;
    ghost var T := t.Now();
    SoundHasShape(T);
    NothingResurrects(T, T);
    for i := 0 to |requests|
      invariant t.Valid()
      invariant NoResurrection(T, t.Now())
    {
      ghost var U := t.Now();
      Serve(t, requests[i]);
      NoResurrectionComposes(T, U, t.Now());
    }
  }

  /** The whole life of the subsystem: from boot, through any requests. */
  method Boot(requests: seq<Request>) returns (t: CapabilityTables)
    ensures t.Valid()
  {
    t := new CapabilityTables();
    Run(t, requests);
  }

  /** Duplicate, transfer and revoke rights together. */
  const MANAGER: bv16 := 0x0700

  lemma ManagerRights()
    ensures MayTransfer(MANAGER) && MayDuplicate(MANAGER) && RightsSubset(0, MANAGER) && MANAGER & CAP_REVOKE != 0
  {
  }

  lemma RevokedChildKeepsId(T: Tables, t: Slot, c: Slot, U: Tables)
    requires Sound(T) && RevokeStep(T, t, U) && T.entries[c].occupied && T.nodes[c].parent == t
    ensures !U.entries[c].occupied && U.nodes[c].id == T.nodes[c].id && T.nodes[c].id > 0
  {
    ParentIsAncestor(T.nodes, c, t);
  }

  /**
   A revoked slot keeps its old id, so the teardown assertion on ids can fail: delegate to a second
   process, revoke, then let that process exit.
   */
  method ExitAssertionCanFail() returns (t: CapabilityTables)
    ensures t.Valid()
    ensures exists s: Slot :: ProcOf(s) == 1 && t.nodes[s].id != 0
  {
    hide Sound, MayTransfer, MayDuplicate, RightsSubset, SameLineage, NoResurrection;
    ManagerRights();
    t := new CapabilityTables();
    assert !t.objects[0].occupied;
    var o := t.AllocateObject();
    assert !t.entries[SlotAt(0, 0)].occupied;
    var root := t.Create(0, o.value, MANAGER, 0);
    var r := root.value.0;
    assert !t.entries[SlotAt(1, 0)].occupied;
    var given := t.Delegate(r, 1, 0);
    var g := given.value.0;
    ghost var T := t.Now();
    assert t.entries[r].rights == MANAGER && t.entries[r].occupied;
    assert t.entries[g].occupied && t.nodes[g].parent == r && ProcOf(g) == 1;
    hide DeriveStep, RootStep;
    var n := t.Revoke(r);
    RevokedChildKeepsId(T, r, g, t.Now());
    hide RevokeStep;
    t.Exit(1);
  }
}
