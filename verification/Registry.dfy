/**
 Saving the workspace daemon's tables to its durable storage and loading them into a new daemon.
 */
module Registry {

  import opened Common
  import opened Bits
  import opened RegistryFormat
  import Integrity
  import Ids

  const MAX_OBJECTS := 256
  const MAX_WORKSPACES := 32
  const MAX_EDGES := 256
  const STORAGE_SIZE := 250_000
  const WORKSPACES_AT := HEADER_SIZE + MAX_OBJECTS * RECORD_SIZE
  const EDGES_AT := WORKSPACES_AT + MAX_WORKSPACES * WORKSPACE_SIZE
  const END := EDGES_AT + MAX_EDGES * EDGE_SIZE

  // ---------------------------------------------------------------- what the storage says

  type Storage = s: seq<Byte> | |s| == STORAGE_SIZE witness Zeros(STORAGE_SIZE)

  ghost function HeaderIn(s: Storage): HeaderResult {
    DecodeHeader(s[0..HEADER_SIZE])
  }

  ghost function RecordIn(s: Storage, k: nat): Record
    requires k < MAX_OBJECTS
  {
    var at := HEADER_SIZE + k * RECORD_SIZE;
    DecodeRecord(s[at..at + RECORD_SIZE])
  }

  ghost function WorkspaceIn(s: Storage, k: nat): WorkspaceImage
    requires k < MAX_WORKSPACES
  {
    var at := WORKSPACES_AT + k * WORKSPACE_SIZE;
    DecodeWorkspace(s[at..at + WORKSPACE_SIZE])
  }

  ghost function EdgeIn(s: Storage, k: nat): EdgeImage
    requires k < MAX_EDGES
  {
    var at := EDGES_AT + k * EDGE_SIZE;
    DecodeEdge(s[at..at + EDGE_SIZE])
  }

  /** The same bytes from `lo` up to `hi`. */
  ghost predicate Same(s: Storage, t: Storage, lo: nat, hi: nat) {
    forall i :: lo <= i < hi && i < STORAGE_SIZE ==> s[i] == t[i]
  }

  lemma SameSlice(s: Storage, t: Storage, lo: nat, hi: nat)
    requires lo <= hi <= STORAGE_SIZE && Same(s, t, lo, hi)
    ensures s[lo..hi] == t[lo..hi]
  {
  }

  lemma SubSlice(s: seq<Byte>, at: nat, n: nat, lo: nat, hi: nat)
    requires lo <= hi <= n && at + n <= |s|
    ensures s[at..at + n][lo..hi] == s[at + lo..at + hi]
  {
    var b := s[at..at + n];
    forall i | 0 <= i < hi - lo ensures b[lo..hi][i] == s[at + lo..at + hi][i] {
      assert b[lo + i] == s[at + (lo + i)];
    }
  }

  lemma SameRecord(s: Storage, t: Storage, k: nat)
    requires k < MAX_OBJECTS && Same(s, t, HEADER_SIZE + k * RECORD_SIZE, HEADER_SIZE + (k + 1) * RECORD_SIZE)
    ensures RecordIn(s, k) == RecordIn(t, k)
  {
    SameSlice(s, t, HEADER_SIZE + k * RECORD_SIZE, HEADER_SIZE + (k + 1) * RECORD_SIZE);
  }

  lemma SameWorkspace(s: Storage, t: Storage, k: nat)
    requires k < MAX_WORKSPACES && Same(s, t, WORKSPACES_AT + k * WORKSPACE_SIZE, WORKSPACES_AT + (k + 1) * WORKSPACE_SIZE)
    ensures WorkspaceIn(s, k) == WorkspaceIn(t, k)
  {
    SameSlice(s, t, WORKSPACES_AT + k * WORKSPACE_SIZE, WORKSPACES_AT + (k + 1) * WORKSPACE_SIZE);
  }

  lemma SameEdge(s: Storage, t: Storage, k: nat)
    requires k < MAX_EDGES && Same(s, t, EDGES_AT + k * EDGE_SIZE, EDGES_AT + (k + 1) * EDGE_SIZE)
    ensures EdgeIn(s, k) == EdgeIn(t, k)
  {
    SameSlice(s, t, EDGES_AT + k * EDGE_SIZE, EDGES_AT + (k + 1) * EDGE_SIZE);
  }

  // ---------------------------------------------------------------- what a save writes

  /** The records in use, in table order. */
  ghost function Kept(objects: seq<Record>): (r: seq<Record>)
    ensures |r| <= |objects|
  {
    if objects == [] then []
    else
      var n := |objects| - 1;
      Kept(objects[..n]) + if objects[n].state != Free then [objects[n]] else []
  }

  lemma {:induction false} KeptHasEveryUsed(objects: seq<Record>, x: Record)
    ensures x in Kept(objects) <==> x in objects && x.state != Free
  {
    if objects != [] {
      var n := |objects| - 1;
      KeptHasEveryUsed(objects[..n], x);
      assert objects == objects[..n] + [objects[n]];
    }
  }

  ghost predicate ObjectsSaved(s: Storage, objects: seq<Record>) {
    |Kept(objects)| <= MAX_OBJECTS && forall k :: 0 <= k < |Kept(objects)| ==> RecordIn(s, k) == Canonical(Kept(objects)[k])
  }

  ghost predicate WorkspacesSaved(s: Storage, ws: seq<Workspace>) {
    forall k :: 0 <= k < |ws| && k < MAX_WORKSPACES ==> WorkspaceIn(s, k) == ImageOf(ws[k])
  }

  ghost predicate EdgesSaved(s: Storage, es: seq<Edge>) {
    forall k :: 0 <= k < |es| && k < MAX_EDGES ==> EdgeIn(s, k) == ImageOfEdge(es[k])
  }

  /** Everything the storage holds after a save, its checksum included. */
  ghost predicate Saved(s: Storage, t: Tables) {
    && ObjectsSaved(s, t.objects) && WorkspacesSaved(s, t.workspaces) && EdgesSaved(s, t.edges)
    && HeaderIn(s).Good? && HeaderIn(s).header.count == |Kept(t.objects)|
    && HeaderIn(s).header.checksum == Integrity.Crc32(s[HEADER_SIZE..END])
  }

  datatype Tables = Tables(objects: seq<Record>, workspaces: seq<Workspace>, edges: seq<Edge>)

  ghost predicate Full(t: Tables) {
    |t.objects| == MAX_OBJECTS && |t.workspaces| == MAX_WORKSPACES && |t.edges| == MAX_EDGES
  }

  // ---------------------------------------------------------------- what a load reads

  ghost predicate HasLive(objects: seq<Record>, id: Id) {
    exists k :: 0 <= k < |objects| && objects[k].id == id && objects[k].state == Live
  }

  ghost predicate ObjectsLoaded(s: Storage, count: nat, was: seq<Record>, now: seq<Record>)
    requires count <= MAX_OBJECTS
  {
    && |was| == |now| == MAX_OBJECTS
    && (forall k :: 0 <= k < count ==> now[k] == RecordIn(s, k))
    && (forall k :: count <= k < MAX_OBJECTS ==> now[k] == was[k])
  }

  function LoadedWorkspace(was: Workspace, im: WorkspaceImage): Workspace {
    if InUse(im.code) then Workspace(im.id, was.owner, im.generation, RestoredState(im.code), im.members) else was
  }

  ghost predicate WorkspacesLoaded(s: Storage, was: seq<Workspace>, now: seq<Workspace>) {
    && |was| == |now| == MAX_WORKSPACES
    && forall k :: 0 <= k < MAX_WORKSPACES ==> now[k] == LoadedWorkspace(was[k], WorkspaceIn(s, k))
  }

  function LoadedEdge(was: Edge, im: EdgeImage, live: bool): Edge {
    if im.code != 0 then Edge(im.workspace, im.obj, if live then LiveEdge else StaleEdge) else was
  }

  ghost predicate EdgesLoaded(s: Storage, objects: seq<Record>, was: seq<Edge>, now: seq<Edge>) {
    && |was| == |now| == MAX_EDGES
    && forall k :: 0 <= k < MAX_EDGES ==> now[k] == LoadedEdge(was[k], EdgeIn(s, k), HasLive(objects, EdgeIn(s, k).obj))
  }

  ghost function CountIn(h: Header): nat {
    if h.count < MAX_OBJECTS then h.count else MAX_OBJECTS
  }

  ghost predicate Loaded(s: Storage, was: Tables, now: Tables)
    requires HeaderIn(s).Good?
  {
    && ObjectsLoaded(s, CountIn(HeaderIn(s).header), was.objects, now.objects)
    && WorkspacesLoaded(s, was.workspaces, now.workspaces)
    && EdgesLoaded(s, now.objects, was.edges, now.edges)
  }

  // ---------------------------------------------------------------- the round trip

  /** A daemon that has just started: no objects and no edges. */
  ghost predicate Blank(t: Tables) {
    && Full(t) && (forall k :: 0 <= k < MAX_OBJECTS ==> t.objects[k].state == Free)
    && (forall k :: 0 <= k < MAX_EDGES ==> t.edges[k].state == NoEdge)
  }

  /** An object is live after the restart exactly when it was live before. */
  lemma LiveObjectsReturn(s: Storage, t: Tables, was: Tables, now: Tables, id: Id)
    requires Full(t) && Blank(was) && Saved(s, t) && Loaded(s, was, now)
    ensures HasLive(now.objects, id) <==> HasLive(t.objects, id)
  {
    hide RecordIn, HeaderIn, WorkspacesSaved, EdgesSaved, WorkspacesLoaded, EdgesLoaded, Kept, Integrity.Crc32;
    var kept := Kept(t.objects);
    if HasLive(t.objects, id) {
      var k :| 0 <= k < |t.objects| && t.objects[k].id == id && t.objects[k].state == Live;
      KeptHasEveryUsed(t.objects, t.objects[k]);
      var i :| 0 <= i < |kept| && kept[i] == t.objects[k];
      assert now.objects[i] == Canonical(kept[i]);
    }
    if HasLive(now.objects, id) {
      var k :| 0 <= k < |now.objects| && now.objects[k].id == id && now.objects[k].state == Live;
      assert k < |kept|;
      assert now.objects[k] == Canonical(kept[k]);
      KeptHasEveryUsed(t.objects, kept[k]);
      var i :| 0 <= i < |t.objects| && t.objects[i] == kept[k];
    }
  }

  ghost predicate ObjectsRestored(was: seq<Record>, now: seq<Record>)
    requires |was| == |now| == MAX_OBJECTS
  {
    && (forall k :: 0 <= k < |Kept(was)| ==> now[k] == Canonical(Kept(was)[k]))
    && (forall k :: |Kept(was)| <= k < MAX_OBJECTS ==> now[k].state == Free)
  }

  ghost predicate WorkspaceRestored(was: Workspace, now: Workspace) {
    && now.id == was.id && now.generation == was.generation && now.members == was.members
    && now.state == RestoredState(WorkspaceCode(was.state))
  }

  /** An edge is live after the restart exactly when its object was live before. */
  ghost predicate EdgeRestored(was: Edge, now: Edge, live: bool) {
    if was.state == NoEdge then now.state == NoEdge
    else now == Edge(was.workspace, was.obj, if live then LiveEdge else StaleEdge)
  }

  ghost predicate Restored(t: Tables, now: Tables) {
    && Full(t) && Full(now) && ObjectsRestored(t.objects, now.objects)
    && (forall k :: 0 <= k < MAX_WORKSPACES && InUse(WorkspaceCode(t.workspaces[k].state)) ==>
          WorkspaceRestored(t.workspaces[k], now.workspaces[k]))
    && (forall k :: 0 <= k < MAX_EDGES ==> EdgeRestored(t.edges[k], now.edges[k], HasLive(t.objects, t.edges[k].obj)))
  }

  /**
   Saving and loading into a new daemon restores the used objects in order, every workspace in use
   with its id, generation and member count, and every edge, live exactly when its object is.
   */
  lemma SaveThenLoad(s: Storage, t: Tables, was: Tables, now: Tables)
    requires Full(t) && Blank(was) && Saved(s, t) && Loaded(s, was, now)
    ensures Restored(t, now)
  {
    hide RecordIn, EdgeIn, HasLive, HeaderIn, Canonical, Kept;
    forall k | 0 <= k < MAX_WORKSPACES && InUse(WorkspaceCode(t.workspaces[k].state))
      ensures WorkspaceRestored(t.workspaces[k], now.workspaces[k])
    {
      assert WorkspaceIn(s, k) == ImageOf(t.workspaces[k]);
    }
    forall k | 0 <= k < MAX_EDGES
      ensures EdgeRestored(t.edges[k], now.edges[k], HasLive(t.objects, t.edges[k].obj))
    {
      assert EdgeIn(s, k) == ImageOfEdge(t.edges[k]);
      LiveObjectsReturn(s, t, was, now, t.edges[k].obj);
    }
  }

  /** The counter stands at or above the sequence number of every object and workspace in use before the restart. */
  lemma CounterIsAhead(s: Storage, t: Tables, was: Tables, now: Tables, current: nat)
    requires Full(t) && Blank(was) && Saved(s, t) && Loaded(s, was, now) && Covered(s, now, current)
    ensures forall k :: 0 <= k < MAX_OBJECTS && t.objects[k].state != Free ==> t.objects[k].id.seqNo <= current
    ensures forall k :: 0 <= k < MAX_WORKSPACES && InUse(WorkspaceCode(t.workspaces[k].state)) ==> t.workspaces[k].id.seqNo <= current
  {
    hide RecordIn, HeaderIn, WorkspaceIn, EdgesSaved, EdgesLoaded, Kept, Integrity.Crc32;
    var kept := Kept(t.objects);
    forall k | 0 <= k < MAX_OBJECTS && t.objects[k].state != Free ensures t.objects[k].id.seqNo <= current {
      KeptHasEveryUsed(t.objects, t.objects[k]);
      var i :| 0 <= i < |kept| && kept[i] == t.objects[k];
      assert now.objects[i] == Canonical(kept[i]);
    }
    forall k | 0 <= k < MAX_WORKSPACES && InUse(WorkspaceCode(t.workspaces[k].state))
      ensures t.workspaces[k].id.seqNo <= current
    {
      assert WorkspaceIn(s, k) == ImageOf(t.workspaces[k]);
    }
  }

  // ---------------------------------------------------------------- the daemon

  class Daemon {
    const objects: array<Record>
    const workspaces: array<Workspace>
    const edges: array<Edge>
    const storage: array<Byte>
    const allocator: Ids.Allocator

    ghost predicate Valid()
      reads this
    {
      && objects.Length == MAX_OBJECTS && workspaces.Length == MAX_WORKSPACES && edges.Length == MAX_EDGES
      && storage.Length == STORAGE_SIZE
      && objects as object != workspaces && objects as object != edges && objects as object != storage
      && workspaces as object != edges && workspaces as object != storage && edges as object != storage
    }

    /** A new daemon: empty tables and empty storage, with a recovered id allocator. */
    constructor (allocator: Ids.Allocator)
      ensures Valid() && Blank(Now()) && this.allocator == allocator
      ensures fresh(objects) && fresh(workspaces) && fresh(edges) && fresh(storage)
      ensures forall k :: 0 <= k < MAX_WORKSPACES ==> workspaces[k].state == Unallocated && workspaces[k].owner == 0
    {
      var none := Id(0, 0);
      var empty := Record(none, 0, 0, Free, 0, Zeros(NAME_SIZE));
      objects := new Record[MAX_OBJECTS](_ => empty);
      workspaces := new Workspace[MAX_WORKSPACES](_ => Workspace(none, 0, 0, Unallocated, 0));
      edges := new Edge[MAX_EDGES](_ => Edge(none, none, NoEdge));
      storage := new Byte[STORAGE_SIZE](_ => 0);
      this.allocator := allocator;
    }

    ghost function Now(): Tables
      requires Valid()
      reads this, objects, workspaces, edges
    {
      Tables(objects[..], workspaces[..], edges[..])
    }

    ghost function Bytes(): Storage
      requires Valid()
      reads this, storage
    {
      storage[..]
    }

    /** Copies bytes into the storage. */
    method Put(at: nat, bytes: seq<Byte>)
      requires Valid() && at + |bytes| <= STORAGE_SIZE
      modifies storage
      ensures Same(Bytes(), old(Bytes()), 0, at) && Same(Bytes(), old(Bytes()), at + |bytes|, STORAGE_SIZE)
      ensures storage[at..at + |bytes|] == bytes
    {
      for i := 0 to |bytes|
        invariant forall j :: 0 <= j < i ==> storage[at + j] == bytes[j]
        invariant forall j :: 0 <= j < at || at + |bytes| <= j < STORAGE_SIZE ==> storage[j] == old(storage[j])
      {
        storage[at + i] := bytes[i];
      }
    }

    method SaveObjects() returns (count: nat)
      requires Valid()
      modifies storage
      ensures count == |Kept(objects[..])| <= MAX_OBJECTS && ObjectsSaved(Bytes(), objects[..])
    {
      hide RecordIn, Canonical;
      count := 0;
      for i := 0 to objects.Length
        invariant count == |Kept(objects[..i])| <= i
        invariant ObjectsSaved(Bytes(), objects[..i])
      {
        assert objects[..i + 1][..i] == objects[..i];
        if objects[i].state != Free {
          ghost var s := Bytes();
          var at := HEADER_SIZE + count * RECORD_SIZE;
          Put(at, EncodeRecord(objects[i]));
          RecordIsWritten(Bytes(), count, objects[i]);
          forall k | 0 <= k < count ensures RecordIn(Bytes(), k) == RecordIn(s, k) {
            SameRecord(Bytes(), s, k);
          }
          count := count + 1;
        }
      }
      assert objects[..objects.Length] == objects[..];
    }

    method SaveWorkspace(k: nat)
      requires Valid() && k < MAX_WORKSPACES
      modifies storage
      ensures WorkspaceIn(Bytes(), k) == ImageOf(workspaces[k])
      ensures var at := WORKSPACES_AT + k * WORKSPACE_SIZE;
        Same(Bytes(), old(Bytes()), 0, at) && Same(Bytes(), old(Bytes()), at + WORKSPACE_SIZE, STORAGE_SIZE)
    {
      hide DecodeWorkspace, ImageOf, ToLe;
      var w := workspaces[k];
      var at := WORKSPACES_AT + k * WORKSPACE_SIZE;
      Put(at, IdBytes(w.id));
      ghost var s1 := Bytes();
      Put(at + 16, ToLe(w.owner, 8));
      Put(at + 24, ToLe(w.generation, 4));
      ghost var s2 := Bytes();
      Put(at + 28, [WorkspaceCode(w.state)]);
      ghost var s3 := Bytes();
      assert s3[at + 28..at + 29] == [WorkspaceCode(w.state)];
      Put(at + 34, ToLe(w.members, 2));
      SameSlice(Bytes(), s1, at, at + 16);
      SameSlice(Bytes(), s2, at + 24, at + 28);
      SameSlice(Bytes(), s3, at + 28, at + 29);
      WorkspaceIsWritten(Bytes(), k, w);
    }

    method SaveWorkspaces()
      requires Valid()
      modifies storage
      ensures WorkspacesSaved(Bytes(), workspaces[..])
      ensures Same(Bytes(), old(Bytes()), 0, WORKSPACES_AT)
    {
      hide WorkspaceIn;
      for i := 0 to workspaces.Length
        invariant WorkspacesSaved(Bytes(), workspaces[..i])
        invariant Same(Bytes(), old(Bytes()), 0, WORKSPACES_AT)
      {
        ghost var s := Bytes();
        SaveWorkspace(i);
        forall k | 0 <= k < i ensures WorkspaceIn(Bytes(), k) == WorkspaceIn(s, k) {
          SameWorkspace(Bytes(), s, k);
        }
      }
      assert workspaces[..workspaces.Length] == workspaces[..];
    }

    method SaveEdge(k: nat)
      requires Valid() && k < MAX_EDGES
      modifies storage
      ensures EdgeIn(Bytes(), k) == ImageOfEdge(edges[k])
      ensures var at := EDGES_AT + k * EDGE_SIZE;
        Same(Bytes(), old(Bytes()), 0, at) && Same(Bytes(), old(Bytes()), at + EDGE_SIZE, STORAGE_SIZE)
    {
      hide DecodeEdge, ImageOfEdge;
      var e := edges[k];
      var at := EDGES_AT + k * EDGE_SIZE;
      Put(at, IdBytes(e.workspace));
      ghost var s1 := Bytes();
      Put(at + 16, IdBytes(e.obj));
      ghost var s2 := Bytes();
      Put(at + 32, [EdgeCode(e.state)]);
      SameSlice(Bytes(), s1, at, at + 16);
      SameSlice(Bytes(), s2, at + 16, at + 32);
      ghost var b := storage[at..at + EDGE_SIZE];
      assert b[0..16] == storage[at..at + 16] == IdBytes(e.workspace);
      assert b[16..32] == storage[at + 16..at + 32] == IdBytes(e.obj);
      assert b[32] == storage[at + 32..at + 33][0] == EdgeCode(e.state);
      EdgeReadsBack(b, e);
    }

    method SaveEdges()
      requires Valid()
      modifies storage
      ensures EdgesSaved(Bytes(), edges[..])
      ensures Same(Bytes(), old(Bytes()), 0, EDGES_AT)
    {
      hide EdgeIn;
      for i := 0 to edges.Length
        invariant EdgesSaved(Bytes(), edges[..i])
        invariant Same(Bytes(), old(Bytes()), 0, EDGES_AT)
      {
        ghost var s := Bytes();
        SaveEdge(i);
        forall k | 0 <= k < i ensures EdgeIn(Bytes(), k) == EdgeIn(s, k) {
          SameEdge(Bytes(), s, k);
        }
      }
      assert edges[..edges.Length] == edges[..];
    }

    /** Writes all tables and then the header with their checksum. */
    method Save()
      requires Valid()
      modifies storage
      ensures Saved(Bytes(), Now())
    {
      hide ObjectsSaved, WorkspacesSaved, EdgesSaved, Integrity.Crc32, DecodeHeader, EncodeHeader;
      var count := SaveObjects();
      ghost var s1 := Bytes();
      SaveWorkspaces();
      ghost var s2 := Bytes();
      ObjectsStaySaved(s1, s2, objects[..]);
      SaveEdges();
      ghost var s3 := Bytes();
      ObjectsStaySaved(s2, s3, objects[..]);
      WorkspacesStaySaved(s2, s3, workspaces[..]);
      var checksum := Integrity.CalculateCrc32(storage[HEADER_SIZE..END]);
      Integrity.CrcIsAWord(storage[HEADER_SIZE..END]);
      var header := Header(MAGIC, VERSION, count, RECORD_SIZE, checksum);
      Put(0, EncodeHeader(header));
      HeaderRoundTrip(header);
      ghost var s4 := Bytes();
      ObjectsStaySaved(s3, s4, objects[..]);
      WorkspacesStaySaved(s3, s4, workspaces[..]);
      EdgesStaySaved(s3, s4, edges[..]);
      SameSlice(s3, s4, HEADER_SIZE, END);
      assert s4[0..HEADER_SIZE] == EncodeHeader(header);
    }

    method LoadObjects(count: nat) returns (top: nat)
      requires Valid() && count <= MAX_OBJECTS
      modifies objects
      ensures ObjectsLoaded(Bytes(), count, old(objects[..]), objects[..])
      ensures top <= U64_MAX && forall k :: 0 <= k < count && objects[k].state != Free ==> objects[k].id.seqNo <= top
    {
      hide DecodeRecord;
      top := 0;
      for i := 0 to count
        invariant forall k :: 0 <= k < i ==> objects[k] == RecordIn(Bytes(), k)
        invariant forall k :: i <= k < MAX_OBJECTS ==> objects[k] == old(objects[k])
        invariant top <= U64_MAX && forall k :: 0 <= k < i && objects[k].state != Free ==> objects[k].id.seqNo <= top
      {
        var at := HEADER_SIZE + i * RECORD_SIZE;
        var r := DecodeRecord(storage[at..at + RECORD_SIZE]);
        assert r == RecordIn(Bytes(), i);
        objects[i] := r;
        if r.state != Free && r.id.seqNo > top {
          top := r.id.seqNo;
        }
      }
    }

    method LoadWorkspaces(start: nat) returns (top: nat)
      requires Valid() && start <= U64_MAX
      modifies workspaces
      ensures WorkspacesLoaded(Bytes(), old(workspaces[..]), workspaces[..])
      ensures start <= top <= U64_MAX
      ensures forall k :: 0 <= k < MAX_WORKSPACES && InUse(WorkspaceIn(Bytes(), k).code) ==> workspaces[k].id.seqNo <= top
    {
      hide DecodeWorkspace;
      top := start;
      for i := 0 to workspaces.Length
        invariant forall k :: 0 <= k < i ==> workspaces[k] == LoadedWorkspace(old(workspaces[..])[k], WorkspaceIn(Bytes(), k))
        invariant forall k :: i <= k < MAX_WORKSPACES ==> workspaces[k] == old(workspaces[k])
        invariant start <= top <= U64_MAX
        invariant forall k :: 0 <= k < i && InUse(WorkspaceIn(Bytes(), k).code) ==> workspaces[k].id.seqNo <= top
      {
        var at := WORKSPACES_AT + i * WORKSPACE_SIZE;
        var im := DecodeWorkspace(storage[at..at + WORKSPACE_SIZE]);
        assert im == WorkspaceIn(Bytes(), i);
        if InUse(im.code) {
          workspaces[i] := Workspace(im.id, workspaces[i].owner, im.generation, RestoredState(im.code), im.members);
          if im.id.seqNo > top {
            top := im.id.seqNo;
          }
        }
      }
    }

    method FindLive(id: Id) returns (live: bool)
      requires Valid()
      ensures live <==> HasLive(objects[..], id)
    {
      for i := 0 to objects.Length
        invariant forall k :: 0 <= k < i ==> !(objects[k].id == id && objects[k].state == Live)
      {
        if objects[i].id == id && objects[i].state == Live {
          assert objects[..][i] == objects[i];
          return true;
        }
      }
      return false;
    }

    method LoadEdges()
      requires Valid()
      modifies edges
      ensures EdgesLoaded(Bytes(), objects[..], old(edges[..]), edges[..])
    {
      hide DecodeEdge, HasLive;
      for i := 0 to edges.Length
        invariant forall k :: 0 <= k < i ==>
          edges[k] == LoadedEdge(old(edges[..])[k], EdgeIn(Bytes(), k), HasLive(objects[..], EdgeIn(Bytes(), k).obj))
        invariant forall k :: i <= k < MAX_EDGES ==> edges[k] == old(edges[k])
      {
        var at := EDGES_AT + i * EDGE_SIZE;
        var im := DecodeEdge(storage[at..at + EDGE_SIZE]);
        assert im == EdgeIn(Bytes(), i);
        if im.code != 0 {
          var live := FindLive(im.obj);
          edges[i] := Edge(im.workspace, im.obj, if live then LiveEdge else StaleEdge);
        }
      }
    }

    /** Loads whatever a well-formed header announces; the checksum is not looked at. */
    method Load(c: Ids.Commit)
      requires Valid() && allocator.up
      modifies objects, workspaces, edges, allocator`durable, allocator`current, allocator`ceiling
      ensures !HeaderIn(Bytes()).Good? ==> Now() == old(Now()) && allocator.current == old(allocator.current)
      ensures HeaderIn(Bytes()).Good? ==> Loaded(Bytes(), old(Now()), Now())
      ensures HeaderIn(Bytes()).Good? ==> Covered(Bytes(), Now(), allocator.current)
    {
      hide RecordIn, WorkspaceIn, EdgeIn, DecodeHeader, ObjectsLoaded, WorkspacesLoaded, EdgesLoaded;
      var found := DecodeHeader(storage[0..HEADER_SIZE]);
      assert storage[0..HEADER_SIZE] == Bytes()[0..HEADER_SIZE];
      if !found.Good? {
        return;
      }
      var count := if found.header.count < MAX_OBJECTS then found.header.count else MAX_OBJECTS;
      var top := LoadObjects(count);
      top := LoadWorkspaces(top);
      LoadEdges();
      if top > 0 {
        var _ := allocator.AdvanceFloor(top, c);
      }
    }
  }

  /** The counter stands at or above the sequence number of every object and workspace loaded. */
  ghost predicate Covered(s: Storage, t: Tables, current: nat)
    requires HeaderIn(s).Good?
  {
    && Full(t)
    && (forall k :: 0 <= k < CountIn(HeaderIn(s).header) && t.objects[k].state != Free ==> t.objects[k].id.seqNo <= current)
    && (forall k :: 0 <= k < MAX_WORKSPACES && InUse(WorkspaceIn(s, k).code) ==> t.workspaces[k].id.seqNo <= current)
  }

  /** A load reads everything about a workspace but its owner. */
  lemma LoadKeepsOwners(s: Storage, was: Tables, now: Tables)
    requires HeaderIn(s).Good? && Loaded(s, was, now)
    ensures |was.workspaces| == |now.workspaces| == MAX_WORKSPACES
    ensures forall k :: 0 <= k < MAX_WORKSPACES ==> now.workspaces[k].owner == was.workspaces[k].owner
  {
    hide HeaderIn, ObjectsLoaded, EdgesLoaded, WorkspaceIn;
  }

  /** A restart: the tables come back but for the owners, and the next id is larger than every id in them. */
  method Restart(d: Daemon, allocator: Ids.Allocator, floor: Ids.Commit, next: Ids.Commit) returns (e: Daemon, r: Ids.Outcome)
    requires d.Valid() && allocator.up
    modifies d.storage, allocator
    ensures e.Valid() && Restored(d.Now(), e.Now())
    ensures r.Issued? ==> forall k :: 0 <= k < MAX_OBJECTS && d.objects[k].state != Free ==> d.objects[k].id.seqNo < r.seqNo
    ensures r.Issued? ==> forall k :: 0 <= k < MAX_WORKSPACES && InUse(WorkspaceCode(d.workspaces[k].state)) ==>
      d.workspaces[k].id.seqNo < r.seqNo
    ensures forall k :: 0 <= k < MAX_WORKSPACES ==> e.workspaces[k].owner == 0
    ensures forall k :: 0 <= k < MAX_WORKSPACES ==> (e.workspaces[k].owner == d.workspaces[k].owner <==> d.workspaces[k].owner == 0)
  {
    hide Saved, Loaded, Covered, Restored, HeaderIn;
    d.Save();
    e := new Daemon(allocator);
    ghost var blank := e.Now();
    e.Put(0, d.storage[..]);
    assert e.Bytes() == d.Bytes() by {
      assert e.storage[..] == e.storage[0..0 + |d.storage[..]|];
    }
    SavedHasHeader(d.Bytes(), d.Now());
    e.Load(floor);
    SaveThenLoad(e.Bytes(), d.Now(), blank, e.Now());
    CounterIsAhead(e.Bytes(), d.Now(), blank, e.Now(), allocator.current);
    LoadKeepsOwners(e.Bytes(), blank, e.Now());
    assert forall k :: 0 <= k < MAX_WORKSPACES ==> e.Now().workspaces[k] == e.workspaces[k] && blank.workspaces[k].owner == 0;
    r := allocator.Allocate(next);
  }

  lemma SavedHasHeader(s: Storage, t: Tables)
    requires Saved(s, t)
    ensures HeaderIn(s).Good?
  {
  }

  /**
   Corrupting up to four neighbouring data bytes of a saved registry leaves a header that loads, although its
   checksum exposes the change.
   */
  lemma CorruptionIsLoaded(s: Storage, t: Tables, i: nat, v: seq<Byte>)
    requires Saved(s, t) && HEADER_SIZE <= i && i + |v| <= END && |v| <= 4 && s[i..i + |v|] != v
    ensures var c := s[..i] + v + s[i + |v|..];
      && |c| == STORAGE_SIZE && HeaderIn(c) == HeaderIn(s) && HeaderIn(c).Good?
      && HeaderIn(c).header.checksum != Integrity.Crc32(c[HEADER_SIZE..END])
  {
    hide Integrity.Crc32, DecodeHeader, ObjectsSaved, WorkspacesSaved, EdgesSaved;
    var c := s[..i] + v + s[i + |v|..];
    var p, q := s[HEADER_SIZE..i], s[i + |v|..END];
    assert c[0..HEADER_SIZE] == s[0..HEADER_SIZE];
    assert s[HEADER_SIZE..END] == p + s[i..i + |v|] + q && c[HEADER_SIZE..END] == p + v + q;
    Integrity.BurstIsDetected(p, s[i..i + |v|], v, q);
  }

  /** In particular every corruption of one data byte. */
  lemma OneByteIsLoaded(s: Storage, t: Tables, i: nat, b: Byte)
    requires Saved(s, t) && HEADER_SIZE <= i < END && s[i] != b
    ensures HeaderIn(s[i := b]).Good? && HeaderIn(s[i := b]).header.checksum != Integrity.Crc32(s[i := b][HEADER_SIZE..END])
  {
    hide Saved, HeaderIn, Integrity.Crc32;
    assert s[i..i + 1] == [s[i]] && [s[i]][0] != [b][0];
    CorruptionIsLoaded(s, t, i, [b]);
    assert s[i := b] == s[..i] + [b] + s[i + 1..];
  }

  lemma RecordIsWritten(s: Storage, k: nat, r: Record)
    requires k < MAX_OBJECTS
    requires s[HEADER_SIZE + k * RECORD_SIZE..HEADER_SIZE + (k + 1) * RECORD_SIZE] == EncodeRecord(r)
    ensures RecordIn(s, k) == Canonical(r)
  {
    hide EncodeRecord, DecodeRecord, Canonical;
    RecordRoundTrip(r);
  }

  lemma WorkspaceIsWritten(s: Storage, k: nat, w: Workspace)
    requires k < MAX_WORKSPACES
    requires var at := WORKSPACES_AT + k * WORKSPACE_SIZE;
      && s[at..at + 16] == IdBytes(w.id) && s[at + 24..at + 28] == ToLe(w.generation, 4)
      && s[at + 28..at + 29] == [WorkspaceCode(w.state)] && s[at + 34..at + 36] == ToLe(w.members, 2)
    ensures WorkspaceIn(s, k) == ImageOf(w)
  {
    hide DecodeWorkspace, ImageOf, ToLe, IdBytes;
    var at := WORKSPACES_AT + k * WORKSPACE_SIZE;
    var b := s[at..at + WORKSPACE_SIZE];
    SubSlice(s, at, WORKSPACE_SIZE, 0, 16);
    SubSlice(s, at, WORKSPACE_SIZE, 24, 28);
    SubSlice(s, at, WORKSPACE_SIZE, 28, 29);
    SubSlice(s, at, WORKSPACE_SIZE, 34, 36);
    assert b[28..29] == [WorkspaceCode(w.state)];
    assert b[28] == b[28..29][0] == WorkspaceCode(w.state);
    WorkspaceReadsBack(b, w);
  }

  lemma ObjectsStaySaved(s: Storage, t: Storage, objects: seq<Record>)
    requires ObjectsSaved(s, objects) && Same(s, t, HEADER_SIZE, WORKSPACES_AT)
    ensures ObjectsSaved(t, objects)
  {
    hide RecordIn, Kept, Canonical;
    forall k | 0 <= k < |Kept(objects)| ensures RecordIn(t, k) == RecordIn(s, k) {
      SameRecord(s, t, k);
    }
  }

  lemma WorkspacesStaySaved(s: Storage, t: Storage, ws: seq<Workspace>)
    requires WorkspacesSaved(s, ws) && Same(s, t, WORKSPACES_AT, EDGES_AT)
    ensures WorkspacesSaved(t, ws)
  {
    hide WorkspaceIn;
    forall k | 0 <= k < |ws| && k < MAX_WORKSPACES ensures WorkspaceIn(t, k) == WorkspaceIn(s, k) {
      SameWorkspace(s, t, k);
    }
  }

  lemma EdgesStaySaved(s: Storage, t: Storage, es: seq<Edge>)
    requires EdgesSaved(s, es) && Same(s, t, EDGES_AT, END)
    ensures EdgesSaved(t, es)
  {
    hide EdgeIn;
    forall k | 0 <= k < |es| && k < MAX_EDGES ensures EdgeIn(t, k) == EdgeIn(s, k) {
      SameEdge(s, t, k);
    }
  }
}
