/**
 The layout of the durable object registry: header, object records, workspaces and membership
 edges as little-endian bytes.
 */
module RegistryFormat {

  import opened Bits

  type U16 = v: nat | v < 0x1_0000
  type U32 = v: nat | v < 0x1_0000_0000
  type U64 = v: nat | v < 0x1_0000_0000_0000_0000

  const NAME_SIZE := 128
  const HEADER_SIZE := 64
  const RECORD_SIZE := 160
  const WORKSPACE_SIZE := 1024
  const EDGE_SIZE := 48
  const VERSION := 1
  const MAGIC: seq<Byte> := [0x5A, 0x45, 0x52, 0x4F, 0x5F, 0x52, 0x45, 0x47]

  datatype Id = Id(node: U64, seqNo: U64)

  datatype ObjectState = Free | Live | Tombstoned

  type Name = s: seq<Byte> | |s| == NAME_SIZE witness Zeros(NAME_SIZE)

  datatype Record = Record(id: Id, device: U32, inode: U32, state: ObjectState, nameLen: Byte, name: Name)

  datatype WorkspaceState =
    | Unallocated | Creating | Initializing | Active | Suspending | Suspended
    | Resuming | Archived | Closing | Reclaiming | Reclaimed | Destroyed

  datatype Workspace = Workspace(id: Id, owner: U64, generation: U32, state: WorkspaceState, members: U16)

  datatype EdgeState = NoEdge | LiveEdge | StaleEdge

  datatype Edge = Edge(workspace: Id, obj: Id, state: EdgeState)

  datatype Header = Header(magic: seq<Byte>, version: U32, count: U32, size: U32, checksum: U32)

  datatype HeaderResult = Good(header: Header) | InvalidRequest | GenerationMismatch

  function Zeros(n: nat): (z: seq<Byte>)
    ensures |z| == n && forall i :: 0 <= i < n ==> z[i] == 0
  {
    seq(n, _ => 0)
  }

  // ---------------------------------------------------------------- words

  function ReadU16(b: seq<Byte>): (v: U16)
    requires |b| == 2
  {
    FromLeBound(b);
    FromLe(b)
  }

  function ReadU32(b: seq<Byte>): (v: U32)
    requires |b| == 4
  {
    FromLeBound(b);
    FromLe(b)
  }

  function ReadU64(b: seq<Byte>): (v: U64)
    requires |b| == 8
  {
    FromLeBound(b);
    FromLe(b)
  }

  lemma ReadBack16(v: U16)
    ensures ReadU16(ToLe(v, 2)) == v
  {
    LeRoundTrip(v, 2);
  }

  lemma ReadBack32(v: U32)
    ensures ReadU32(ToLe(v, 4)) == v
  {
    LeRoundTrip(v, 4);
  }

  lemma ReadBack64(v: U64)
    ensures ReadU64(ToLe(v, 8)) == v
  {
    LeRoundTrip(v, 8);
  }

  function ReadId(b: seq<Byte>): Id
    requires |b| == 16
  {
    Id(ReadU64(b[..8]), ReadU64(b[8..]))
  }

  function IdBytes(id: Id): (b: seq<Byte>)
    ensures |b| == 16
  {
    ToLe(id.node, 8) + ToLe(id.seqNo, 8)
  }

  lemma ReadBackId(id: Id)
    ensures ReadId(IdBytes(id)) == id
  {
    hide ReadU64;
    var b := IdBytes(id);
    assert b[..8] == ToLe(id.node, 8) && b[8..] == ToLe(id.seqNo, 8);
    ReadBack64(id.node);
    ReadBack64(id.seqNo);
  }

  // ---------------------------------------------------------------- header

  function EncodeHeader(h: Header): (b: seq<Byte>)
    requires |h.magic| == 8
    ensures |b| == HEADER_SIZE
  {
    h.magic + ToLe(h.version, 4) + ToLe(h.count, 4) + ToLe(h.size, 4) + ToLe(h.checksum, 4) + Zeros(40)
  }

  function DecodeHeader(b: seq<Byte>): HeaderResult
    requires |b| == HEADER_SIZE
  {
    if b[0..8] != MAGIC then InvalidRequest
    else if ReadU32(b[8..12]) != VERSION then GenerationMismatch
    else if ReadU32(b[16..20]) != RECORD_SIZE then InvalidRequest
    else Good(Header(MAGIC, ReadU32(b[8..12]), ReadU32(b[12..16]), ReadU32(b[16..20]), ReadU32(b[20..24])))
  }

  /** A header comes back exactly when it carries the right magic, version and record size. */
  lemma HeaderRoundTrip(h: Header)
    requires |h.magic| == 8
    ensures DecodeHeader(EncodeHeader(h)) == Good(h) <==> h.magic == MAGIC && h.version == VERSION && h.size == RECORD_SIZE
  {
    hide ReadU32;
    var b := EncodeHeader(h);
    assert b[0..8] == h.magic && b[8..12] == ToLe(h.version, 4) && b[12..16] == ToLe(h.count, 4);
    assert b[16..20] == ToLe(h.size, 4) && b[20..24] == ToLe(h.checksum, 4);
    ReadBack32(h.version);
    ReadBack32(h.count);
    ReadBack32(h.size);
    ReadBack32(h.checksum);
  }

  // ---------------------------------------------------------------- object records

  function ObjectCode(s: ObjectState): Byte {
    match s case Free => 0 case Live => 1 case Tombstoned => 2
  }

  function ObjectStateOf(code: Byte): ObjectState {
    if code == 1 then Live else if code == 2 then Tombstoned else Free
  }

  function UsedName(nameLen: Byte): (n: nat)
    ensures n <= NAME_SIZE
  {
    if nameLen < NAME_SIZE then nameLen else NAME_SIZE
  }

  function EncodeRecord(r: Record): (b: seq<Byte>)
    ensures |b| == RECORD_SIZE
  {
    var n := UsedName(r.nameLen);
    IdBytes(r.id) + ToLe(r.device, 4) + ToLe(r.inode, 4) + [ObjectCode(r.state), r.nameLen, 0, 0]
    + r.name[..n] + Zeros(NAME_SIZE - n) + Zeros(4)
  }

  function DecodeRecord(b: seq<Byte>): Record
    requires |b| == RECORD_SIZE
  {
    var n := UsedName(b[25]);
    Record(ReadId(b[0..16]), ReadU32(b[16..20]), ReadU32(b[20..24]), ObjectStateOf(b[24]), b[25],
           b[28..28 + n] + Zeros(NAME_SIZE - n))
  }

  /** The record with whatever followed its name cleared. */
  function Canonical(r: Record): Record {
    var n := UsedName(r.nameLen);
    r.(name := r.name[..n] + Zeros(NAME_SIZE - n))
  }

  /** A record comes back with the bytes behind its name cleared. */
  lemma RecordRoundTrip(r: Record)
    ensures DecodeRecord(EncodeRecord(r)) == Canonical(r)
  {
    hide ReadU32, ReadId, ToLe;
    var b := EncodeRecord(r);
    var n := UsedName(r.nameLen);
    assert b[0..16] == IdBytes(r.id) && b[16..20] == ToLe(r.device, 4) && b[20..24] == ToLe(r.inode, 4);
    assert b[24] == ObjectCode(r.state) && b[25] == r.nameLen && b[28..28 + n] == r.name[..n];
    ReadBackId(r.id);
    ReadBack32(r.device);
    ReadBack32(r.inode);
  }

  /** It comes back unchanged exactly when those bytes were zero before. */
  lemma CanonicalExactly(r: Record)
    ensures Canonical(r) == r <==> forall i :: UsedName(r.nameLen) <= i < NAME_SIZE ==> r.name[i] == 0
  {
  }

  // ---------------------------------------------------------------- workspaces

  function WorkspaceCode(s: WorkspaceState): Byte {
    match s
    case Unallocated => 0 case Creating => 1 case Initializing => 2 case Active => 3
    case Suspending => 4 case Suspended => 5 case Resuming => 6 case Archived => 7
    case Closing => 8 case Reclaiming => 9 case Reclaimed => 10 case Destroyed => 11
  }

  /** A stored state counts as a workspace unless it is unallocated, reclaimed or destroyed. */
  predicate InUse(code: Byte) {
    code != 0 && code != 10 && code != 11
  }

  function RestoredState(code: Byte): WorkspaceState {
    if code == 5 then Suspended else if code == 7 then Archived else Active
  }

  /** The workspace states that survive a restart. */
  lemma StateSurvivesExactly(s: WorkspaceState)
    requires InUse(WorkspaceCode(s))
    ensures RestoredState(WorkspaceCode(s)) == s <==> s == Active || s == Suspended || s == Archived
  {
  }

  /** What a restart reads of a stored workspace. */
  datatype WorkspaceImage = WorkspaceImage(id: Id, generation: U32, code: Byte, members: U16)

  function DecodeWorkspace(b: seq<Byte>): WorkspaceImage
    requires |b| == WORKSPACE_SIZE
  {
    WorkspaceImage(ReadId(b[0..16]), ReadU32(b[24..28]), b[28], ReadU16(b[34..36]))
  }

  function ImageOf(w: Workspace): WorkspaceImage {
    WorkspaceImage(w.id, w.generation, WorkspaceCode(w.state), w.members)
  }

  /** Only these bytes of a workspace's kilobyte are read back. */
  lemma WorkspaceReadsBack(b: seq<Byte>, w: Workspace)
    requires |b| == WORKSPACE_SIZE && b[0..16] == IdBytes(w.id) && b[24..28] == ToLe(w.generation, 4)
    requires b[28] == WorkspaceCode(w.state) && b[34..36] == ToLe(w.members, 2)
    ensures DecodeWorkspace(b) == ImageOf(w)
  {
    hide ReadU32, ReadU16, ReadId;
    ReadBackId(w.id);
    ReadBack32(w.generation);
    ReadBack16(w.members);
  }

  // ---------------------------------------------------------------- membership edges

  function EdgeCode(s: EdgeState): Byte {
    match s case NoEdge => 0 case LiveEdge => 1 case StaleEdge => 2
  }

  datatype EdgeImage = EdgeImage(workspace: Id, obj: Id, code: Byte)

  function DecodeEdge(b: seq<Byte>): EdgeImage
    requires |b| == EDGE_SIZE
  {
    EdgeImage(ReadId(b[0..16]), ReadId(b[16..32]), b[32])
  }

  function ImageOfEdge(e: Edge): EdgeImage {
    EdgeImage(e.workspace, e.obj, EdgeCode(e.state))
  }

  lemma EdgeReadsBack(b: seq<Byte>, e: Edge)
    requires |b| == EDGE_SIZE && b[0..16] == IdBytes(e.workspace) && b[16..32] == IdBytes(e.obj)
    requires b[32] == EdgeCode(e.state)
    ensures DecodeEdge(b) == ImageOfEdge(e)
  {
    hide ReadId;
    ReadBackId(e.workspace);
    ReadBackId(e.obj);
  }
}
