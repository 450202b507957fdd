/**
 Value types of the capability subsystem: handle entries, derivation-tree nodes, object slots.

 A table position (process slot, handle slot) is written as one number, process * 32 + handle.
 The two link bytes of a node are always stored together, so a link is one number too: a table
 position, or NIL for the pair (0xFF, 0xFF).
 */
module CapTypes {

  const MAX_PROCESSES := 16
  const MAX_HANDLES := 32
  const NODES := 512
  const MAX_OBJECTS := 256
  const MAX_DEPTH := 8
  const U16_MAX := 0xFFFF
  const NIL := -1

  type Slot = s: int | 0 <= s < NODES
  type Link = l: int | NIL <= l < NODES witness NIL
  type Proc = p: int | 0 <= p < MAX_PROCESSES
  type Gen = g: int | 0 <= g <= U16_MAX

  const CAP_DUPLICATE: bv16 := 0x0100
  const CAP_TRANSFER: bv16 := 0x0200
  const CAP_REVOKE: bv16 := 0x0400
  const IPC_TRANSFER: bv16 := 0x0010
  const IPC_DUPLICATE: bv16 := 0x0020

  datatype Entry = Entry(obj: int, gen: Gen, objGen: int, rights: bv16, endpoint: int, occupied: bool)

  datatype Node = Node(id: nat, parent: Link, parentGen: Gen, depth: nat, revoked: bool, flags: int,
                       firstChild: Link, nextSibling: Link)

  /** `pins` stands for everything but handles that keeps an object alive: mappings, in-flight operations, waiters. */
  datatype ObjectSlot = ObjectSlot(occupied: bool, gen: Gen, handleRefs: nat, pins: nat)

  const EMPTY_NODE := Node(0, NIL, 0, 0, false, 0, NIL, NIL)
  const EMPTY_ENTRY := Entry(0, 1, 0, 0, 0, false)
  const EMPTY_OBJECT := ObjectSlot(false, 1, 0, 0)

  datatype Error =
    | InvalidHandle
    | BadHandleGeneration
    | PermissionDenied
    | HandleTableFull
    | ObjectTableFull
    | CapabilityRevoked
    | RightsAmplificationRejected
    | MaxDerivationDepthExceeded
    | CapabilityNotTransferable
    | CapabilityNotDuplicable
    | CapabilityIdExhausted
    | InvalidCapability

  datatype Result<+T> = Ok(value: T) | Err(error: Error)

  datatype Refusal = Admit | Refuse(error: Error)

  /** Generations wrap at 16 bits and skip zero. */
  function NextGen(g: Gen): (r: Gen)
    ensures r != g && r != 0
  {
    if g == U16_MAX then 1 else g + 1
  }

  predicate MayDuplicate(rights: bv16) {
    rights & (CAP_DUPLICATE | IPC_DUPLICATE) != 0
  }

  predicate MayTransfer(rights: bv16) {
    rights & (CAP_TRANSFER | IPC_TRANSFER) != 0
  }

  predicate RightsSubset(child: bv16, parent: bv16) {
    child & !parent == 0
  }

  lemma RightsSubsetTransitive(a: bv16, b: bv16, c: bv16)
    requires RightsSubset(a, b) && RightsSubset(b, c)
    ensures RightsSubset(a, c)
  {
  }

  function ProcOf(s: Slot): Proc {
    s / MAX_HANDLES
  }

  function SlotAt(p: Proc, h: int): (s: Slot)
    requires 0 <= h < MAX_HANDLES
    ensures ProcOf(s) == p && s - MAX_HANDLES * p == h
  {
    p * MAX_HANDLES + h
  }
}
