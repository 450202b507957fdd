/**
 Capacity vectors: up to eight dimensions of 64-bit amounts.

 Every vector the system builds is zero beyond its dimension count, and the type says so. On such vectors the
 checked operations are the pointwise ones on all eight dimensions.
 */
module Capacity {

  import opened Common

  const DIMS := 8

  datatype Error =
    | InvalidRequest
    | PermissionDenied
    | NotFound
    | ObjectTableFull
    | WouldBlock
    | GenerationMismatch
    | UnsupportedResourceShape
    | DimensionLimitExceeded
    | VectorConservationViolated
    | CouplingViolation
    | DeadlineExhaustion
    | QuotaExceeded

  datatype Result<+T> = Ok(value: T) | Err(error: Error)

  datatype DistributedId = DistributedId(node: nat, seqNo: nat)

  datatype RawVector = RawVector(dims: seq<nat>, count: nat)

  predicate WellFormed(v: RawVector) {
    && |v.dims| == DIMS && v.count <= DIMS
    && (forall i :: 0 <= i < DIMS ==> v.dims[i] <= U64_MAX)
    && (forall i :: v.count <= i < DIMS ==> v.dims[i] == 0)
  }

  const ZERO_DIMS: seq<nat> := [0, 0, 0, 0, 0, 0, 0, 0]

  /** Any vector a caller can hand in: eight words and a count byte, with no relation between them. */
  type AnyVector = v: RawVector | |v.dims| == DIMS && v.count <= 255 && (forall i :: 0 <= i < DIMS ==> v.dims[i] <= U64_MAX)
    witness RawVector([0, 0, 0, 0, 0, 0, 0, 0], 0)

  type Vector = v: RawVector | WellFormed(v) witness RawVector([0, 0, 0, 0, 0, 0, 0, 0], 0)

  const EMPTY: Vector := RawVector(ZERO_DIMS, 0)

  function Max(a: nat, b: nat): nat {
    if a > b then a else b
  }

  // ---------------------------------------------------------------- pointwise meaning

  /** Whether every pairwise sum is a 64-bit number. */
  ghost predicate Fits(a: Vector, b: Vector) {
    forall i :: 0 <= i < DIMS ==> a.dims[i] + b.dims[i] <= U64_MAX
  }

  ghost predicate Below(a: Vector, b: Vector) {
    forall i :: 0 <= i < DIMS ==> a.dims[i] <= b.dims[i]
  }

  function Plus(a: Vector, b: Vector): Vector
    requires Fits(a, b)
  {
    RawVector(seq(DIMS, i requires 0 <= i < DIMS => a.dims[i] + b.dims[i]), Max(a.count, b.count))
  }

  function Minus(a: Vector, b: Vector): Vector
    requires Below(b, a)
  {
    RawVector(seq(DIMS, i requires 0 <= i < DIMS => a.dims[i] - b.dims[i]), Max(a.count, b.count))
  }

  // ---------------------------------------------------------------- the checked operations

  /** The sum over the larger count, or which of the two limits refused it; on well-formed vectors, the pointwise sum. */
  method CheckedAdd(a: AnyVector, b: AnyVector) returns (r: Result<Vector>)
    ensures r == Err(UnsupportedResourceShape) <==> Max(a.count, b.count) > DIMS
    ensures r.Ok? <==>
      Max(a.count, b.count) <= DIMS && forall i :: 0 <= i < Max(a.count, b.count) ==> a.dims[i] + b.dims[i] <= U64_MAX
    ensures r.Ok? ==>
      r.value.count == Max(a.count, b.count) && forall i :: 0 <= i < r.value.count ==> r.value.dims[i] == a.dims[i] + b.dims[i]
    ensures r.Err? ==> r.error == UnsupportedResourceShape || r.error == DeadlineExhaustion
    ensures WellFormed(a) && WellFormed(b) ==> (r.Ok? <==> Fits(a, b)) && (r.Ok? ==> r.value == Plus(a, b))
  {
    var count := Max(a.count, b.count);
    if count > DIMS {
      return Err(UnsupportedResourceShape);
    }
    var dims := ZERO_DIMS;
    for i := 0 to count
      invariant |dims| == DIMS
      invariant forall j :: 0 <= j < i ==> dims[j] == a.dims[j] + b.dims[j] && dims[j] <= U64_MAX
      invariant forall j :: i <= j < DIMS ==> dims[j] == 0
    {
      if a.dims[i] + b.dims[i] > U64_MAX {
        return Err(DeadlineExhaustion);
      }
      dims := dims[i := a.dims[i] + b.dims[i]];
    }
    assert WellFormed(a) && WellFormed(b) ==> dims == Plus(a, b).dims;
    return Ok(RawVector(dims, count));
  }

  /** The difference over the larger count, or which of the two limits refused it. */
  method CheckedSub(a: AnyVector, b: AnyVector) returns (r: Result<Vector>)
    ensures r == Err(UnsupportedResourceShape) <==> Max(a.count, b.count) > DIMS
    ensures r.Ok? <==> Max(a.count, b.count) <= DIMS && forall i :: 0 <= i < Max(a.count, b.count) ==> b.dims[i] <= a.dims[i]
    ensures r.Ok? ==>
      r.value.count == Max(a.count, b.count) && forall i :: 0 <= i < r.value.count ==> r.value.dims[i] == a.dims[i] - b.dims[i]
    ensures r.Err? ==> r.error == UnsupportedResourceShape || r.error == VectorConservationViolated
    ensures WellFormed(a) && WellFormed(b) ==> (r.Ok? <==> Below(b, a)) && (r.Ok? ==> r.value == Minus(a, b))
  {
    var count := Max(a.count, b.count);
    if count > DIMS {
      return Err(UnsupportedResourceShape);
    }
    var dims := ZERO_DIMS;
    for i := 0 to count
      invariant |dims| == DIMS
      invariant forall j :: 0 <= j < i ==> b.dims[j] <= a.dims[j] && dims[j] == a.dims[j] - b.dims[j]
      invariant forall j :: i <= j < DIMS ==> dims[j] == 0
    {
      if a.dims[i] < b.dims[i] {
        return Err(VectorConservationViolated);
      }
      dims := dims[i := a.dims[i] - b.dims[i]];
    }
    assert WellFormed(a) && WellFormed(b) ==> dims == Minus(a, b).dims;
    return Ok(RawVector(dims, count));
  }

  /** Compares up to the larger count; an index beyond eight would stop the program. */
  method LessOrEqual(a: AnyVector, b: AnyVector) returns (r: bool)
    requires Max(a.count, b.count) <= DIMS
    ensures r <==> forall i :: 0 <= i < Max(a.count, b.count) ==> a.dims[i] <= b.dims[i]
    ensures WellFormed(a) && WellFormed(b) ==> (r <==> Below(a, b))
  {
    var count := Max(a.count, b.count);
    for i := 0 to count
      invariant forall j :: 0 <= j < i ==> a.dims[j] <= b.dims[j]
    {
      if a.dims[i] > b.dims[i] {
        return false;
      }
    }
    return true;
  }
}
