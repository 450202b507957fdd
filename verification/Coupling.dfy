/**
 Linear coupling constraints: A * C <= b, evaluated with saturating 64-bit arithmetic.
 */
module Coupling {
  import opened Common
  import opened Capacity

  const I64_MAX := 0x7FFF_FFFF_FFFF_FFFF
  const I64_MIN := -0x8000_0000_0000_0000
  const TWO_63 := 0x8000_0000_0000_0000
  const TWO_64 := 0x1_0000_0000_0000_0000

  datatype Row = Row(coefficients: seq<int>, limit: int)

  predicate ValidRow(r: Row) {
    && |r.coefficients| == DIMS && I64_MIN <= r.limit <= I64_MAX
    && forall i :: 0 <= i < DIMS ==> -0x8000_0000 <= r.coefficients[i] <= 0x7FFF_FFFF
  }

  predicate ValidMatrix(m: seq<Row>) {
    |m| <= DIMS && forall k :: 0 <= k < |m| ==> ValidRow(m[k])
  }

  function Clamp(x: int): int {
    if x > I64_MAX then I64_MAX else if x < I64_MIN then I64_MIN else x
  }

  /** The 64-bit pattern of an unsigned amount read as a signed number. */
  function AsSigned(x: nat): int {
    if x >= TWO_63 then x - TWO_64 else x
  }

  function SaturatingDot(r: Row, v: Vector, n: nat): int
    requires ValidRow(r) && n <= DIMS
  {
    if n == 0 then 0
    else Clamp(SaturatingDot(r, v, n - 1) + Clamp(r.coefficients[n - 1] * AsSigned(v.dims[n - 1])))
  }

  /** The exact inner product. */
  function Dot(r: Row, v: Vector, n: nat): int
    requires ValidRow(r) && n <= DIMS
  {
    if n == 0 then 0 else Dot(r, v, n - 1) + r.coefficients[n - 1] * v.dims[n - 1]
  }

  /** What the evaluator decides. */
  ghost predicate Passes(m: seq<Row>, v: Vector)
    requires ValidMatrix(m)
  {
    forall k :: 0 <= k < |m| ==> SaturatingDot(m[k], v, v.count) <= m[k].limit
  }

  /** What the constraint means. */
  ghost predicate Satisfies(m: seq<Row>, v: Vector)
    requires ValidMatrix(m)
  {
    forall k :: 0 <= k < |m| ==> Dot(m[k], v, DIMS) <= m[k].limit
  }

  method IsFeasible(m: seq<Row>, v: Vector) returns (ok: bool)
    requires ValidMatrix(m)
    ensures ok <==> Passes(m, v)
  {
    for k := 0 to |m|
      invariant forall j :: 0 <= j < k ==> SaturatingDot(m[j], v, v.count) <= m[j].limit
    {
      var sum := 0;
      for c := 0 to v.count
        invariant sum == SaturatingDot(m[k], v, c)
      {
        sum := Clamp(sum + Clamp(m[k].coefficients[c] * AsSigned(v.dims[c])));
      }
      if sum > m[k].limit {
        return false;
      }
    }
    return true;
  }

  // ---------------------------------------------------------------- when saturation is exact

  predicate NonNegative(r: Row)
    requires ValidRow(r)
  {
    forall i :: 0 <= i < DIMS ==> r.coefficients[i] >= 0
  }

  predicate Signed(v: Vector) {
    forall i :: 0 <= i < DIMS ==> v.dims[i] < TWO_63
  }

  /** With non-negative coefficients, saturation only ever cuts the sum off at the largest number. */
  lemma {:induction false} SaturatingIsCutOff(r: Row, v: Vector, n: nat)
    requires ValidRow(r) && NonNegative(r) && Signed(v) && n <= DIMS
    ensures 0 <= Dot(r, v, n)
    ensures SaturatingDot(r, v, n) == if Dot(r, v, n) <= I64_MAX then Dot(r, v, n) else I64_MAX
  {
    if n > 0 {
      SaturatingIsCutOff(r, v, n - 1);
      assert r.coefficients[n - 1] >= 0 && v.dims[n - 1] >= 0;
      assert r.coefficients[n - 1] * v.dims[n - 1] >= 0;
    }
  }

  /** Dimensions beyond the count contribute nothing. */
  lemma {:induction false} DotStopsAtCount(r: Row, v: Vector, n: nat)
    requires ValidRow(r) && v.count <= n <= DIMS
    ensures Dot(r, v, n) == Dot(r, v, v.count)
  {
    if n > v.count {
      DotStopsAtCount(r, v, n - 1);
    }
  }

  /** One row is decided correctly exactly when its limit is not the largest number or the true sum is in range. */
  lemma RowDecisionIsExact(r: Row, v: Vector)
    requires ValidRow(r) && NonNegative(r) && Signed(v)
    ensures (SaturatingDot(r, v, v.count) <= r.limit <==> Dot(r, v, DIMS) <= r.limit)
            <==> (r.limit < I64_MAX || Dot(r, v, DIMS) <= I64_MAX)
  {
    SaturatingIsCutOff(r, v, v.count);
    DotStopsAtCount(r, v, DIMS);
  }

  /** Matrices whose rows are non-negative with limits below the largest number. */
  predicate Monotone(m: seq<Row>)
    requires ValidMatrix(m)
  {
    forall k :: 0 <= k < |m| ==> NonNegative(m[k]) && m[k].limit < I64_MAX
  }

  lemma FeasibilityIsExact(m: seq<Row>, v: Vector)
    requires ValidMatrix(m) && Monotone(m) && Signed(v)
    ensures Passes(m, v) <==> Satisfies(m, v)
  {
    forall k | 0 <= k < |m| ensures SaturatingDot(m[k], v, v.count) <= m[k].limit <==> Dot(m[k], v, DIMS) <= m[k].limit {
      RowDecisionIsExact(m[k], v);
    }
  }

  /** A row whose limit is the largest number accepts any amount, here one whose true sum is beyond it. */
  lemma LargestLimitAcceptsAnything(r: Row, v: Vector)
    requires ValidRow(r) && r.limit == I64_MAX
    ensures SaturatingDot(r, v, v.count) <= r.limit
    ensures var s := Row([2, 0, 0, 0, 0, 0, 0, 0], I64_MAX);
      var w: Vector := RawVector([I64_MAX, 0, 0, 0, 0, 0, 0, 0], 1);
      && ValidRow(s) && NonNegative(s) && Signed(w)
      && SaturatingDot(s, w, w.count) <= s.limit && Dot(s, w, DIMS) > I64_MAX
  {
    var s := Row([2, 0, 0, 0, 0, 0, 0, 0], I64_MAX);
    var w: Vector := RawVector([I64_MAX, 0, 0, 0, 0, 0, 0, 0], 1);
    DotStopsAtCount(s, w, DIMS);
    assert Dot(s, w, 0) == 0 && Dot(s, w, 1) == 2 * I64_MAX;
  }

  /** An amount above 2^63 is read as negative and accepted, although the true sum is far above the limit. */
  lemma HugeAmountSlipsThrough()
    ensures var r := Row([1, 0, 0, 0, 0, 0, 0, 0], 10);
      var v: Vector := RawVector([U64_MAX, 0, 0, 0, 0, 0, 0, 0], 1);
      ValidRow(r) && SaturatingDot(r, v, v.count) <= r.limit && Dot(r, v, DIMS) > r.limit
  {
    var r := Row([1, 0, 0, 0, 0, 0, 0, 0], 10);
    var v: Vector := RawVector([U64_MAX, 0, 0, 0, 0, 0, 0, 0], 1);
    DotStopsAtCount(r, v, DIMS);
    assert SaturatingDot(r, v, 0) == 0 && SaturatingDot(r, v, 1) == -1;
  }

  /** The row that asks for nothing of dimension `i`. */
  function UnitRow(i: nat): (r: Row)
    requires i < DIMS
    ensures ValidRow(r) && NonNegative(r) && r.limit == 0
    ensures forall k :: 0 <= k < DIMS ==> r.coefficients[k] == if k == i then 1 else 0
  {
    Row(seq(DIMS, k => if k == i then 1 else 0), 0)
  }

  /** A unit row reads one amount and nothing else. */
  lemma {:induction false} UnitRowReadsOne(i: nat, v: Vector, n: nat)
    requires i < DIMS && n <= DIMS
    ensures Dot(UnitRow(i), v, n) == if i < n then v.dims[i] else 0
    ensures SaturatingDot(UnitRow(i), v, n) == if i < n then AsSigned(v.dims[i]) else 0
  {
    if n > 0 {
      UnitRowReadsOne(i, v, n - 1);
    }
  }

  /** The row is decided as the constraint means it. */
  ghost predicate ReadRight(r: Row, v: Vector)
    requires ValidRow(r)
  {
    SaturatingDot(r, v, v.count) <= r.limit <==> Dot(r, v, DIMS) <= r.limit
  }

  /** A row the exactness result is about: non-negative, with a limit from zero to below the largest number. */
  ghost predicate Ordinary(r: Row) {
    ValidRow(r) && NonNegative(r) && 0 <= r.limit < I64_MAX
  }

  /** Amounts are decided correctly by every ordinary row exactly when each of them is below 2^63. */
  lemma AmountsAreReadRightExactly(v: Vector)
    ensures (forall r: Row :: Ordinary(r) ==> ReadRight(r, v)) <==> Signed(v)
  {
    if Signed(v) {
      forall r: Row | Ordinary(r) ensures ReadRight(r, v) {
        RowDecisionIsExact(r, v);
      }
    } else {
      var i: nat :| i < DIMS && v.dims[i] >= TWO_63;
      UnitRowReadsOne(i, v, DIMS);
      UnitRowReadsOne(i, v, v.count);
      assert Ordinary(UnitRow(i)) && !ReadRight(UnitRow(i), v);
    }
  }

  lemma TermGrows(a: int, x: int, y: int)
    requires a >= 0 && x <= y
    ensures a * x <= a * y
  {
  }

  lemma {:induction false} DotIsMonotone(r: Row, v: Vector, w: Vector, n: nat)
    requires ValidRow(r) && NonNegative(r) && Below(v, w) && n <= DIMS
    ensures Dot(r, v, n) <= Dot(r, w, n)
  {
    if n > 0 {
      DotIsMonotone(r, v, w, n - 1);
      var a, x, y := r.coefficients[n - 1], v.dims[n - 1], w.dims[n - 1];
      TermGrows(a, x, y);
    }
  }

  /** Shrinking an allocation keeps the constraints satisfied. */
  lemma SatisfiesIsDownwardClosed(m: seq<Row>, v: Vector, w: Vector)
    requires ValidMatrix(m) && Monotone(m) && Below(v, w) && Satisfies(m, w)
    ensures Satisfies(m, v)
  {
    forall k | 0 <= k < |m| ensures Dot(m[k], v, DIMS) <= m[k].limit {
      DotIsMonotone(m[k], v, w, DIMS);
    }
  }
}
