/**
 Machine words as natural numbers: exclusive or, powers of two, and little-endian bytes.
 */
module Bits {

  type Byte = b: nat | b < 256

  function Pow2(k: nat): (r: nat)
    ensures r > 0
  {
    if k == 0 then 1 else 2 * Pow2(k - 1)
  }

  lemma {:induction false} Pow2Adds(j: nat, k: nat)
    ensures Pow2(j + k) == Pow2(j) * Pow2(k)
  {
    if j > 0 {
      Pow2Adds(j - 1, k);
      assert Pow2(j + k) == 2 * Pow2(j - 1 + k);
    }
  }

  lemma Pow2Doubles(k: nat)
    ensures Pow2(k + 1) == 2 * Pow2(k)
  {
  }

  lemma Pow2Sizes()
    ensures Pow2(8) == 0x100 && Pow2(31) == 0x8000_0000 && Pow2(32) == 0x1_0000_0000
    ensures Pow2(64) == 0x1_0000_0000_0000_0000
  {
    hide Pow2;
    Pow2OfEight();
    Pow2Adds(8, 8);
    Pow2Adds(16, 16);
    Pow2Adds(32, 32);
    Pow2Doubles(31);
  }

  lemma Pow2OfZero()
    ensures Pow2(0) == 1
  {
  }

  lemma Pow2OfEight()
    ensures Pow2(8) == 0x100
  {
  }

  /** Bitwise exclusive or. */
  function Xor(a: nat, b: nat): nat
    decreases a + b
  {
    if a == 0 && b == 0 then 0 else 2 * Xor(a / 2, b / 2) + if a % 2 == b % 2 then 0 else 1
  }

  lemma XorZeros()
    ensures Xor(0, 0) == 0
  {
  }

  lemma {:induction false} XorZero(a: nat)
    ensures Xor(a, 0) == a
  {
    if a > 0 {
      XorZero(a / 2);
    }
  }

  lemma {:induction false} XorCommutes(a: nat, b: nat)
    ensures Xor(a, b) == Xor(b, a)
    decreases a + b
  {
    if a > 0 || b > 0 {
      XorCommutes(a / 2, b / 2);
    }
  }

  lemma {:induction false} XorAssociates(a: nat, b: nat, c: nat)
    ensures Xor(Xor(a, b), c) == Xor(a, Xor(b, c))
    decreases a + b + c
  {
    hide Xor;
    XorZeros();
    if a > 0 || b > 0 || c > 0 {
      XorAssociates(a / 2, b / 2, c / 2);
      XorHalves(a, b);
      XorHalves(b, c);
      XorHalves(Xor(a, b), c);
      XorHalves(a, Xor(b, c));
    }
  }

  lemma XorHalves(a: nat, b: nat)
    ensures Xor(a, b) / 2 == Xor(a / 2, b / 2) && Xor(a, b) % 2 == if a % 2 == b % 2 then 0 else 1
  {
  }

  lemma {:induction false} XorSelf(a: nat)
    ensures Xor(a, a) == 0
  {
    if a > 0 {
      XorSelf(a / 2);
    }
  }

  /** Exclusive or with the same number undoes itself. */
  lemma XorCancels(a: nat, b: nat)
    ensures Xor(Xor(a, b), b) == a
  {
  }

  lemma {:induction false} XorStaysBelow(a: nat, b: nat, k: nat)
    requires a < Pow2(k) && b < Pow2(k)
    ensures Xor(a, b) < Pow2(k)
    decreases k
  {
    if k > 0 {
      XorStaysBelow(a / 2, b / 2, k - 1);
    }
  }

  /** A bit that only one operand has shows in the result. */
  lemma {:induction false} XorKeepsTopBit(a: nat, b: nat, k: nat)
    requires a < Pow2(k) <= b < Pow2(k + 1)
    ensures Pow2(k) <= Xor(a, b)
    decreases k
  {
    if k == 0 {
      assert Pow2(1) == 2 && a == 0 && b == 1;
      XorCommutes(a, b);
      XorZero(b);
    } else {
      assert Pow2(k + 1) == 2 * Pow2(k) && Pow2(k) == 2 * Pow2(k - 1);
      XorKeepsTopBit(a / 2, b / 2, k - 1);
    }
  }

  /** A top bit that both operands have is gone. */
  lemma {:induction false} XorDropsTopBit(a: nat, b: nat, k: nat)
    requires Pow2(k) <= a < Pow2(k + 1) && Pow2(k) <= b < Pow2(k + 1)
    ensures Xor(a, b) < Pow2(k)
    decreases k
  {
    Pow2Doubles(k);
    if k == 0 {
      assert a == b == 1;
      XorSelf(1);
    } else {
      Pow2Doubles(k - 1);
      XorDropsTopBit(a / 2, b / 2, k - 1);
      XorHalves(a, b);
    }
  }

  /** Numbers without a common bit are just added. */
  lemma {:induction false} XorOfParts(a: nat, t: nat, k: nat)
    requires a < Pow2(k)
    ensures Xor(a, Pow2(k) * t) == a + Pow2(k) * t
    decreases k
  {
    hide Xor, Pow2;
    if k == 0 {
      Pow2OfZero();
      XorCommutes(a, t);
      XorZero(t);
    } else {
      Pow2Doubles(k - 1);
      XorOfParts(a / 2, t, k - 1);
      XorOfEven(a, Pow2(k - 1) * t);
      assert Pow2(k) * t == 2 * (Pow2(k - 1) * t);
    }
  }

  lemma XorOfEven(a: nat, p: nat)
    ensures Xor(a, 2 * p) == 2 * Xor(a / 2, p) + a % 2
  {
  }

  // ---------------------------------------------------------------- little-endian bytes

  function ToLe(v: nat, n: nat): (b: seq<Byte>)
    ensures |b| == n
  {
    if n == 0 then [] else [v % 256] + ToLe(v / 256, n - 1)
  }

  function FromLe(b: seq<Byte>): nat {
    if b == [] then 0 else b[0] + 256 * FromLe(b[1..])
  }

  function Pow256(n: nat): nat {
    if n == 0 then 1 else 256 * Pow256(n - 1)
  }

  lemma {:induction false} LeRoundTrip(v: nat, n: nat)
    requires v < Pow256(n)
    ensures FromLe(ToLe(v, n)) == v
  {
    if n > 0 {
      LeRoundTrip(v / 256, n - 1);
      assert ToLe(v, n)[1..] == ToLe(v / 256, n - 1);
    }
  }

  lemma {:induction false} FromLeBound(b: seq<Byte>)
    ensures FromLe(b) < Pow256(|b|)
  {
    if b != [] {
      FromLeBound(b[1..]);
    }
  }

  lemma {:induction false} FromLeIsInjective(a: seq<Byte>, b: seq<Byte>)
    requires |a| == |b| && FromLe(a) == FromLe(b)
    ensures a == b
  {
    if a != [] {
      FromLeIsInjective(a[1..], b[1..]);
      assert a == [a[0]] + a[1..] && b == [b[0]] + b[1..];
    }
  }

  lemma {:induction false} Pow256Is(n: nat)
    ensures Pow256(n) == Pow2(8 * n)
  {
    if n > 0 {
      Pow256Is(n - 1);
      Pow2Adds(8, 8 * (n - 1));
      assert Pow2(8) == 256;
    }
  }

  /** One more byte at the end sits above all others. */
  lemma {:induction false} FromLeAppend(b: seq<Byte>, c: Byte)
    ensures FromLe(b + [c]) == FromLe(b) + Pow256(|b|) * c
  {
    if b == [] {
      assert (b + [c])[1..] == [];
    } else {
      FromLeAppend(b[1..], c);
      assert (b + [c])[1..] == b[1..] + [c];
    }
  }
}
