/**
 The two integrity values: the CRC-32 of stored registries (clause 3.2.9 of IEEE 802.3) and the
 multiplicative hash of checkpoint payloads.
 */
module Integrity {

  import opened Bits

  const TWO_32 := 0x1_0000_0000
  const TWO_64 := 0x1_0000_0000_0000_0000
  const POLYNOMIAL := 0xEDB8_8320
  const ONES := 0xFFFF_FFFF

  // ---------------------------------------------------------------- CRC-32

  /** What the bit shifted out subtracts. */
  function Divisor(x: nat): nat {
    if x % 2 == 1 then POLYNOMIAL else 0
  }

  /** One bit of the division. */
  function Round(x: nat): nat {
    Xor(x / 2, Divisor(x))
  }

  function Rounds(x: nat, k: nat): nat
    decreases k
  {
    if k == 0 then x else Rounds(Round(x), k - 1)
  }

  function CrcStep(crc: nat, b: Byte): nat {
    Rounds(Xor(crc, b), 8)
  }

  function CrcFrom(crc: nat, bytes: seq<Byte>): nat {
    if bytes == [] then crc else CrcStep(CrcFrom(crc, bytes[..|bytes| - 1]), bytes[|bytes| - 1])
  }

  /** The complement of a 32-bit number. */
  function Crc32(bytes: seq<Byte>): int {
    ONES - CrcFrom(ONES, bytes)
  }

  lemma {:induction false} RoundsAdd(x: nat, j: nat, k: nat)
    ensures Rounds(Rounds(x, j), k) == Rounds(x, j + k)
    decreases j
  {
    hide Round;
    if j > 0 {
      RoundsAdd(Round(x), j - 1, k);
    }
  }

  /** The checksum, bit by bit. */
  method CalculateCrc32(bytes: seq<Byte>) returns (r: int)
    ensures r == Crc32(bytes)
  {
    hide Rounds, Xor;
    var crc := ONES;
    for i := 0 to |bytes|
      invariant crc >= 0 && crc == CrcFrom(ONES, bytes[..i])
    {
      crc := Divide(crc, bytes[i]);
      assert bytes[..i + 1][..i] == bytes[..i];
    }
    assert bytes[..|bytes|] == bytes;
    return ONES - crc;
  }

  method Divide(start: nat, b: Byte) returns (crc: nat)
    ensures crc == CrcStep(start, b)
  {
    hide Xor;
    crc := Xor(start, b);
    ghost var x := crc;
    for k := 0 to 8
      invariant Rounds(crc, 8 - k) == Rounds(x, 8)
    {
      crc := Xor(crc / 2, if crc % 2 == 1 then POLYNOMIAL else 0);
    }
  }

  /** Everything stays a 32-bit number. */
  lemma RoundStaysBelow(x: nat)
    requires x < TWO_32
    ensures Round(x) < TWO_32
  {
    Pow2Sizes();
    XorStaysBelow(x / 2, Divisor(x), 32);
  }

  /** A round can be undone: the top bit of its result tells the bit that was shifted out. */
  lemma RoundIsInjective(x: nat, y: nat)
    requires x < TWO_32 && y < TWO_32 && Round(x) == Round(y)
    ensures x == y
  {
    hide Xor;
    Pow2Sizes();
    TopBitTells(x);
    TopBitTells(y);
    XorCancels(x / 2, Divisor(x));
    XorCancels(y / 2, Divisor(y));
  }

  /** What a round makes of this number is `y`. */
  function Unround(y: nat): nat {
    if y >= 0x8000_0000 then 2 * Xor(y, POLYNOMIAL) + 1 else 2 * y
  }

  /** So a round is a bijection on 32-bit numbers. */
  lemma RoundIsOnto(y: nat)
    requires y < TWO_32
    ensures Unround(y) < TWO_32 && Round(Unround(y)) == y
  {
    hide Xor;
    Pow2Sizes();
    if y >= 0x8000_0000 {
      XorDropsTopBit(y, POLYNOMIAL, 31);
      XorCancels(y, POLYNOMIAL);
    } else {
      XorZero(y);
    }
  }

  lemma TopBitTells(x: nat)
    requires x < TWO_32
    ensures x % 2 == 1 <==> Round(x) >= 0x8000_0000
  {
    hide Xor;
    Pow2Sizes();
    if x % 2 == 1 {
      XorKeepsTopBit(x / 2, POLYNOMIAL, 31);
    } else {
      XorZero(x / 2);
    }
  }

  lemma {:induction false} RoundsAreInjective(x: nat, y: nat, k: nat)
    requires x < TWO_32 && y < TWO_32 && Rounds(x, k) == Rounds(y, k)
    ensures x == y
    decreases k
  {
    hide Round;
    if k > 0 {
      RoundStaysBelow(x);
      RoundStaysBelow(y);
      RoundsAreInjective(Round(x), Round(y), k - 1);
      RoundIsInjective(x, y);
    }
  }

  lemma {:induction false} RoundsStayBelow(x: nat, k: nat)
    requires x < TWO_32
    ensures Rounds(x, k) < TWO_32
    decreases k
  {
    hide Round;
    if k > 0 {
      RoundStaysBelow(x);
      RoundsStayBelow(Round(x), k - 1);
    }
  }

  /** Bits above the one shifted out pass through a round. */
  lemma RoundPasses(x: nat, z: nat)
    ensures Round(Xor(x, 2 * z)) == Xor(Round(x), z)
  {
    hide Xor;
    var d := Divisor(x);
    XorHalves(x, 2 * z);
    XorAssociates(x / 2, z, d);
    XorCommutes(z, d);
    XorAssociates(x / 2, d, z);
  }

  lemma {:induction false} RoundsPass(x: nat, z: nat, k: nat)
    ensures Rounds(Xor(x, Pow2(k) * z), k) == Xor(Rounds(x, k), z)
    decreases k
  {
    hide Round, Xor;
    if k > 0 {
      var y := Pow2(k - 1) * z;
      assert Pow2(k) * z == 2 * y;
      RoundPasses(x, y);
      RoundsPass(Round(x), z, k - 1);
    }
  }

  /** The checksum of a string is one long division of the number it spells. */
  lemma {:induction false} CrcIsDivision(crc: nat, w: seq<Byte>)
    ensures CrcFrom(crc, w) == Rounds(Xor(crc, FromLe(w)), 8 * |w|)
    decreases |w|
  {
    hide Rounds, Xor, FromLe, Pow2, Pow256;
    if w == [] {
      EmptyDivision(crc);
    } else {
      var n := |w| - 1;
      var u, c := w[..n], w[n];
      assert w == u + [c];
      CrcIsDivision(crc, u);
      FromLeAppend(u, c);
      FromLeBound(u);
      Pow256Is(n);
      XorOfParts(FromLe(u), c, 8 * n);
      XorAssociates(crc, FromLe(u), Pow2(8 * n) * c);
      RoundsPass(Xor(crc, FromLe(u)), c, 8 * n);
      RoundsAdd(Xor(crc, FromLe(w)), 8 * n, 8);
    }
  }

  lemma EmptyDivision(crc: nat)
    ensures Rounds(Xor(crc, FromLe([])), 0) == crc
  {
  }

  lemma {:induction false} CrcOfParts(crc: nat, a: seq<Byte>, b: seq<Byte>)
    ensures CrcFrom(crc, a + b) == CrcFrom(CrcFrom(crc, a), b)
    decreases |b|
  {
    hide CrcStep;
    if b == [] {
      assert a + b == a;
    } else {
      var n := |b| - 1;
      assert (a + b)[..|a + b| - 1] == a + b[..n];
      CrcOfParts(crc, a, b[..n]);
    }
  }

  lemma {:induction false} CrcStaysBelow(crc: nat, bytes: seq<Byte>)
    requires crc < TWO_32
    ensures CrcFrom(crc, bytes) < TWO_32
    decreases |bytes|
  {
    hide Rounds, Xor;
    if bytes != [] {
      var n := |bytes| - 1;
      CrcStaysBelow(crc, bytes[..n]);
      Pow2Sizes();
      XorStaysBelow(CrcFrom(crc, bytes[..n]), bytes[n], 32);
      RoundsStayBelow(Xor(CrcFrom(crc, bytes[..n]), bytes[n]), 8);
    }
  }

  lemma CrcIsAWord(bytes: seq<Byte>)
    ensures 0 <= Crc32(bytes) < TWO_32
  {
    hide CrcFrom;
    CrcStaysBelow(ONES, bytes);
  }

  /** Equal bytes keep different states different. */
  lemma {:induction false} CrcIsInjective(c: nat, d: nat, bytes: seq<Byte>)
    requires c < TWO_32 && d < TWO_32 && CrcFrom(c, bytes) == CrcFrom(d, bytes)
    ensures c == d
    decreases |bytes|
  {
    hide Rounds, Xor;
    if bytes != [] {
      var n := |bytes| - 1;
      var x, y, b := CrcFrom(c, bytes[..n]), CrcFrom(d, bytes[..n]), bytes[n];
      CrcStaysBelow(c, bytes[..n]);
      CrcStaysBelow(d, bytes[..n]);
      Pow2Sizes();
      XorStaysBelow(x, b, 32);
      XorStaysBelow(y, b, 32);
      RoundsAreInjective(Xor(x, b), Xor(y, b), 8);
      XorCancels(x, b);
      XorCancels(y, b);
      CrcIsInjective(c, d, bytes[..n]);
    }
  }

  /** Up to four bytes decide the state and are decided by it. */
  lemma WordIsSeen(c: nat, w: seq<Byte>, v: seq<Byte>)
    requires c < TWO_32 && |w| == |v| <= 4 && CrcFrom(c, w) == CrcFrom(c, v)
    ensures w == v
  {
    hide Rounds, Xor, CrcFrom, FromLe;
    CrcIsDivision(c, w);
    CrcIsDivision(c, v);
    ShortWordFits(w);
    ShortWordFits(v);
    Pow2Sizes();
    XorStaysBelow(c, FromLe(w), 32);
    XorStaysBelow(c, FromLe(v), 32);
    RoundsAreInjective(Xor(c, FromLe(w)), Xor(c, FromLe(v)), 8 * |w|);
    XorCommutes(c, FromLe(w));
    XorCommutes(c, FromLe(v));
    XorCancels(FromLe(w), c);
    XorCancels(FromLe(v), c);
    FromLeIsInjective(w, v);
  }

  lemma ShortWordFits(w: seq<Byte>)
    requires |w| <= 4
    ensures FromLe(w) < TWO_32
  {
    FromLeBound(w);
    assert Pow256(0) == 1 && Pow256(1) == 0x100 && Pow256(2) == 0x1_0000 && Pow256(3) == 0x100_0000 && Pow256(4) == TWO_32;
  }

  /** The checksum changes with any change inside a window of four bytes. */
  lemma BurstIsDetected(p: seq<Byte>, w: seq<Byte>, v: seq<Byte>, s: seq<Byte>)
    requires |w| == |v| <= 4 && w != v
    ensures Crc32(p + w + s) != Crc32(p + v + s)
  {
    hide CrcFrom;
    var c := CrcFrom(ONES, p);
    CrcOfParts(ONES, p + w, s);
    CrcOfParts(ONES, p + v, s);
    CrcOfParts(ONES, p, w);
    CrcOfParts(ONES, p, v);
    CrcStaysBelow(ONES, p);
    CrcStaysBelow(c, w);
    CrcStaysBelow(c, v);
    if Crc32(p + w + s) == Crc32(p + v + s) {
      CrcIsInjective(CrcFrom(c, w), CrcFrom(c, v), s);
      WordIsSeen(c, w, v);
    }
  }

  /** In particular with a change of one byte. */
  lemma CrcSeesOneByte(a: seq<Byte>, i: nat, b: Byte)
    requires i < |a| && a[i] != b
    ensures Crc32(a) != Crc32(a[i := b])
  {
    hide Crc32;
    var p, s := a[..i], a[i + 1..];
    assert a == p + [a[i]] + s && a[i := b] == p + [b] + s;
    assert [a[i]][0] != [b][0];
    BurstIsDetected(p, [a[i]], [b], s);
  }

  // ---------------------------------------------------------------- checkpoint hash

  const HASH_START := 0xcbf2_9ce4_8422_2325
  const MULTIPLIER := 0x100_0000_01b3
  const INVERSE := 0xce96_5057_aff6_957b
  /** MULTIPLIER * INVERSE is this many times 2^64, plus one. */
  const COFACTOR := 0xce_9650_590f
  const SIGNATURE_MASK := 0xA5A5_A5A5_A5A5_A5A5

  /** Wrapping multiplication. */
  function Times(x: nat): (r: nat)
    ensures r < TWO_64
  {
    (x * MULTIPLIER) % TWO_64
  }

  function HashStep(h: nat, b: Byte): (r: nat)
    ensures r < TWO_64
  {
    Times(Xor(h, b))
  }

  function HashFrom(h: nat, bytes: seq<Byte>): nat {
    if bytes == [] then h else HashStep(HashFrom(h, bytes[..|bytes| - 1]), bytes[|bytes| - 1])
  }

  function Hash(bytes: seq<Byte>): nat {
    HashFrom(HASH_START, bytes)
  }

  method ComputeHash(bytes: seq<Byte>) returns (hash: nat)
    ensures hash == Hash(bytes)
  {
    hide Xor;
    hash := HASH_START;
    for i := 0 to |bytes|
      invariant hash == HashFrom(HASH_START, bytes[..i])
    {
      hash := Xor(hash, bytes[i]);
      hash := (hash * MULTIPLIER) % TWO_64;
      assert bytes[..i + 1][..i] == bytes[..i];
    }
    assert bytes[..|bytes|] == bytes;
  }

  /** The multiplier is odd, so multiplication by its inverse undoes it. */
  lemma TimesIsInjective(x: nat, y: nat)
    requires x < TWO_64 && y < TWO_64 && Times(x) == Times(y)
    ensures x == y
  {
    var d := x - y;
    var k := (x * MULTIPLIER) / TWO_64 - (y * MULTIPLIER) / TWO_64;
    assert d * MULTIPLIER == TWO_64 * k;
    assert d * (MULTIPLIER * INVERSE) == TWO_64 * (k * INVERSE);
    assert d == TWO_64 * (k * INVERSE - COFACTOR * d);
  }

  /** So wrapping multiplication is a bijection on 64-bit numbers. */
  lemma TimesIsOnto(y: nat)
    requires y < TWO_64
    ensures Times(y * INVERSE % TWO_64) == y
  {
    var k, r := y * INVERSE / TWO_64, y * INVERSE % TWO_64;
    assert r * MULTIPLIER == y + TWO_64 * (COFACTOR * y - MULTIPLIER * k);
    RemainderOf(y, COFACTOR * y - MULTIPLIER * k);
  }

  lemma RemainderOf(y: nat, q: int)
    requires y < TWO_64
    ensures (y + TWO_64 * q) % TWO_64 == y
  {
  }

  lemma HashStepIsInjective(g: nat, h: nat, b: Byte, c: Byte)
    requires g < TWO_64 && h < TWO_64 && HashStep(g, b) == HashStep(h, c)
    ensures Xor(g, b) == Xor(h, c)
  {
    hide Times, Xor, Pow2;
    Pow2Sizes();
    XorStaysBelow(g, b, 64);
    XorStaysBelow(h, c, 64);
    TimesIsInjective(Xor(g, b), Xor(h, c));
  }

  lemma HashStaysBelow(h: nat, bytes: seq<Byte>)
    requires h < TWO_64
    ensures HashFrom(h, bytes) < TWO_64
  {
  }

  /** Equal bytes keep different states different. */
  lemma {:induction false} HashIsInjective(g: nat, h: nat, bytes: seq<Byte>)
    requires g < TWO_64 && h < TWO_64 && HashFrom(g, bytes) == HashFrom(h, bytes)
    ensures g == h
    decreases |bytes|
  {
    hide HashStep, Xor;
    if bytes != [] {
      var n := |bytes| - 1;
      var x, y, b := HashFrom(g, bytes[..n]), HashFrom(h, bytes[..n]), bytes[n];
      HashStaysBelow(g, bytes[..n]);
      HashStaysBelow(h, bytes[..n]);
      HashStepIsInjective(x, y, b, b);
      XorCancels(x, b);
      XorCancels(y, b);
      HashIsInjective(g, h, bytes[..n]);
    }
  }

  lemma {:induction false} HashOfParts(h: nat, a: seq<Byte>, b: seq<Byte>)
    ensures HashFrom(h, a + b) == HashFrom(HashFrom(h, a), b)
    decreases |b|
  {
    hide HashStep;
    if b == [] {
      assert a + b == a;
    } else {
      var n := |b| - 1;
      assert (a + b)[..|a + b| - 1] == a + b[..n];
      HashOfParts(h, a, b[..n]);
    }
  }

  lemma HashSeesOneByte(a: seq<Byte>, i: nat, b: Byte)
    requires i < |a| && a[i] != b
    ensures Hash(a) != Hash(a[i := b])
  {
    hide HashStep, Xor;
    var p, s := a[..i], a[i + 1..];
    var h := HashFrom(HASH_START, p);
    assert a == (p + [a[i]]) + s && a[i := b] == (p + [b]) + s;
    HashOfParts(HASH_START, p + [a[i]], s);
    HashOfParts(HASH_START, p + [b], s);
    assert (p + [a[i]])[..i] == p == (p + [b])[..i];
    HashStaysBelow(HASH_START, p);
    if Hash(a) == Hash(a[i := b]) {
      HashIsInjective(HashStep(h, a[i]), HashStep(h, b), s);
      HashStepIsInjective(h, h, a[i], b);
      XorCommutes(h, a[i]);
      XorCommutes(h, b);
      XorCancels(a[i], h);
      XorCancels(b, h);
    }
  }

  // ---------------------------------------------------------------- checkpoints

  datatype Checkpoint = Checkpoint(payload: seq<Byte>, size: nat, hash: nat, signature: nat)

  ghost predicate Intact(c: Checkpoint)
    requires c.size <= |c.payload|
  {
    Hash(c.payload[..c.size]) == c.hash && c.signature == Xor(c.hash, SIGNATURE_MASK)
  }

  method VerifyIntegrity(c: Checkpoint) returns (ok: bool)
    requires c.size <= |c.payload|
    ensures ok <==> Intact(c)
  {
    hide Xor, HashFrom;
    var computed := ComputeHash(c.payload[..c.size]);
    return computed == c.hash && c.signature == Xor(c.hash, SIGNATURE_MASK);
  }

  /** A changed byte of an intact checkpoint is noticed exactly when it lies within the payload size. */
  lemma OneByteIsNoticed(c: Checkpoint, i: nat, b: Byte)
    requires c.size <= |c.payload| && Intact(c) && i < |c.payload| && c.payload[i] != b
    ensures Intact(c.(payload := c.payload[i := b])) <==> i >= c.size
  {
    hide Hash, Xor;
    var d := c.(payload := c.payload[i := b]);
    if i < c.size {
      assert d.payload[..c.size] == c.payload[..c.size][i := b];
      HashSeesOneByte(c.payload[..c.size], i, b);
    } else {
      assert d.payload[..c.size] == c.payload[..c.size];
    }
  }
}
