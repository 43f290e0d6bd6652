/** Bytes, big-endian fields, zero padding and the integer forms of the bitwise operators. */
module Bytes {
  newtype UInt8 = x: int | 0 <= x < 256

  type Bytes = seq<UInt8>

  const TWO32 := 0x1_0000_0000

  // ---- padding (include/ofp/padding.h) ----

  /** Rounds a length up to a multiple of eight. */
  function PadLength(n: nat): (r: nat)
    ensures r % 8 == 0 && n <= r < n + 8
  {
    8 * ((n + 7) / 8)
  }

  lemma PadPlus8(n: nat)
    ensures PadLength(8 + n) == 8 + PadLength(n)
  {}

  function Zeros(n: nat): (z: Bytes)
    ensures |z| == n && forall i :: 0 <= i < n ==> z[i] == 0
  {
    seq(n, _ => 0)
  }

  predicate AllZero(b: Bytes) { forall i :: 0 <= i < |b| ==> b[i] == 0 }

  lemma AllZeroIsZeros(b: Bytes)
    ensures AllZero(b) <==> b == Zeros(|b|)
  {}

  // ---- big-endian integers (include/ofp/byteorder.h); values are narrowed to the field ----

  function Big16(n: nat): (b: Bytes)
    ensures |b| == 2
  {
    [(n / 256 % 256) as UInt8, (n % 256) as UInt8]
  }

  function ReadBig16(b: Bytes, offset: nat): (n: nat)
    requires offset + 2 <= |b|
    ensures n < 0x1_0000
  {
    b[offset] as int * 256 + b[offset + 1] as int
  }

  function Big32(n: nat): (b: Bytes)
    ensures |b| == 4
  {
    Big16(n / 0x1_0000) + Big16(n)
  }

  function ReadBig32(b: Bytes, offset: nat): (n: nat)
    requires offset + 4 <= |b|
    ensures n < 0x1_0000_0000
  {
    ReadBig16(b, offset) * 0x1_0000 + ReadBig16(b, offset + 2)
  }

  lemma Big16RoundTrip(n: nat, b: Bytes, offset: nat)
    requires offset + 2 <= |b| && b[offset..offset + 2] == Big16(n)
    ensures ReadBig16(b, offset) == n % 0x1_0000
  {
    assert b[offset] == b[offset..offset + 2][0] && b[offset + 1] == b[offset..offset + 2][1];
  }

  lemma ReadBig16RoundTrip(b: Bytes, offset: nat)
    requires offset + 2 <= |b|
    ensures Big16(ReadBig16(b, offset)) == b[offset..offset + 2]
  {}

  lemma SplitWord(n: nat)
    ensures n / 0x1_0000 % 0x1_0000 * 0x1_0000 + n % 0x1_0000 == n % 0x1_0000_0000
  {}

  lemma {:induction false} Big32RoundTrip(n: nat, b: Bytes, offset: nat)
    requires offset + 4 <= |b| && b[offset..offset + 4] == Big32(n)
    ensures ReadBig32(b, offset) == n % 0x1_0000_0000
  {
    hide Big16, ReadBig16;
    SplitWord(n);
    assert b[offset..offset + 2] == b[offset..offset + 4][..2] == Big16(n / 0x1_0000);
    assert b[offset + 2..offset + 4] == b[offset..offset + 4][2..] == Big16(n);
    Big16RoundTrip(n / 0x1_0000, b, offset);
    Big16RoundTrip(n, b, offset + 2);
  }

  lemma Big16Low(hi: nat, lo: nat)
    requires lo < 0x1_0000
    ensures Big16(hi * 0x1_0000 + lo) == Big16(lo)
  {
    var n := hi * 0x1_0000 + lo;
    assert n / 256 == hi * 256 + lo / 256;
    assert n % 256 == lo % 256;
  }

  lemma {:induction false} ReadBig32RoundTrip(b: Bytes, offset: nat)
    requires offset + 4 <= |b|
    ensures Big32(ReadBig32(b, offset)) == b[offset..offset + 4]
  {
    hide Big16, ReadBig16;
    var hi, lo := ReadBig16(b, offset), ReadBig16(b, offset + 2);
    assert ReadBig32(b, offset) / 0x1_0000 == hi;
    Big16Low(hi, lo);
    ReadBig16RoundTrip(b, offset);
    ReadBig16RoundTrip(b, offset + 2);
  }

  // ---- bitwise operators on non-negative integers ----

  function BitXor(x: nat, y: nat): nat
    decreases x + y
  {
    if x == 0 && y == 0 then 0
    else 2 * BitXor(x / 2, y / 2) + (if x % 2 == y % 2 then 0 else 1)
  }

  function BitAnd(x: nat, y: nat): (r: nat)
    ensures r <= x && r <= y
  {
    if x == 0 || y == 0 then 0
    else 2 * BitAnd(x / 2, y / 2) + (if x % 2 == 1 && y % 2 == 1 then 1 else 0)
  }

  function BitOr(x: nat, y: nat): nat
    decreases x + y
  {
    if x == 0 && y == 0 then 0
    else 2 * BitOr(x / 2, y / 2) + (if x % 2 == 1 || y % 2 == 1 then 1 else 0)
  }

  predicate HasBit(x: nat, k: nat) { if k == 0 then x % 2 == 1 else HasBit(x / 2, k - 1) }

  predicate BitAt(b: Bytes, i: nat, k: nat) { i < |b| && HasBit(b[i] as int, k) }

  lemma {:induction false} AndBits(x: nat, y: nat)
    ensures BitAnd(x, y) / 2 == BitAnd(x / 2, y / 2)
    ensures BitAnd(x, y) % 2 == 1 <==> x % 2 == 1 && y % 2 == 1
  {}

  lemma {:induction false} OrBits(x: nat, y: nat)
    ensures BitOr(x, y) / 2 == BitOr(x / 2, y / 2)
    ensures BitOr(x, y) % 2 == 1 <==> x % 2 == 1 || y % 2 == 1
  {}

  lemma {:induction false} XorBits(x: nat, y: nat)
    ensures BitXor(x, y) / 2 == BitXor(x / 2, y / 2)
    ensures BitXor(x, y) % 2 == (x + y) % 2
  {}

  /** The three operators, bit by bit. */
  lemma {:induction false} BitwiseIff(x: nat, y: nat, k: nat)
    ensures HasBit(BitAnd(x, y), k) <==> HasBit(x, k) && HasBit(y, k)
    ensures HasBit(BitOr(x, y), k) <==> HasBit(x, k) || HasBit(y, k)
    ensures HasBit(BitXor(x, y), k) <==> (HasBit(x, k) != HasBit(y, k))
    decreases k
  {
    hide BitAnd, BitOr, BitXor;
    AndBits(x, y);
    OrBits(x, y);
    XorBits(x, y);
    if k == 0 {
      assert (x + y) % 2 == 1 <==> (x % 2 == 1) != (y % 2 == 1);
    } else {
      BitwiseIff(x / 2, y / 2, k - 1);
    }
  }

  ghost function Pow2(n: nat): nat { if n == 0 then 1 else 2 * Pow2(n - 1) }
}
