/** MurmurHash32 (include/ofp/hash.h): a 32-bit hash computed four bytes at a time. Every step of the block
    loop and of the final mix is a bijection on 32-bit words, with an explicit inverse. */
module Hash {
  import opened Bytes

  type Word = x: int | 0 <= x < 0x1_0000_0000

  const SEED: Word := 29

  // ---- 32-bit arithmetic, with the wrap-around written out ----

  function Xor(x: Word, y: Word): Word {
    XorBelow(x, y);
    BitXor(x, y)
  }

  function Mul(x: Word, c: nat): Word { x * c % TWO32 }

  /** (x << n) | (x >> (32 - n)): the two shifted parts do not overlap. */
  function RotateLeft13(x: Word): Word { x % 0x8_0000 * 0x2000 + x / 0x8_0000 }
  function RotateLeft15(x: Word): Word { x % 0x2_0000 * 0x8000 + x / 0x2_0000 }

  function Scramble(k: Word): Word { Mul(RotateLeft15(Mul(k, 0xcc9e2d51)), 0x1b873593) }

  function Round(h: Word, k: Word): Word {
    (Mul(RotateLeft13(Xor(h, Scramble(k))), 5) + 0xe6546b64) % TWO32
  }

  function XorShift13(x: Word): Word { Xor(x, x / 0x2000) }
  function XorShift16(x: Word): Word { Xor(x, x / 0x1_0000) }

  function FinalMix(x: Word): Word {
    XorShift16(Mul(XorShift13(Mul(XorShift16(x), 0x85ebca6b)), 0xc2b2ae35))
  }

  // ---- loading words ----

  /** The word that `memcpy` leaves in a UInt32 on a little-endian or a big-endian host. */
  function LoadWord(b: Bytes, littleEndian: bool): Word
    requires |b| == 4
  {
    if littleEndian then
      b[0] as int + 0x100 * b[1] as int + 0x1_0000 * b[2] as int + 0x100_0000 * b[3] as int
    else
      b[3] as int + 0x100 * b[2] as int + 0x1_0000 * b[1] as int + 0x100_0000 * b[0] as int
  }

  /** The tail of up to three bytes is copied over a zeroed word. */
  function LoadTail(b: Bytes, littleEndian: bool): Word
    requires |b| < 4
  {
    LoadWord(b + Zeros(4 - |b|), littleEndian)
  }

  // ---- the hash as a function ----

  /** The block loop as a fold over the aligned words of the key; a short tail is left alone. */
  function Blocks(h: Word, key: Bytes, littleEndian: bool): Word
    decreases |key|
  {
    if |key| < 4 then h else Blocks(Round(h, LoadWord(key[..4], littleEndian)), key[4..], littleEndian)
  }

  function Tail(key: Bytes): Bytes { key[|key| / 4 * 4..] }

  /** The template parameter Size is the key's length, kept in 32 bits. */
  function Finish(h: Word, tail: Bytes, size: Word, littleEndian: bool): Word
    requires |tail| < 4
  {
    FinalMix(Xor(Xor(h, Scramble(LoadTail(tail, littleEndian))), size))
  }

  function Digest(key: Bytes, littleEndian: bool): Word
    requires |key| < TWO32
  {
    Finish(Blocks(SEED, key, littleEndian), Tail(key), |key|, littleEndian)
  }

  // ---- the hash as the source computes it ----

  method FinalMix32(x0: Word) returns (x: Word)
    ensures x == FinalMix(x0)
  {
    x := x0;
    x := Xor(x, x / 0x1_0000);
    x := Mul(x, 0x85ebca6b);
    x := Xor(x, x / 0x2000);
    x := Mul(x, 0xc2b2ae35);
    x := Xor(x, x / 0x1_0000);
  }

  /** The three statements that the block loop and the tail share. */
  method ScrambleKey(k0: Word) returns (k1: Word)
    ensures k1 == Scramble(k0)
  {
    k1 := k0;
    k1 := Mul(k1, 0xcc9e2d51);
    k1 := RotateLeft15(k1);
    k1 := Mul(k1, 0x1b873593);
  }

  method MixBlock(h0: Word, k0: Word) returns (h1: Word)
    ensures h1 == Round(h0, k0)
  {
    var k1 := ScrambleKey(k0);
    h1 := h0;
    h1 := Xor(h1, k1);
    h1 := RotateLeft13(h1);
    h1 := (Mul(h1, 5) + 0xe6546b64) % TWO32;
  }

  lemma BlocksStep(h: Word, key: Bytes, ptr: nat, littleEndian: bool)
    requires ptr + 4 <= |key|
    ensures Blocks(h, key[ptr..], littleEndian)
         == Blocks(Round(h, LoadWord(key[ptr..ptr + 4], littleEndian)), key[ptr + 4..], littleEndian)
  {
    assert key[ptr..][..4] == key[ptr..ptr + 4] && key[ptr..][4..] == key[ptr + 4..];
  }

  method MixBlocks(key: Bytes, littleEndian: bool) returns (h1: Word, ptr: nat)
    ensures ptr <= |key| && key[ptr..] == Tail(key)
    ensures h1 == Blocks(SEED, key, littleEndian)
  {
    hide Round, LoadWord;
    h1 := SEED;
    ptr := 0;
    var len := |key|;
    while len >= 4
      invariant 0 <= len && ptr + len == |key| && ptr % 4 == 0
      invariant Blocks(SEED, key, littleEndian) == Blocks(h1, key[ptr..], littleEndian)
    {
      BlocksStep(h1, key, ptr, littleEndian);
      var k1: Word := LoadWord(key[ptr..ptr + 4], littleEndian);
      ptr := ptr + 4;
      len := len - 4;
      h1 := MixBlock(h1, k1);
    }
    assert ptr == |key| / 4 * 4;
  }

  method MurmurHash32(key: Bytes, littleEndian: bool) returns (hash: Word)
    requires |key| < TWO32
    ensures hash == Digest(key, littleEndian)
  {
    var h1, ptr := MixBlocks(key, littleEndian);
    var k1: Word := 0;
    if |key| % 4 != 0 {
      k1 := LoadTail(key[ptr..], littleEndian);
    }
    k1 := ScrambleKey(k1);
    h1 := Xor(h1, k1);
    h1 := Xor(h1, |key|);
    hash := FinalMix32(h1);
  }

  // ---- exclusive or ----

  lemma {:induction false} XorBelowPow2(x: nat, y: nat, n: nat)
    requires x < Pow2(n) && y < Pow2(n)
    ensures BitXor(x, y) < Pow2(n)
  {
    if x != 0 || y != 0 { XorBelowPow2(x / 2, y / 2, n - 1); }
  }

  lemma XorBelow(x: nat, y: nat)
    requires x < TWO32 && y < TWO32
    ensures BitXor(x, y) < TWO32
  {
    assert Pow2(32) == TWO32 by {
      assert Pow2(8) == 0x100;
      assert Pow2(16) == 0x1_0000;
      assert Pow2(24) == 0x100_0000;
    }
    XorBelowPow2(x, y, 32);
  }

  lemma {:induction false} XorSelf(x: nat)
    ensures BitXor(x, x) == 0
  {
    if x != 0 { XorSelf(x / 2); }
  }

  lemma {:induction false} XorZero(x: nat)
    ensures BitXor(x, 0) == x
  {
    if x != 0 { XorZero(x / 2); }
  }

  lemma {:induction false} XorAssoc(x: nat, y: nat, z: nat)
    ensures BitXor(BitXor(x, y), z) == BitXor(x, BitXor(y, z))
    decreases x + y + z
  {
    if x != 0 || y != 0 || z != 0 {
      XorAssoc(x / 2, y / 2, z / 2);
      XorBits(x, y);
      XorBits(y, z);
      XorBits(BitXor(x, y), z);
      XorBits(x, BitXor(y, z));
    }
  }

  lemma {:induction false} XorComm(x: nat, y: nat)
    ensures BitXor(x, y) == BitXor(y, x)
    decreases x + y
  {
    if x != 0 || y != 0 { XorComm(x / 2, y / 2); }
  }

  /** Exclusive or with a fixed word is its own inverse. */
  lemma XorCancel(x: Word, y: Word)
    ensures Xor(Xor(x, y), y) == x
  {
    XorAssoc(x, y, y);
    XorSelf(y);
    XorZero(x);
  }

  // ---- shifting right, one bit at a time ----

  ghost function Shr(x: nat, n: nat): nat { if n == 0 then x else Shr(x / 2, n - 1) }

  lemma {:induction false} XorShr(x: nat, y: nat, n: nat)
    ensures Shr(BitXor(x, y), n) == BitXor(Shr(x, n), Shr(y, n))
  {
    if n != 0 {
      XorBits(x, y);
      XorShr(x / 2, y / 2, n - 1);
    }
  }

  lemma {:induction false} ShrAdd(x: nat, m: nat, n: nat)
    ensures Shr(x, m + n) == Shr(Shr(x, m), n)
  {
    if m != 0 { ShrAdd(x / 2, m - 1, n); }
  }

  lemma Shr4(x: nat)
    ensures Shr(x, 4) == x / 16
  {
    assert Shr(x, 4) == Shr(x / 2, 3) == Shr(x / 2 / 2, 2) == Shr(x / 2 / 2 / 2, 1);
  }

  lemma ShrConstants(x: nat)
    ensures Shr(x, 13) == x / 0x2000
    ensures Shr(x, 16) == x / 0x1_0000
  {
    hide Shr;
    ShrAdd(x, 12, 1);
    ShrAdd(x, 12, 4);
    Shr12(x);
    Shr4(x / 4096);
    assert Shr(x / 4096, 1) == x / 4096 / 2 by { ShrOne(x / 4096); }
  }

  lemma ShrOne(x: nat)
    ensures Shr(x, 1) == x / 2
  {}

  lemma Shr12(x: nat)
    ensures Shr(x, 12) == x / 4096
  {
    hide Shr;
    ShrAdd(x, 4, 8);
    ShrAdd(x / 16, 4, 4);
    Shr4(x);
    Shr4(x / 16);
    Shr4(x / 256);
  }

  // ---- the steps are bijections ----

  lemma ModUnique(v: int, x: Word, k: int)
    requires v == x + k * TWO32
    ensures v % TWO32 == x
  {}

  /** Multiplication by an odd constant is undone by multiplication by its inverse. */
  lemma MulInverse(x: Word, c: nat, d: nat, t: nat)
    requires c * d == 1 + t * TWO32
    ensures Mul(Mul(x, c), d) == x
  {
    var q := x * c / TWO32;
    var r := x * c % TWO32;
    calc {
      r * d;
      { assert r == x * c - q * TWO32; }
      (x * c - q * TWO32) * d;
      (x * c) * d - (q * TWO32) * d;
      { assert (x * c) * d == x * (c * d); assert (q * TWO32) * d == (q * d) * TWO32; }
      x * (1 + t * TWO32) - (q * d) * TWO32;
      { assert x * (t * TWO32) == (x * t) * TWO32; }
      x + (x * t - q * d) * TWO32;
    }
    ModUnique(r * d, x, x * t - q * d);
  }

  lemma Split13(hi: nat, lo: nat)
    requires lo < 0x2000
    ensures (hi * 0x2000 + lo) / 0x2000 == hi && (hi * 0x2000 + lo) % 0x2000 == lo
  {}

  lemma Split15(hi: nat, lo: nat)
    requires lo < 0x8000
    ensures (hi * 0x8000 + lo) / 0x8000 == hi && (hi * 0x8000 + lo) % 0x8000 == lo
  {}

  lemma Split17(hi: nat, lo: nat)
    requires lo < 0x2_0000
    ensures (hi * 0x2_0000 + lo) / 0x2_0000 == hi && (hi * 0x2_0000 + lo) % 0x2_0000 == lo
  {}

  lemma Split19(hi: nat, lo: nat)
    requires lo < 0x8_0000
    ensures (hi * 0x8_0000 + lo) / 0x8_0000 == hi && (hi * 0x8_0000 + lo) % 0x8_0000 == lo
  {}

  ghost function RotateRight15(x: Word): Word { x % 0x8000 * 0x2_0000 + x / 0x8000 }

  lemma Rotate15Inverse(x: Word)
    ensures RotateRight15(RotateLeft15(x)) == x
    ensures RotateLeft15(RotateRight15(x)) == x
  {
    Split15(x % 0x2_0000, x / 0x2_0000);
    Split17(x % 0x8000, x / 0x8000);
  }

  ghost function Unscramble(k: Word): Word { Mul(RotateRight15(Mul(k, 0x56ed309b)), 0xdee13bb1) }

  lemma {:induction false} ScrambleInverse(k: Word)
    ensures Unscramble(Scramble(k)) == k
    ensures Scramble(Unscramble(k)) == k
  {
    hide Mul, RotateLeft15, RotateRight15;
    var l, r := Mul(k, 0xcc9e2d51), Mul(k, 0x56ed309b);
    MulInverse(k, 0xcc9e2d51, 0xdee13bb1, 0xb2253208);
    MulInverse(RotateLeft15(l), 0x1b873593, 0x56ed309b, 0x958ed66);
    Rotate15Inverse(l);
    MulInverse(k, 0x56ed309b, 0x1b873593, 0x958ed66);
    MulInverse(RotateRight15(r), 0xdee13bb1, 0xcc9e2d51, 0xb2253208);
    Rotate15Inverse(r);
  }

  ghost function RotateRight13(x: Word): Word { x % 0x2000 * 0x8_0000 + x / 0x2000 }

  lemma Rotate13Inverse(x: Word)
    ensures RotateRight13(RotateLeft13(x)) == x
    ensures RotateLeft13(RotateRight13(x)) == x
  {
    Split13(x % 0x8_0000, x / 0x8_0000);
    Split19(x % 0x2000, x / 0x2000);
  }

  ghost function TimesFive(x: Word): Word { (Mul(x, 5) + 0xe6546b64) % TWO32 }
  ghost function OverFive(x: Word): Word { Mul((x + 0x19ab949c) % TWO32, 0xcccccccd) }

  lemma FiveInverse(x: Word)
    ensures OverFive(TimesFive(x)) == x
    ensures TimesFive(OverFive(x)) == x
  {
    hide Mul;
    var y := (x + 0x19ab949c) % TWO32;
    MulInverse(x, 5, 0xcccccccd, 4);
    AddBack(Mul(x, 5), 0xe6546b64, 0x19ab949c);
    MulInverse(y, 0xcccccccd, 5, 4);
    AddBack(x, 0x19ab949c, 0xe6546b64);
  }

  lemma AddBack(x: Word, a: Word, b: Word)
    requires a + b == TWO32
    ensures ((x + a) % TWO32 + b) % TWO32 == x
  {}

  /** The hash state before a round, given the state after it. */
  ghost function Unround(h: Word, k: Word): Word { Xor(RotateRight13(OverFive(h)), Scramble(k)) }

  lemma {:induction false} RoundInverse(h: Word, k: Word)
    ensures Unround(Round(h, k), k) == h
    ensures Round(Unround(h, k), k) == h
  {
    hide Xor, Mul, RotateLeft13, RotateRight13, OverFive, Scramble;
    var s := Scramble(k);
    XorCancel(h, s);
    Rotate13Inverse(Xor(h, s));
    FiveInverse(RotateLeft13(Xor(h, s)));
    FiveInverse(h);
    Rotate13Inverse(OverFive(h));
    XorCancel(RotateRight13(OverFive(h)), s);
  }

  lemma {:induction false} ShrZero(x: nat, n: nat)
    requires x < Pow2(n)
    ensures Shr(x, n) == 0
  {
    if n != 0 { ShrZero(x / 2, n - 1); }
  }

  lemma WordShr(x: Word)
    ensures Shr(x, 32) == 0 && Shr(x, 39) == 0
  {
    assert Pow2(32) == TWO32 by {
      assert Pow2(8) == 0x100;
      assert Pow2(16) == 0x1_0000;
      assert Pow2(24) == 0x100_0000;
    }
    ShrZero(x, 32);
    ShrAdd(x, 32, 7);
    ShrZero(0, 7);
  }

  /** A chain of exclusive ors in which neighbours cancel. */
  lemma {:induction false} XorTelescope(a: nat, b: nat, c: nat)
    ensures BitXor(BitXor(a, b), BitXor(b, c)) == BitXor(a, c)
  {
    hide BitXor;
    XorAssoc(a, b, BitXor(b, c));
    XorAssoc(b, b, c);
    XorSelf(b);
    XorComm(0, c);
    XorZero(c);
  }

  lemma {:induction false} XorShift16Inverse(x: Word)
    ensures XorShift16(XorShift16(x)) == x
  {
    hide BitXor;
    var y := Shr(x, 16);
    ShrConstants(x);
    ShrConstants(BitXor(x, y));
    XorShr(x, y, 16);
    ShrAdd(x, 16, 16);
    WordShr(x);
    XorTelescope(x, y, 0);
    XorZero(x);
  }

  ghost function UnXorShift13(x: Word): Word { Xor(XorShift13(x), x / 0x400_0000) }

  lemma Shr26(x: Word)
    ensures Shr(x, 26) == x / 0x400_0000 == Shr(Shr(x, 13), 13)
    ensures Shr(Shr(x, 26), 13) == 0
  {
    ShrAdd(x, 13, 13);
    ShrConstants(x);
    ShrConstants(x / 0x2000);
    ShrAdd(x, 26, 13);
    WordShr(x);
  }

  lemma {:induction false} XorShift13Inverse(x: Word)
    ensures UnXorShift13(XorShift13(x)) == x
    ensures XorShift13(UnXorShift13(x)) == x
  {
    hide BitXor, Shr;
    var a, b := Shr(x, 13), Shr(x, 26);
    Shr26(x);
    ShrConstants(x);
    var y := XorShift13(x);
    assert y == BitXor(x, a);
    Shr26(y);
    ShrConstants(y);
    XorShr(x, a, 13);
    XorShr(a, b, 13);
    assert Shr(y, 13) == BitXor(a, b);
    XorZero(b);
    assert Shr(y, 26) == b;
    XorTelescope(x, a, b);
    XorCancel(x, b);
    // the other direction
    var z := UnXorShift13(x);
    assert z == BitXor(y, b);
    ShrConstants(z);
    XorShr(y, b, 13);
    XorZero(BitXor(a, b));
    assert Shr(z, 13) == BitXor(a, b);
    XorAssoc(x, a, b);
    XorCancel(x, BitXor(a, b));
  }

  ghost function Unmix(x: Word): Word {
    XorShift16(Mul(UnXorShift13(Mul(XorShift16(x), 0x7ed1b41d)), 0xa5cb9243))
  }

  lemma {:induction false} FinalMixInverse(x: Word)
    ensures Unmix(FinalMix(x)) == x
    ensures FinalMix(Unmix(x)) == x
  {
    hide Mul, XorShift16, XorShift13, UnXorShift13;
    var x1 := XorShift16(x);
    var x2 := Mul(x1, 0x85ebca6b);
    var x3 := XorShift13(x2);
    XorShift16Inverse(x);
    MulInverse(x1, 0x85ebca6b, 0xa5cb9243, 0x56bb77f4);
    XorShift13Inverse(x2);
    MulInverse(x3, 0xc2b2ae35, 0x7ed1b41d, 0x60736e9a);
    XorShift16Inverse(Mul(x3, 0xc2b2ae35));
    var y2 := Mul(x1, 0x7ed1b41d);
    var y3 := UnXorShift13(y2);
    MulInverse(x1, 0x7ed1b41d, 0xc2b2ae35, 0x60736e9a);
    XorShift13Inverse(y2);
    MulInverse(y3, 0xa5cb9243, 0x85ebca6b, 0x56bb77f4);
    XorShift16Inverse(Mul(y3, 0xa5cb9243));
  }

  ghost function StoreWord(w: Word, littleEndian: bool): (b: Bytes)
    ensures |b| == 4
  {
    var b := [(w % 256) as UInt8, (w / 0x100 % 256) as UInt8, (w / 0x1_0000 % 256) as UInt8, (w / 0x100_0000) as UInt8];
    if littleEndian then b else [b[3], b[2], b[1], b[0]]
  }

  /** Base-256 digits are unique. */
  lemma Digits(w: Word, a: nat, b: nat, c: nat, d: nat)
    requires a < 256 && b < 256 && c < 256 && d < 256
    requires w == a + 0x100 * b + 0x1_0000 * c + 0x100_0000 * d
    ensures w % 256 == a && w / 0x100 % 256 == b && w / 0x1_0000 % 256 == c && w / 0x100_0000 == d
  {
    assert w / 0x100 == b + 0x100 * c + 0x1_0000 * d;
    assert w / 0x1_0000 == c + 0x100 * d;
  }

  lemma StoreLoad(b: Bytes, littleEndian: bool)
    requires |b| == 4
    ensures StoreWord(LoadWord(b, littleEndian), littleEndian) == b
  {
    var w := LoadWord(b, littleEndian);
    if littleEndian {
      Digits(w, b[0] as int, b[1] as int, b[2] as int, b[3] as int);
    } else {
      Digits(w, b[3] as int, b[2] as int, b[1] as int, b[0] as int);
    }
  }

  lemma LoadStore(w: Word, littleEndian: bool)
    ensures LoadWord(StoreWord(w, littleEndian), littleEndian) == w
  {
    var x, y := w / 0x100, w / 0x1_0000;
    assert y == x / 0x100 && w / 0x100_0000 == y / 0x100;
    assert w == w % 0x100 + 0x100 * x && x == x % 0x100 + 0x100 * y;
    assert y == y % 0x100 + 0x100 * (y / 0x100);
  }
}
