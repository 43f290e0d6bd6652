/** Values of MurmurHash32 for given keys, those that test/ofp/hash_unittest.cpp expects. They pin the
    seed and the constants, which no law about collisions does. */
module HashValues {
  import opened Bytes
  import opened Hash

  // ---- evaluating an exclusive or, one hexadecimal digit at a time ----

  function Differ(x: nat, y: nat): nat { if x == y then 0 else 1 }

  function Bit(x: nat, w: nat): nat { if x < w then 0 else 1 }

  function XorDigit(x: nat, y: nat): nat
    requires x < 16 && y < 16
  {
    var x3, y3 := Bit(x, 8), Bit(y, 8);
    var x2, y2 := Bit(x - 8 * x3, 4), Bit(y - 8 * y3, 4);
    var x1, y1 := Bit(x - 8 * x3 - 4 * x2, 2), Bit(y - 8 * y3 - 4 * y2, 2);
    var x0, y0 := x - 8 * x3 - 4 * x2 - 2 * x1, y - 8 * y3 - 4 * y2 - 2 * y1;
    8 * Differ(x3, y3) + 4 * Differ(x2, y2) + 2 * Differ(x1, y1) + Differ(x0, y0)
  }

  lemma {:induction false} XorBit(a: nat, x: nat, b: nat, y: nat)
    requires x < 2 && y < 2
    ensures BitXor(2 * a + x, 2 * b + y) == 2 * BitXor(a, b) + Differ(x, y)
  {
    hide BitXor;
    XorBits(2 * a + x, 2 * b + y);
    assert (2 * a + x) / 2 == a && (2 * b + y) / 2 == b;
  }

  lemma {:induction false} XorPair(a: nat, x1: nat, x0: nat, b: nat, y1: nat, y0: nat)
    requires x1 < 2 && x0 < 2 && y1 < 2 && y0 < 2
    ensures BitXor(4 * a + 2 * x1 + x0, 4 * b + 2 * y1 + y0) == 4 * BitXor(a, b) + 2 * Differ(x1, y1) + Differ(x0, y0)
  {
    hide BitXor, Differ;
    XorBit(a, x1, b, y1);
    XorBit(2 * a + x1, x0, 2 * b + y1, y0);
  }

  /** A digit as two pairs of bits. */
  lemma {:induction false} XorPairs(a: nat, x: nat, x3: nat, x2: nat, x1: nat, x0: nat,
                                    b: nat, y: nat, y3: nat, y2: nat, y1: nat, y0: nat)
    requires x3 < 2 && x2 < 2 && x1 < 2 && x0 < 2 && x == 8 * x3 + 4 * x2 + 2 * x1 + x0
    requires y3 < 2 && y2 < 2 && y1 < 2 && y0 < 2 && y == 8 * y3 + 4 * y2 + 2 * y1 + y0
    ensures BitXor(16 * a + x, 16 * b + y)
      == 16 * BitXor(a, b) + 8 * Differ(x3, y3) + 4 * Differ(x2, y2) + 2 * Differ(x1, y1) + Differ(x0, y0)
  {
    hide BitXor, Differ;
    XorPair(a, x3, x2, b, y3, y2);
    XorPair(4 * a + 2 * x3 + x2, x1, x0, 4 * b + 2 * y3 + y2, y1, y0);
  }

  lemma {:induction false} XorLastDigit(a: nat, x: nat, b: nat, y: nat)
    requires x < 16 && y < 16
    ensures BitXor(16 * a + x, 16 * b + y) == 16 * BitXor(a, b) + XorDigit(x, y)
  {
    hide BitXor, Differ;
    var x3, y3 := Bit(x, 8), Bit(y, 8);
    var x2, y2 := Bit(x - 8 * x3, 4), Bit(y - 8 * y3, 4);
    var x1, y1 := Bit(x - 8 * x3 - 4 * x2, 2), Bit(y - 8 * y3 - 4 * y2, 2);
    var x0, y0 := x - 8 * x3 - 4 * x2 - 2 * x1, y - 8 * y3 - 4 * y2 - 2 * y1;
    XorPairs(a, x, x3, x2, x1, x0, b, y, y3, y2, y1, y0);
  }

  /** From the exclusive or of all digits but the last to that of all. */
  lemma {:induction false} XorStep(a: nat, b: nat, q: nat, x: nat, y: nat, z: nat)
    requires BitXor(a, b) == q && 0 <= x - 16 * a < 16 && 0 <= y - 16 * b < 16
    requires z == 16 * q + XorDigit(x - 16 * a, y - 16 * b)
    ensures BitXor(x, y) == z
  {
    hide BitXor, XorDigit;
    XorLastDigit(a, x - 16 * a, b, y - 16 * b);
  }

  lemma {:induction false} ZeroXor(x: nat)
    ensures BitXor(0, x) == x
  {
    if x != 0 { ZeroXor(x / 2); }
  }

  lemma Shift13(x: Word, q: Word)
    requires 0 <= x - 0x2000 * q < 0x2000
    ensures XorShift13(x) == BitXor(x, q)
  {}

  lemma Shift16(x: Word, q: Word)
    requires 0 <= x - 0x1_0000 * q < 0x1_0000
    ensures XorShift16(x) == BitXor(x, q)
  {}

  // ---- the steps for the keys below ----

  lemma {:induction false} MixedTail()
    ensures FinalMix(0x1c) == 0x4289c4e0
  {
    hide BitXor, XorShift13, XorShift16;
    assert XorShift16(0x1c) == 0x1c by {
      XorZero(0x1c);
      Shift16(0x1c, 0x0);
    }
    assert Mul(0x1c, 0x85ebca6b) == 0xa5ca23b4;
    assert XorShift13(0xa5ca23b4) == 0xa5cf0de5 by {
      XorZero(0xa5c);
      XorStep(0xa5c, 0x0, 0xa5c, 0xa5ca, 0x5, 0xa5cf);
      XorStep(0xa5ca, 0x5, 0xa5cf, 0xa5ca2, 0x52, 0xa5cf0);
      XorStep(0xa5ca2, 0x52, 0xa5cf0, 0xa5ca23, 0x52e, 0xa5cf0d);
      XorStep(0xa5ca23, 0x52e, 0xa5cf0d, 0xa5ca23b, 0x52e5, 0xa5cf0de);
      XorStep(0xa5ca23b, 0x52e5, 0xa5cf0de, 0xa5ca23b4, 0x52e51, 0xa5cf0de5);
      Shift13(0xa5ca23b4, 0x52e51);
    }
    assert Mul(0xa5cf0de5, 0xc2b2ae35) == 0x42898669;
    assert XorShift16(0x42898669) == 0x4289c4e0 by {
      XorZero(0x4289);
      XorStep(0x4289, 0x0, 0x4289, 0x42898, 0x4, 0x4289c);
      XorStep(0x42898, 0x4, 0x4289c, 0x428986, 0x42, 0x4289c4);
      XorStep(0x428986, 0x42, 0x4289c4, 0x4289866, 0x428, 0x4289c4e);
      XorStep(0x4289866, 0x428, 0x4289c4e, 0x42898669, 0x4289, 0x4289c4e0);
      Shift16(0x42898669, 0x4289);
    }
  }

  lemma {:induction false} MixedBlock()
    ensures FinalMix(0x4eb44723) == 0x148189dd
  {
    hide BitXor, XorShift13, XorShift16;
    assert XorShift16(0x4eb44723) == 0x4eb40997 by {
      XorZero(0x4eb4);
      XorStep(0x4eb4, 0x0, 0x4eb4, 0x4eb44, 0x4, 0x4eb40);
      XorStep(0x4eb44, 0x4, 0x4eb40, 0x4eb447, 0x4e, 0x4eb409);
      XorStep(0x4eb447, 0x4e, 0x4eb409, 0x4eb4472, 0x4eb, 0x4eb4099);
      XorStep(0x4eb4472, 0x4eb, 0x4eb4099, 0x4eb44723, 0x4eb4, 0x4eb40997);
      Shift16(0x4eb44723, 0x4eb4);
    }
    assert Mul(0x4eb40997, 0x85ebca6b) == 0x356e281d;
    assert XorShift13(0x356e281d) == 0x356f836c by {
      XorZero(0x356);
      XorStep(0x356, 0x0, 0x356, 0x356e, 0x1, 0x356f);
      XorStep(0x356e, 0x1, 0x356f, 0x356e2, 0x1a, 0x356f8);
      XorStep(0x356e2, 0x1a, 0x356f8, 0x356e28, 0x1ab, 0x356f83);
      XorStep(0x356e28, 0x1ab, 0x356f83, 0x356e281, 0x1ab7, 0x356f836);
      XorStep(0x356e281, 0x1ab7, 0x356f836, 0x356e281d, 0x1ab71, 0x356f836c);
      Shift13(0x356e281d, 0x1ab71);
    }
    assert Mul(0x356f836c, 0xc2b2ae35) == 0x14819d5c;
    assert XorShift16(0x14819d5c) == 0x148189dd by {
      XorZero(0x1481);
      XorStep(0x1481, 0x0, 0x1481, 0x14819, 0x1, 0x14818);
      XorStep(0x14819, 0x1, 0x14818, 0x14819d, 0x14, 0x148189);
      XorStep(0x14819d, 0x14, 0x148189, 0x14819d5, 0x148, 0x148189d);
      XorStep(0x14819d5, 0x148, 0x148189d, 0x14819d5c, 0x1481, 0x148189dd);
      Shift16(0x14819d5c, 0x1481);
    }
  }

  lemma {:induction false} MixedBoth()
    ensures FinalMix(0x4ef1c4f3) == 0x575a633e
  {
    hide BitXor, XorShift13, XorShift16;
    assert XorShift16(0x4ef1c4f3) == 0x4ef18a02 by {
      XorZero(0x4ef1);
      XorStep(0x4ef1, 0x0, 0x4ef1, 0x4ef1c, 0x4, 0x4ef18);
      XorStep(0x4ef1c, 0x4, 0x4ef18, 0x4ef1c4, 0x4e, 0x4ef18a);
      XorStep(0x4ef1c4, 0x4e, 0x4ef18a, 0x4ef1c4f, 0x4ef, 0x4ef18a0);
      XorStep(0x4ef1c4f, 0x4ef, 0x4ef18a0, 0x4ef1c4f3, 0x4ef1, 0x4ef18a02);
      Shift16(0x4ef1c4f3, 0x4ef1);
    }
    assert Mul(0x4ef18a02, 0x85ebca6b) == 0x4fb042d6;
    assert XorShift13(0x4fb042d6) == 0x4fb23f54 by {
      XorZero(0x4fb);
      XorStep(0x4fb, 0x0, 0x4fb, 0x4fb0, 0x2, 0x4fb2);
      XorStep(0x4fb0, 0x2, 0x4fb2, 0x4fb04, 0x27, 0x4fb23);
      XorStep(0x4fb04, 0x27, 0x4fb23, 0x4fb042, 0x27d, 0x4fb23f);
      XorStep(0x4fb042, 0x27d, 0x4fb23f, 0x4fb042d, 0x27d8, 0x4fb23f5);
      XorStep(0x4fb042d, 0x27d8, 0x4fb23f5, 0x4fb042d6, 0x27d82, 0x4fb23f54);
      Shift13(0x4fb042d6, 0x27d82);
    }
    assert Mul(0x4fb23f54, 0xc2b2ae35) == 0x575a3464;
    assert XorShift16(0x575a3464) == 0x575a633e by {
      XorZero(0x575a);
      XorStep(0x575a, 0x0, 0x575a, 0x575a3, 0x5, 0x575a6);
      XorStep(0x575a3, 0x5, 0x575a6, 0x575a34, 0x57, 0x575a63);
      XorStep(0x575a34, 0x57, 0x575a63, 0x575a346, 0x575, 0x575a633);
      XorStep(0x575a346, 0x575, 0x575a633, 0x575a3464, 0x575a, 0x575a633e);
      Shift16(0x575a3464, 0x575a);
    }
  }

  lemma WordScrambled()
    ensures Scramble(0x4030201) == 0xf93bda2f
  {
    assert Mul(0x4030201, 0xcc9e2d51) == 0xd4ebcf51;
    assert RotateLeft15(0xd4ebcf51) == 0xe7a8ea75;
  }

  lemma {:induction false} FirstRound()
    ensures Round(SEED, 0x4030201) == 0x4eb44727
  {
    hide BitXor, Scramble;
    WordScrambled();
    assert Xor(29, 0xf93bda2f) == 0xf93bda32 by {
      ZeroXor(0xf93bda);
      XorStep(0x0, 0xf93bda, 0xf93bda, 0x1, 0xf93bda2, 0xf93bda3);
      XorStep(0x1, 0xf93bda2, 0xf93bda3, 0x1d, 0xf93bda2f, 0xf93bda32);
    }
    assert RotateLeft13(0xf93bda32) == 0x7b465f27;
  }

  /** The four bytes as a number, in the order of the host. */
  lemma LoadedWord(b: Bytes)
    requires |b| == 4
    ensures LoadWord(b, false) == ReadBig32(b, 0)
    ensures LoadWord(b, true) == ReadBig32([b[3], b[2], b[1], b[0]], 0)
  {}

  /** A tail alone, a block alone, and a block with a tail, on a little-endian host. */
  lemma {:induction false} KnownAnswers()
    ensures Digest([0], true) == 0x4289c4e0
    ensures Digest([1, 2, 3, 4], true) == 0x148189dd
    ensures Digest([1, 2, 3, 4, 5], true) == 0x575a633e
  {
    TailAlone();
    BlockAlone();
    BlockAndTail();
  }

  lemma {:induction false} NothingScrambled(h: Word)
    ensures Xor(h, Scramble(0)) == h
  {
    assert Scramble(0) == 0;
    XorZero(h);
  }

  lemma {:induction false} XorOne()
    ensures Xor(29, 1) == 28
  {
    hide BitXor;
    XorZero(0x1);
    XorStep(0x1, 0x0, 0x1, 0x1d, 0x1, 0x1c);
  }

  lemma {:induction false} TailAlone()
    ensures Digest([0], true) == 0x4289c4e0
  {
    hide BitXor, FinalMix, Round;
    var key: Bytes := [0];
    assert Tail(key) == key && Blocks(SEED, key, true) == 29;
    assert LoadTail(key, true) == 0;
    NothingScrambled(29);
    XorOne();
    MixedTail();
  }

  lemma {:induction false} OneBlock(key: Bytes)
    requires 4 <= |key| < 8 && key[..4] == [1, 2, 3, 4]
    ensures Blocks(SEED, key, true) == 0x4eb44727 && Tail(key) == key[4..]
  {
    hide Round;
    assert LoadWord([1, 2, 3, 4], true) == 0x4030201;
    FirstRound();
  }

  lemma {:induction false} BlockAlone()
    ensures Digest([1, 2, 3, 4], true) == 0x148189dd
  {
    hide BitXor, FinalMix, Round, Blocks, Scramble;
    var key: Bytes := [1, 2, 3, 4];
    assert key[..4] == key && key[4..] == [];
    OneBlock(key);
    assert LoadTail([], true) == 0;
    NothingScrambled(0x4eb44727);
    assert Xor(0x4eb44727, 4) == 0x4eb44723 by {
      XorZero(0x4eb4472);
      XorStep(0x4eb4472, 0x0, 0x4eb4472, 0x4eb44727, 0x4, 0x4eb44723);
    }
    MixedBlock();
  }

  lemma FiveScrambled()
    ensures Scramble(5) == 0x4583d1
  {
    assert Mul(5, 0xcc9e2d51) == 0xff16e295;
    assert RotateLeft15(0xff16e295) == 0x714aff8b;
  }

  lemma {:induction false} BlockAndTail()
    ensures Digest([1, 2, 3, 4, 5], true) == 0x575a633e
  {
    hide BitXor, FinalMix, Round, Blocks, Scramble;
    var key: Bytes := [1, 2, 3, 4, 5];
    assert key[..4] == [1, 2, 3, 4] && key[4..] == [5];
    OneBlock(key);
    assert LoadTail([5], true) == 5;
    FiveScrambled();
    assert Xor(0x4eb44727, 0x4583d1) == 0x4ef1c4f6 by {
      XorZero(0x4e);
      XorStep(0x4e, 0x0, 0x4e, 0x4eb, 0x4, 0x4ef);
      XorStep(0x4eb, 0x4, 0x4ef, 0x4eb4, 0x45, 0x4ef1);
      XorStep(0x4eb4, 0x45, 0x4ef1, 0x4eb44, 0x458, 0x4ef1c);
      XorStep(0x4eb44, 0x458, 0x4ef1c, 0x4eb447, 0x4583, 0x4ef1c4);
      XorStep(0x4eb447, 0x4583, 0x4ef1c4, 0x4eb4472, 0x4583d, 0x4ef1c4f);
      XorStep(0x4eb4472, 0x4583d, 0x4ef1c4f, 0x4eb44727, 0x4583d1, 0x4ef1c4f6);
    }
    assert Xor(0x4ef1c4f6, 5) == 0x4ef1c4f3 by {
      XorZero(0x4ef1c4f);
      XorStep(0x4ef1c4f, 0x0, 0x4ef1c4f, 0x4ef1c4f6, 0x5, 0x4ef1c4f3);
    }
    MixedBoth();
  }
}
