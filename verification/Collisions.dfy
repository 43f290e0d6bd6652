/** What the hash does to whole keys (include/ofp/hash.h): the bijections of the single steps give, for keys
    of any length, exactly one word that leads to a wanted hash. */
module Collisions {
  import opened Bytes
  import opened Hash

  // ---- whole keys ----

  /** The state before a run of blocks, given the state after it. */
  ghost function Unblocks(h: Word, key: Bytes, littleEndian: bool): Word
    decreases |key|
  {
    if |key| < 4 then h else Unround(Unblocks(h, key[4..], littleEndian), LoadWord(key[..4], littleEndian))
  }

  lemma {:induction false} BlocksInverse(h: Word, key: Bytes, littleEndian: bool)
    ensures Unblocks(Blocks(h, key, littleEndian), key, littleEndian) == h
    ensures Blocks(Unblocks(h, key, littleEndian), key, littleEndian) == h
    decreases |key|
  {
    hide Round, Unround, LoadWord;
    if |key| >= 4 {
      var w := LoadWord(key[..4], littleEndian);
      RoundInverse(h, w);
      BlocksInverse(Round(h, w), key[4..], littleEndian);
      BlocksInverse(h, key[4..], littleEndian);
      RoundInverse(Unblocks(h, key[4..], littleEndian), w);
    }
  }

  lemma {:induction false} BlocksAppend(h: Word, a: Bytes, b: Bytes, littleEndian: bool)
    requires |a| % 4 == 0
    ensures Blocks(h, a + b, littleEndian) == Blocks(Blocks(h, a, littleEndian), b, littleEndian)
    decreases |a|
  {
    hide Round, LoadWord;
    if a == [] {
      assert a + b == b;
    } else {
      assert (a + b)[..4] == a[..4] && (a + b)[4..] == a[4..] + b;
      BlocksAppend(Round(h, LoadWord(a[..4], littleEndian)), a[4..], b, littleEndian);
    }
  }

  /** The state from which the tail and the final mix lead to `target`. */
  ghost function EndState(target: Word, tail: Bytes, size: Word, littleEndian: bool): Word
    requires |tail| < 4
  {
    Xor(Xor(Unmix(target), size), Scramble(LoadTail(tail, littleEndian)))
  }

  /** The only word that, placed between `pre` and `post`, makes the key hash to `target`. */
  ghost function SolveWord(pre: Bytes, post: Bytes, target: Word, littleEndian: bool): (w: Bytes)
    requires |pre| % 4 == 0 && |pre| + 4 + |post| < TWO32
    ensures |w| == 4
  {
    hide Xor, Unscramble, StoreWord, Blocks, Unblocks, RotateRight13, OverFive, EndState;
    var after := Unblocks(EndState(target, Tail(post), |pre| + 4 + |post|, littleEndian), post, littleEndian);
    var before := Blocks(SEED, pre, littleEndian);
    StoreWord(Unscramble(Xor(RotateRight13(OverFive(after)), before)), littleEndian)
  }

  lemma {:induction false} UnblocksIff(h: Word, key: Bytes, target: Word, littleEndian: bool)
    ensures Blocks(h, key, littleEndian) == target <==> h == Unblocks(target, key, littleEndian)
  {
    BlocksInverse(h, key, littleEndian);
    BlocksInverse(target, key, littleEndian);
  }

  lemma XorIff(x: Word, y: Word, z: Word)
    ensures Xor(x, y) == z <==> x == Xor(z, y)
  {
    XorCancel(x, y);
    XorCancel(z, y);
  }

  lemma {:induction false} FinishIff(h: Word, tail: Bytes, size: Word, target: Word, littleEndian: bool)
    requires |tail| < 4
    ensures Finish(h, tail, size, littleEndian) == target
       <==> h == EndState(target, tail, size, littleEndian)
  {
    hide Xor, Scramble, FinalMix, Unmix, LoadTail;
    var s := Scramble(LoadTail(tail, littleEndian));
    FinalMixInverse(Xor(Xor(h, s), size));
    FinalMixInverse(target);
    XorIff(Xor(h, s), size, Unmix(target));
    XorIff(h, s, Xor(Unmix(target), size));
  }

  lemma {:induction false} RoundIff(h: Word, k: Word, target: Word)
    ensures Round(h, k) == target <==> k == Unscramble(Xor(RotateRight13(OverFive(target)), h))
  {
    hide Xor, Mul, RotateLeft13, RotateRight13, OverFive, Scramble, Unscramble;
    var s, r := Scramble(k), RotateRight13(OverFive(target));
    FiveInverse(RotateLeft13(Xor(h, s)));
    FiveInverse(target);
    Rotate13Inverse(Xor(h, s));
    Rotate13Inverse(OverFive(target));
    assert Round(h, k) == target <==> Xor(h, s) == r;
    XorSwap(h, s);
    XorIff(s, h, r);
    ScrambleInverse(k);
    ScrambleInverse(Xor(r, h));
  }

  lemma XorSwap(x: Word, y: Word)
    ensures Xor(x, y) == Xor(y, x)
  {
    XorComm(x, y);
  }

  lemma WordIff(b: Bytes, w: Word, littleEndian: bool)
    requires |b| == 4
    ensures LoadWord(b, littleEndian) == w <==> b == StoreWord(w, littleEndian)
  {
    StoreLoad(b, littleEndian);
    LoadStore(w, littleEndian);
  }

  lemma {:induction false} DigestSplit(pre: Bytes, word: Bytes, post: Bytes, littleEndian: bool)
    requires |pre| % 4 == 0 && |word| == 4 && |pre| + 4 + |post| < TWO32
    ensures |Tail(post)| < 4
    ensures Digest(pre + word + post, littleEndian) ==
      Finish(Blocks(Round(Blocks(SEED, pre, littleEndian), LoadWord(word, littleEndian)), post, littleEndian),
             Tail(post), |pre| + 4 + |post|, littleEndian)
  {
    hide Round, LoadWord, Finish;
    assert pre + word + post == pre + (word + post);
    BlocksAppend(SEED, pre, word + post, littleEndian);
    assert (word + post)[..4] == word && (word + post)[4..] == post;
    TailAppend(pre + word, post);
  }

  lemma {:induction false} DigestTail(pre: Bytes, t: Bytes, littleEndian: bool)
    requires |pre| % 4 == 0 && |t| < 4 && |pre| + |t| < TWO32
    ensures Digest(pre + t, littleEndian) == Finish(Blocks(SEED, pre, littleEndian), t, |pre| + |t|, littleEndian)
  {
    hide Finish, Blocks, Tail;
    BlocksAppend(SEED, pre, t, littleEndian);
    TailAppend(pre, t);
    ShortKey(Blocks(SEED, pre, littleEndian), t, littleEndian);
  }

  lemma ShortKey(h: Word, t: Bytes, littleEndian: bool)
    requires |t| < 4
    ensures Blocks(h, t, littleEndian) == h && Tail(t) == t
  {
    assert |t| / 4 == 0;
  }

  /** For every key length, position of an aligned word and remaining bytes, exactly one word makes
      the key hash to a given value: keys that differ in one word never collide, and no hash value
      is out of reach. */
  lemma {:induction false} WordDetermined(pre: Bytes, word: Bytes, post: Bytes, target: Word, littleEndian: bool)
    requires |pre| % 4 == 0 && |word| == 4 && |pre| + 4 + |post| < TWO32
    ensures Digest(pre + word + post, littleEndian) == target
       <==> word == SolveWord(pre, post, target, littleEndian)
  {
    hide Round, LoadWord, StoreWord, Xor, Unscramble, EndState;
    hide Blocks, Unblocks, OverFive, RotateRight13, Finish, Digest, Tail;
    var before := Blocks(SEED, pre, littleEndian);
    var k := LoadWord(word, littleEndian);
    DigestSplit(pre, word, post, littleEndian);
    var size := |pre| + 4 + |post|;
    var end := EndState(target, Tail(post), size, littleEndian);
    FinishIff(Blocks(Round(before, k), post, littleEndian), Tail(post), size, target, littleEndian);
    UnblocksIff(Round(before, k), post, end, littleEndian);
    var after := Unblocks(end, post, littleEndian);
    RoundIff(before, k, after);
    WordIff(word, Unscramble(Xor(RotateRight13(OverFive(after)), before)), littleEndian);
  }

  lemma TailAppend(a: Bytes, b: Bytes)
    requires |a| % 4 == 0
    ensures Tail(a + b) == Tail(b) && |Tail(b)| < 4
  {
    assert |a + b| / 4 * 4 == |a| + |b| / 4 * 4;
  }

  /** Two keys of one length that differ in one aligned word only never collide. */
  lemma {:induction false} OneWordNoCollision(pre: Bytes, w: Bytes, w': Bytes, post: Bytes, littleEndian: bool)
    requires |pre| % 4 == 0 && |w| == |w'| == 4 && |pre| + 4 + |post| < TWO32 && w != w'
    ensures Digest(pre + w + post, littleEndian) != Digest(pre + w' + post, littleEndian)
  {
    hide Digest, SolveWord;
    var target := Digest(pre + w + post, littleEndian);
    WordDetermined(pre, w, post, target, littleEndian);
    WordDetermined(pre, w', post, target, littleEndian);
  }

  /** On 4-byte keys, such as IPv4 addresses, the hash is injective. */
  lemma {:induction false} FourByteKeys(w: Bytes, w': Bytes, littleEndian: bool)
    requires |w| == |w'| == 4 && w != w'
    ensures Digest(w, littleEndian) != Digest(w', littleEndian)
  {
    hide Digest;
    assert [] + w + [] == w && [] + w' + [] == w';
    OneWordNoCollision([], w, w', [], littleEndian);
  }

  /** Two keys of one length that differ in the tail bytes only never collide. */
  lemma {:induction false} TailNoCollision(pre: Bytes, t: Bytes, t': Bytes, littleEndian: bool)
    requires |pre| % 4 == 0 && |t| == |t'| < 4 && |pre| + |t| < TWO32 && t != t'
    ensures Digest(pre + t, littleEndian) != Digest(pre + t', littleEndian)
  {
    hide Scramble, Xor, Unscramble, Finish, Unmix, LoadTail, Digest, Blocks;
    var h, size := Blocks(SEED, pre, littleEndian), |pre| + |t|;
    DigestTail(pre, t, littleEndian);
    DigestTail(pre, t', littleEndian);
    var target := Finish(h, t, size, littleEndian);
    FinishIff(h, t, size, target, littleEndian);
    FinishIff(h, t', size, target, littleEndian);
    if Finish(h, t', size, littleEndian) == target {
      var s, s' := Scramble(LoadTail(t, littleEndian)), Scramble(LoadTail(t', littleEndian));
      var u := Xor(Unmix(target), size);
      XorSwap(u, s);
      XorSwap(u, s');
      XorIff(s, u, h);
      XorIff(s', u, h);
      ScrambleInverse(LoadTail(t, littleEndian));
      ScrambleInverse(LoadTail(t', littleEndian));
      LoadTailInjective(t, t', littleEndian);
    }
  }

  lemma LoadTailInjective(t: Bytes, t': Bytes, littleEndian: bool)
    requires |t| == |t'| < 4 && LoadTail(t, littleEndian) == LoadTail(t', littleEndian)
    ensures t == t'
  {
    var p, p' := t + Zeros(4 - |t|), t' + Zeros(4 - |t|);
    StoreLoad(p, littleEndian);
    StoreLoad(p', littleEndian);
    assert p[..|t|] == t && p'[..|t|] == t';
  }
}
