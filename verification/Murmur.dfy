/** MurmurHash3_x86_32, and its injectivity on 4-byte keys. */
module Murmur {
  import opened Folding
  import opened Bytes

  function Rotl15(x: bv32): bv32 { (x << 15) | (x >> 17) }

  function Rotl13(x: bv32): bv32 { (x << 13) | (x >> 19) }

  function XorShift16(h: bv32): bv32 { h ^ (h >> 16) }

  function XorShift13(h: bv32): bv32 { h ^ (h >> 13) }

  function TimesC1(k: bv32): bv32 { k * 0xcc9e2d51 }

  function TimesC2(k: bv32): bv32 { k * 0x1b873593 }

  function TimesF1(h: bv32): bv32 { h * 0x85ebca6b }

  function TimesF2(h: bv32): bv32 { h * 0xc2b2ae35 }

  function TimesFive(h: bv32): bv32 { h * 5 }

  function PlusConstant(h: bv32): bv32 { h + 0xe6546b64 }

  function Xor(x: bv32, y: bv32): bv32 { x ^ y }

  /** What is done to a block, or to the tail, before it is mixed in. */
  function MixKey(k: bv32): bv32 { TimesC2(Rotl15(TimesC1(k))) }

  /** One round of the body. */
  function Round(h: bv32, k: bv32): bv32 { PlusConstant(TimesFive(Rotl13(Xor(h, MixKey(k))))) }

  /** fmix_32. */
  function Fmix(h: bv32): bv32 { XorShift16(TimesF2(XorShift13(TimesF1(XorShift16(h))))) }

  function Up16(x: bv32): bv32 { x << 16 }

  function Up8(x: bv32): bv32 { x << 8 }

  function ToWord(v: u32): bv32 { v as bv32 }

  /** The trailing bytes, the first one lowest. */
  function TailWord(tail: seq<bv32>): bv32
    requires |tail| <= 3
  {
    var k3: bv32 := if |tail| >= 3 then Xor(0, Up16(tail[2])) else 0;
    var k2 := if |tail| >= 2 then Xor(k3, Up8(tail[1])) else k3;
    if |tail| >= 1 then Xor(k2, tail[0]) else k2
  }

  function MixTail(h: bv32, tail: seq<bv32>): bv32
    requires |tail| <= 3
  {
    if tail == [] then h else Xor(h, MixKey(TailWord(tail)))
  }

  /** The hash of a key given as its 32-bit blocks, its trailing bytes and its length. */
  function Hash(blocks: seq<bv32>, tail: seq<bv32>, len: bv32, seed: bv32): bv32
    requires |tail| <= 3
  {
    Fmix(Xor(MixTail(Fold(Round, seed, blocks), tail), len))
  }

  /** The 32-bit words of a key as the host reads them. */
  function Blocks(data: seq<byte>, little: bool): (r: seq<bv32>)
    ensures |r| == |data| / 4
  {
    seq(|data| / 4, i requires 0 <= i < |data| / 4 => ToWord(Load32(data, 4 * i, little)))
  }

  /** What is left behind the last whole word. */
  function TailBytes(data: seq<byte>): (r: seq<bv32>)
    ensures |r| == |data| % 4
  {
    seq(|data| % 4, i requires 0 <= i < |data| % 4 => ToWord(data[|data| / 4 * 4 + i]))
  }

  /** The hash of a key in memory. */
  function HashBytes(data: seq<byte>, seed: bv32, little: bool): bv32
    requires |data| < 0x8000_0000
  {
    Hash(Blocks(data, little), TailBytes(data), |data| as bv32, seed)
  }

  /** MurmurHash3_x86_32: the block loop, the tail and the finalization. */
  method MurmurHash3(data: seq<byte>, seed: bv32, little: bool) returns (out: bv32)
    requires |data| < 0x8000_0000
    ensures out == HashBytes(data, seed, little)
  {
    hide Round, MixKey, Fmix, Xor, Load32, ToWord, MixTail;
    var nblocks := |data| / 4;
    ghost var blocks, rest := Blocks(data, little), TailBytes(data);
    var h1 := seed;
    var i := 0;
    while i < nblocks
      invariant 0 <= i <= nblocks
      invariant h1 == Fold(Round, seed, blocks[..i])
    {
      FoldConcat(Round, seed, blocks[..i], [blocks[i]]);
      FoldOne(h1, blocks[i]);
      assert blocks[..i + 1] == blocks[..i] + [blocks[i]];
      h1 := Round(h1, ToWord(Load32(data, 4 * i, little)));
      i := i + 1;
    }
    assert blocks[..i] == blocks;
    h1 := MixRest(h1, data[nblocks * 4..], rest);
    h1 := Xor(h1, |data| as bv32);
    out := Fmix(h1);
  }

  /** The switch on the number of trailing bytes. */
  method MixRest(h: bv32, tail: seq<byte>, ghost words: seq<bv32>) returns (h1: bv32)
    requires |tail| == |words| <= 3 && forall i :: 0 <= i < |tail| ==> words[i] == ToWord(tail[i])
    ensures h1 == MixTail(h, words)
  {
    hide MixKey, Xor, Up16, Up8, ToWord;
    h1 := h;
    var k1: bv32 := 0;
    if |tail| >= 3 { k1 := Xor(k1, Up16(ToWord(tail[2]))); }
    if |tail| >= 2 { k1 := Xor(k1, Up8(ToWord(tail[1]))); }
    if |tail| >= 1 {
      k1 := Xor(k1, ToWord(tail[0]));
      assert k1 == TailWord(words);
      h1 := Xor(h1, MixKey(k1));
    }
  }

  lemma FoldOne(h: bv32, k: bv32)
    ensures Fold(Round, h, [k]) == Round(h, k)
  {
    hide Round;
    assert [k][1..] == [];
  }

  /** The hash of a 32-bit key: one block and no tail. */
  function HashKey(key: bv32): bv32 {
    Hash([key], [], 4, 0)
  }

  /** The memory of a 32-bit number. */
  function HostBytes32(v: u32, little: bool): (r: seq<byte>)
    ensures |r| == 4
  {
    var b := Be32Bytes(v);
    if little then [b[3], b[2], b[1], b[0]] else b
  }

  /** hash_key hashes the four bytes of its argument where they are; the byte order of the host
      makes no difference. */
  lemma HashKeyIs(key: u32, little: bool)
    ensures HashBytes(HostBytes32(key, little), 0, little) == HashKey(key as bv32)
  {
    hide Hash, Load32, HostBytes32, ToWord;
    var data := HostBytes32(key, little);
    KeyWord(key, little);
    assert Blocks(data, little) == [ToWord(key)];
    assert TailBytes(data) == [];
    ToWordIs(key);
  }

  lemma ToWordIs(v: u32)
    ensures ToWord(v) == v as bv32
  {
  }

  lemma KeyWord(key: u32, little: bool)
    ensures Load32(HostBytes32(key, little), 0, little) == key
  {
    var b := Be32Bytes(key);
    assert key == Be32(b, 0);
  }

  // ---------------------------------------------------------------- known hashes

  lemma OneBlock(k: bv32, seed: bv32)
    ensures Hash([k], [], 4, seed) == Fmix(Xor(Round(seed, k), 4))
  {
    hide Fmix, Round, Xor;
    FoldOne(seed, k);
  }

  lemma OnlyTail(tail: seq<bv32>, len: bv32)
    requires 0 < |tail| <= 3
    ensures Hash([], tail, len, 0) == Fmix(Xor(Xor(0, MixKey(TailWord(tail))), len))
  {
    hide Fmix, MixKey, TailWord, Xor;
  }

  lemma TailWords()
    ensures TailWord([0x21]) == 0x21 && TailWord([0x21, 0x43]) == 0x4321 && TailWord([0x21, 0x43, 0x65]) == 0x65_4321
  {
  }

  /** The values that are published for MurmurHash3_x86_32, for keys with and without tail. */
  lemma KnownHashes()
    ensures Hash([0], [], 4, 0) == 0x2362_f9de
    ensures Hash([0x8765_4321], [], 4, 0) == 0xf55b_516b && Hash([0x8765_4321], [], 4, 0x5082_edee) == 0x2362_f9de
    ensures Hash([], [0x21], 1, 0) == 0x7266_1cf4 && Hash([], [0x21, 0x43], 2, 0) == 0xa0f7_b07a
    ensures Hash([], [0x21, 0x43, 0x65], 3, 0) == 0x7e4a_8634
  {
    hide Hash, TailWord;
    OneBlock(0, 0);
    OneBlock(0x8765_4321, 0);
    OneBlock(0x8765_4321, 0x5082_edee);
    TailWords();
    OnlyTail([0x21], 1);
    OnlyTail([0x21, 0x43], 2);
    OnlyTail([0x21, 0x43, 0x65], 3);
  }

  // ---------------------------------------------------------------- every step is invertible

  // Each step has an inverse, so each step is injective.

  function UnRotl15(z: bv32): bv32 { (z >> 15) | (z << 17) }

  function UnRotl13(z: bv32): bv32 { (z >> 13) | (z << 19) }

  function UnXorShift16(z: bv32): bv32 { z ^ (z >> 16) }

  function UnXorShift13(z: bv32): bv32 { z ^ (z >> 13) ^ (z >> 26) }

  function DivC1(z: bv32): bv32 { z * 0xdee13bb1 }

  function DivC2(z: bv32): bv32 { z * 0x56ed309b }

  function DivF1(z: bv32): bv32 { z * 0xa5cb9243 }

  function DivF2(z: bv32): bv32 { z * 0x7ed1b41d }

  function DivFive(z: bv32): bv32 { z * 0xcccccccd }

  lemma Rotl15Inverse(x: bv32)
    ensures UnRotl15(Rotl15(x)) == x
  {
  }

  lemma Rotl13Inverse(x: bv32)
    ensures UnRotl13(Rotl13(x)) == x
  {
  }

  lemma XorShift16Undone(x: bv32)
    ensures UnXorShift16(x ^ (x >> 16)) == x
  {
  }

  lemma XorShift16Inverse(x: bv32)
    ensures UnXorShift16(XorShift16(x)) == x
  {
    hide UnXorShift16;
    XorShift16Undone(x);
  }

  lemma XorShift13Undone(x: bv32)
    ensures UnXorShift13(x ^ (x >> 13)) == x
  {
  }

  lemma XorShift13Inverse(x: bv32)
    ensures UnXorShift13(XorShift13(x)) == x
  {
    hide UnXorShift13;
    XorShift13Undone(x);
  }

  lemma TimesC1Undone(x: bv32)
    ensures DivC1(x * 0xcc9e2d51) == x
  {
  }

  lemma TimesC1Inverse(x: bv32)
    ensures DivC1(TimesC1(x)) == x
  {
    hide DivC1;
    TimesC1Undone(x);
  }

  lemma TimesC2Undone(x: bv32)
    ensures DivC2(x * 0x1b873593) == x
  {
  }

  lemma TimesC2Inverse(x: bv32)
    ensures DivC2(TimesC2(x)) == x
  {
    hide DivC2;
    TimesC2Undone(x);
  }

  lemma TimesF1Undone(x: bv32)
    ensures DivF1(x * 0x85ebca6b) == x
  {
  }

  lemma TimesF1Inverse(x: bv32)
    ensures DivF1(TimesF1(x)) == x
  {
    hide DivF1;
    TimesF1Undone(x);
  }

  lemma TimesF2Undone(x: bv32)
    ensures DivF2(x * 0xc2b2ae35) == x
  {
  }

  lemma TimesF2Inverse(x: bv32)
    ensures DivF2(TimesF2(x)) == x
  {
    hide DivF2;
    TimesF2Undone(x);
  }

  lemma TimesFiveUndone(x: bv32)
    ensures DivFive(x * 5) == x
  {
  }

  lemma TimesFiveInverse(x: bv32)
    ensures DivFive(TimesFive(x)) == x
  {
    hide DivFive;
    TimesFiveUndone(x);
  }

  lemma XorInverse(h: bv32, x: bv32)
    ensures Xor(Xor(h, x), h) == x
    ensures Xor(Xor(x, h), h) == x
  {
  }

  lemma PlusConstantInverse(x: bv32)
    ensures PlusConstant(x) - 0xe6546b64 == x
  {
  }

  /** The block from the result of MixKey. */
  function UnmixKey(z: bv32): bv32 { DivC1(UnRotl15(DivC2(z))) }

  lemma MixKeyInverse(k: bv32)
    ensures UnmixKey(MixKey(k)) == k
  {
    hide TimesC1, TimesC2, Rotl15, DivC1, DivC2, UnRotl15;
    TimesC1Inverse(k);
    Rotl15Inverse(TimesC1(k));
    TimesC2Inverse(Rotl15(TimesC1(k)));
  }

  /** The mixed state from the result of a round. */
  function Unround(z: bv32): bv32 { UnRotl13(DivFive(z - 0xe6546b64)) }

  lemma RoundInverse(h: bv32, k: bv32)
    ensures Unround(Round(h, k)) == Xor(h, MixKey(k))
  {
    hide Xor, MixKey, Rotl13, TimesFive, DivFive, UnRotl13, PlusConstant;
    var x := Xor(h, MixKey(k));
    Rotl13Inverse(x);
    TimesFiveInverse(Rotl13(x));
    PlusConstantInverse(TimesFive(Rotl13(x)));
  }

  function Unfmix(z: bv32): bv32 { UnXorShift16(DivF1(UnXorShift13(DivF2(UnXorShift16(z))))) }

  lemma FmixInverse(h: bv32)
    ensures Unfmix(Fmix(h)) == h
  {
    hide XorShift16, UnXorShift16, XorShift13, UnXorShift13, TimesF1, TimesF2, DivF1, DivF2;
    var a := XorShift16(h);
    var b := TimesF1(a);
    var c := XorShift13(b);
    XorShift16Inverse(h);
    TimesF1Inverse(a);
    XorShift13Inverse(b);
    TimesF2Inverse(c);
    XorShift16Inverse(TimesF2(c));
  }

  /** A key can be computed back from its hash, whatever the seed. */
  function Unhash(hash: bv32, seed: bv32): bv32 {
    UnmixKey(Xor(Unround(Xor(Unfmix(hash), 4)), seed))
  }

  lemma UnhashInverse(key: bv32, seed: bv32)
    ensures Unhash(Hash([key], [], 4, seed), seed) == key
  {
    hide Round, Unround, MixKey, UnmixKey, Fmix, Unfmix, Xor, Fold;
    FoldOne(seed, key);
    var h := Round(seed, key);
    assert Hash([key], [], 4, seed) == Fmix(Xor(h, 4));
    FmixInverse(Xor(h, 4));
    XorInverse(4, h);
    RoundInverse(seed, key);
    XorInverse(seed, MixKey(key));
    MixKeyInverse(key);
  }

  /** hash_key has no collisions. */
  lemma HashKeyInjective(x: bv32, y: bv32)
    ensures HashKey(x) == HashKey(y) <==> x == y
  {
    hide Hash, Unhash;
    UnhashInverse(x, 0);
    UnhashInverse(y, 0);
  }
}
