/**
 The checksum of an SCTP packet as it goes over the wire: which byte of the CRC goes where, and
 the constant that a register is left with by a message and its checksum (Appendix B of
 RFC 4960).
 */
module CrcOnWire {
  import opened Bytes
  import opened Folding
  import opened Arithmetic
  import opened Crc32c
  import opened Layers

  // ---------------------------------------------------------------- bytes of a register

  lemma ByteFits(x: bv32)
    ensures (x & 0xff) as int < 0x100
  {
  }

  /** The k-th byte of a register, the least significant one first. */
  function RegisterByte(c: bv32, k: nat): byte
    requires k < 4
  {
    if k == 0 then ByteFits(c); (c & 0xff) as int
    else if k == 1 then ByteFits(c >> 8); ((c >> 8) & 0xff) as int
    else if k == 2 then ByteFits(c >> 16); ((c >> 16) & 0xff) as int
    else ByteFits(c >> 24); ((c >> 24) & 0xff) as int
  }

  function Low24(x: bv32): int { (x & 0xff_ffff) as int }

  function Low16(x: bv32): int { (x & 0xffff) as int }

  lemma TopByte(x: bv32)
    ensures x as int == 0x100_0000 * RegisterByte(x, 3) + Low24(x)
  {
  }

  lemma NextByte(x: bv32)
    ensures Low24(x) == 0x1_0000 * RegisterByte(x, 2) + Low16(x)
  {
  }

  lemma LowBytes(x: bv32)
    ensures Low16(x) == 0x100 * RegisterByte(x, 1) + RegisterByte(x, 0)
  {
  }

  lemma RegisterSum(x: bv32)
    ensures x as int ==
      0x100_0000 * RegisterByte(x, 3) + 0x1_0000 * RegisterByte(x, 2) + 0x100 * RegisterByte(x, 1) + RegisterByte(x, 0)
  {
    hide RegisterByte, Low24, Low16;
    TopByte(x);
    NextByte(x);
    LowBytes(x);
  }

  lemma FourBytes(b3: byte, b2: byte, b1: byte, b0: byte)
    ensures var v := 0x100_0000 * b3 + 0x1_0000 * b2 + 0x100 * b1 + b0;
            v < 0x1_0000_0000 && Be32Bytes(v) == [b3, b2, b1, b0]
  {
  }

  lemma Swapped(c: bv32)
    ensures SwapBytes(c) & 0xff == (c >> 24) & 0xff && (SwapBytes(c) >> 8) & 0xff == (c >> 16) & 0xff
    ensures (SwapBytes(c) >> 16) & 0xff == (c >> 8) & 0xff && (SwapBytes(c) >> 24) & 0xff == c & 0xff
  {
  }

  lemma SwappedBytes(c: bv32)
    ensures RegisterByte(SwapBytes(c), 0) == RegisterByte(c, 3) && RegisterByte(SwapBytes(c), 1) == RegisterByte(c, 2)
    ensures RegisterByte(SwapBytes(c), 2) == RegisterByte(c, 1) && RegisterByte(SwapBytes(c), 3) == RegisterByte(c, 0)
  {
    hide SwapBytes;
    Swapped(c);
  }

  lemma OnWire(v: u32, b0: byte, b1: byte, b2: byte, b3: byte)
    requires v == 0x100_0000 * (b0 as int) + 0x1_0000 * (b1 as int) + 0x100 * (b2 as int) + b3
    ensures Be32Bytes(v) == [b0, b1, b2, b3]
  {
    FourBytes(b0, b1, b2, b3);
  }

  /** The memory image of a register that is sent in the byte order of SwapBytes. */
  lemma SwappedOnWire(c: bv32)
    ensures Be32Bytes(SwapBytes(c) as int) == [RegisterByte(c, 0), RegisterByte(c, 1), RegisterByte(c, 2), RegisterByte(c, 3)]
  {
    hide SwapBytes, Be32Bytes, RegisterByte;
    SwappedBytes(c);
    RegisterSum(SwapBytes(c));
    OnWire(SwapBytes(c) as int, RegisterByte(c, 0), RegisterByte(c, 1), RegisterByte(c, 2), RegisterByte(c, 3));
  }

  /** The least significant byte of the CRC goes first. */
  lemma CrcBytes(m: seq<byte>)
    ensures forall k :: 0 <= k < 4 ==> Be32Bytes(CrcField(m))[k] == RegisterByte(Crc(m), k)
  {
    hide SwapBytes, Be32Bytes, RegisterByte, Crc;
    SwappedOnWire(Crc(m));
    assert Be32Bytes(CrcField(m)) == [RegisterByte(Crc(m), 0), RegisterByte(Crc(m), 1), RegisterByte(Crc(m), 2), RegisterByte(Crc(m), 3)];
  }

  /** What parse_sctp tests, byte by byte. */
  lemma CrcMatchesIff(w: seq<byte>)
    requires |w| >= 12
    ensures CrcMatches(w) <==>
      forall k :: 0 <= k < 4 ==> w[8 + k] == RegisterByte(Crc(w[..8] + [0, 0, 0, 0] + w[12..]), k)
  {
    hide CrcField, RegisterByte, Crc, Be32Bytes, Be32;
    var z := w[..8] + [0, 0, 0, 0] + w[12..];
    assert Splice(w, 8, Zeros(4)) == z;
    CrcBytes(z);
    var b := Be32Bytes(CrcField(z));
    Be32OfBytes(w, 8);
    assert w[8..12] == [w[8], w[9], w[10], w[11]];
    if forall k :: 0 <= k < 4 ==> w[8 + k] == RegisterByte(Crc(z), k) {
      assert w[8 + 0] == b[0] && w[8 + 1] == b[1] && w[8 + 2] == b[2] && w[8 + 3] == b[3];
      assert b == w[8..12];
      SameValue(w, b);
    }
  }

  lemma SameValue(w: seq<byte>, b: seq<byte>)
    requires |w| >= 12 && |b| == 4 && b == w[8..12]
    ensures Be32(w, 8) == Be32(b, 0)
  {
  }

  // ---------------------------------------------------------------- bits of a number

  lemma DoubleIs(w: bv32)
    requires w & 0x8000_0000 == 0
    ensures (w << 1) as int == 2 * (w as int)
  {
  }

  lemma DoubleAndOne(w: bv32)
    requires w & 0x8000_0000 == 0
    ensures ((w << 1) ^ 1) as int == 2 * (w as int) + 1
  {
  }

  lemma AppendBit(w: bv32, bit: bool)
    requires w & 0x8000_0000 == 0
    ensures Xor(Double(w), Unit(bit)) as int == 2 * (w as int) + if bit then 1 else 0
  {
    DoubleIs(w);
    DoubleAndOne(w);
    if !bit { XorZero(w << 1); }
  }

  lemma TopBit()
    ensures Pow2(31) == 0x8000_0000 && Pow2(32) == 0x1_0000_0000
  {
    assert Pow2(8) == 0x100 && Pow2(16) == 0x1_0000 && Pow2(24) == 0x100_0000;
  }

  lemma BitsBelow(w: bv32, n: nat)
    requires n < 32 && w as int < Pow2(n)
    ensures w & 0x8000_0000 == 0
  {
    hide Pow2;
    if n < 31 { Pow2Monotone(n, 31); }
    TopBit();
    BelowHalf(w);
  }

  lemma BelowHalf(w: bv32)
    requires w as int < 0x8000_0000
    ensures w & 0x8000_0000 == 0
  {
  }

  /** The word of the bits of a number is the number. */
  lemma {:induction false} WordOfBits(v: nat, n: nat)
    requires n <= 32 && v < Pow2(n)
    ensures Word(BitsOf(v, n)) as int == v
    decreases n
  {
    hide Xor, Double, Unit, Word, BitsOf;
    if n == 0 {
      NoBits(v);
    } else {
      WordOfBits(v / 2, n - 1);
      BitsBelow(Word(BitsOf(v / 2, n - 1)), n - 1);
      AppendBit(Word(BitsOf(v / 2, n - 1)), v % 2 == 1);
      FirstBit(v, n);
    }
  }

  lemma NoBits(v: nat)
    ensures Word(BitsOf(v, 0)) == 0
  {
  }

  lemma FirstBit(v: nat, n: nat)
    requires n > 0
    ensures Word(BitsOf(v, n)) == Xor(Double(Word(BitsOf(v / 2, n - 1))), Unit(v % 2 == 1))
  {
    hide Xor, Double, Unit;
    assert BitsOf(v, n)[1..] == BitsOf(v / 2, n - 1);
  }

  /** A byte enters the register as the number that it is. */
  lemma WidenIsByte(b: byte)
    ensures Widen(b) as int == b
  {
    assert Pow2(4) == 16 && Pow2(8) == 256;
    WordOfBits(b, 8);
  }

  // ---------------------------------------------------------------- the residue

  lemma {:induction false} BitsJoin(a: nat, n: nat, b: nat, m: nat)
    requires a < Pow2(n)
    ensures BitsOf(a + Pow2(n) * b, n + m) == BitsOf(a, n) + BitsOf(b, m)
    decreases n
  {
    hide BitsOf;
    if n == 0 {
      NoBitsOf(a);
    } else {
      JoinHalves(a, n, b);
      BitsJoin(a / 2, n - 1, b, m);
      BitsUnfold(a + Pow2(n) * b, n + m);
      BitsUnfold(a, n);
    }
  }

  lemma JoinHalves(a: nat, n: nat, b: nat)
    requires n > 0 && a < Pow2(n)
    ensures a / 2 < Pow2(n - 1)
    ensures (a + Pow2(n) * b) / 2 == a / 2 + Pow2(n - 1) * b && (a + Pow2(n) * b) % 2 == a % 2
  {
    var q, h := Pow2(n - 1), Pow2(n - 1) * b;
    assert Pow2(n) == 2 * q;
    TwiceTimes(q, b);
    hide Pow2;
  }

  lemma TwiceTimes(q: nat, b: nat)
    ensures (2 * q) * b == 2 * (q * b)
  {
  }

  lemma NoBitsOf(v: nat)
    ensures BitsOf(v, 0) == [] && Pow2(0) == 1
  {
  }

  lemma BitsUnfold(v: nat, n: nat)
    requires n > 0
    ensures BitsOf(v, n) == [v % 2 == 1] + BitsOf(v / 2, n - 1)
  {
  }

  /** Four bytes as a stream are the bits of the number that they make, the first byte lowest. */
  lemma FourByteStream(b0: byte, b1: byte, b2: byte, b3: byte)
    ensures BitStream([b0, b1, b2, b3]) == BitsOf(0x100_0000 * b3 + 0x1_0000 * b2 + 0x100 * b1 + b0, 32)
  {
    hide BitsOf, Bits;
    Stream4(b0, b1, b2, b3);
    ByteBits(b0);
    ByteBits(b1);
    ByteBits(b2);
    ByteBits(b3);
    assert Pow2(4) == 16 && Pow2(8) == 0x100;
    BitsJoin(b2, 8, b3, 8);
    BitsJoin(b1, 8, 0x100 * b3 + b2, 16);
    BitsJoin(b0, 8, 0x1_0000 * b3 + 0x100 * b2 + b1, 24);
  }

  lemma ByteBits(b: byte)
    ensures Bits(b) == BitsOf(b, 8)
  {
  }

  lemma Stream4(b0: byte, b1: byte, b2: byte, b3: byte)
    ensures BitStream([b0, b1, b2, b3]) == Bits(b0) + (Bits(b1) + (Bits(b2) + Bits(b3)))
  {
    hide Bits;
    assert [b0, b1, b2, b3][1..] == [b1, b2, b3];
    assert [b1, b2, b3][1..] == [b2, b3];
    assert [b2, b3][1..] == [b3];
    assert [b3][1..] == [];
    assert BitStream([b3]) == Bits(b3);
    assert BitStream([b2, b3]) == Bits(b2) + Bits(b3);
    assert BitStream([b1, b2, b3]) == Bits(b1) + (Bits(b2) + Bits(b3));
  }

  lemma SameNumber(x: bv32, y: bv32)
    requires x as int == y as int
    ensures x == y
  {
    assert (x as int) as bv32 == x && (y as int) as bv32 == y;
  }

  /** The word of the bytes of a register is the register. */
  lemma WordOfRegister(c: bv32, w: seq<byte>)
    requires |w| == 4 && forall k :: 0 <= k < 4 ==> w[k] == RegisterByte(c, k)
    ensures |BitStream(w)| == 32 && Word(BitStream(w)) == c
  {
    hide RegisterByte, Word, BitStream, BitsOf;
    assert w == [w[0], w[1], w[2], w[3]];
    FourByteStream(w[0], w[1], w[2], w[3]);
    WordOfNumber(c, 0x100_0000 * (w[3] as int) + 0x1_0000 * (w[2] as int) + 0x100 * (w[1] as int) + w[0]) by { RegisterSum(c); }
  }

  lemma WordOfNumber(c: bv32, v: nat)
    requires v == c as int
    ensures Word(BitsOf(v, 32)) == c
  {
    hide Word, BitsOf, Pow2;
    TopBit();
    WordOfBits(v, 32);
    SameNumber(Word(BitsOf(v, 32)), c);
  }

  lemma Complement(r: bv32)
    ensures Xor(r, !r) == 0xffff_ffff
  {
  }

  lemma {:induction false} IterMore(x: bv32, n: nat, m: nat)
    ensures Iter(Shift, x, n + m) == Iter(Shift, Iter(Shift, x, n), m)
    decreases n
  {
    hide Shift;
    if n > 0 { IterMore(Shift(x), n - 1, m); }
  }

  lemma ResidueSteps()
    ensures Shift8(0xffff_ffff) == 0xad82_acae && Shift8(0xad82_acae) == 0x0e9e_882d
    ensures Shift8(0x0e9e_882d) == 0x9f9b_5c85 && Shift8(0x9f9b_5c85) == 0xb798_b438
  {
  }

  lemma ResidueIs()
    ensures Iter(Shift, 0xffff_ffff, 32) == 0xb798_b438
  {
    hide Shift8, Iter;
    ResidueSteps();
    IterMore(0xffff_ffff, 8, 24);
    IterMore(0xad82_acae, 8, 16);
    IterMore(0x0e9e_882d, 8, 8);
    IterEight(0xffff_ffff);
    IterEight(0xad82_acae);
    IterEight(0x0e9e_882d);
    IterEight(0x9f9b_5c85);
  }

  /** The register after a message and four more bytes. */
  function Residue(m: seq<byte>, w: seq<byte>): bv32 {
    Fold(FeedBit, 0xffff_ffff, BitStream(m + w))
  }

  lemma ChecksumWord(m: seq<byte>)
    ensures var w := Be32Bytes(CrcField(m)); |BitStream(w)| == 32 && Word(BitStream(w)) == Crc(m)
  {
    hide Crc, CrcField, Be32Bytes, RegisterByte, Word, BitStream;
    CrcBytes(m);
    WordOfRegister(Crc(m), Be32Bytes(CrcField(m)));
  }

  lemma FeedComplement(r: bv32, bits: seq<bool>)
    requires |bits| == 32 && Word(bits) == !r
    ensures Fold(FeedBit, r, bits) == 0xb798_b438
  {
    hide Fold, FeedBit, Iter, Shift, Word, Xor;
    FeedIsShift(r, bits);
    Complement(r);
    ResidueIs();
  }

  /** The register after a message. */
  function Register(m: seq<byte>): bv32 {
    Fold(FeedBit, 0xffff_ffff, BitStream(m))
  }

  lemma ResidueIsFed(m: seq<byte>, w: seq<byte>)
    ensures Residue(m, w) == Fold(FeedBit, Register(m), BitStream(w))
  {
    hide Fold, FeedBit, BitStream;
    BitStreamConcat(m, w);
    FoldConcat(FeedBit, 0xffff_ffff, BitStream(m), BitStream(w));
  }

  lemma CrcIsComplement(m: seq<byte>)
    ensures Crc(m) == !Register(m)
  {
    hide Fold, FeedBit, BitStream;
  }

  lemma ResidueOfChecksum(m: seq<byte>)
    ensures Residue(m, Be32Bytes(CrcField(m))) == 0xb798_b438
  {
    hide *;
    var w := Be32Bytes(CrcField(m));
    ResidueIsFed(m, w);
    ChecksumWord(m);
    CrcIsComplement(m);
    FeedComplement(Register(m), BitStream(w));
  }

  /** A message and four bytes behind it leave the constant in the register exactly when the four
      bytes are the checksum of the message in the order in which it is sent. */
  lemma ResidueIff(m: seq<byte>, w: seq<byte>)
    requires |w| == 4
    ensures Residue(m, w) == 0xb798_b438 <==> w == Be32Bytes(CrcField(m))
  {
    hide Fold, FeedBit, BitStream, CrcField, Be32Bytes;
    var v := Be32Bytes(CrcField(m));
    ResidueOfChecksum(m);
    if w != v {
      BitStreamConcat(m, v);
      BitStreamConcat(m, w);
      if BitStream(v) == BitStream(w) { BitStreamInjective(v, w); }
      BurstChangesRegister(0xffff_ffff, BitStream(m), BitStream(v), BitStream(w), []);
      assert BitStream(m) + BitStream(v) + [] == BitStream(m) + BitStream(v);
      assert BitStream(m) + BitStream(w) + [] == BitStream(m) + BitStream(w);
    }
  }
}
