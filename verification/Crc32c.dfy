/**
 The CRC32c of SCTP packets: the table-driven loop of the program, the serial
 shift-register division that defines it, and the errors it detects.

 Registers are 32-bit vectors. The division is the reflected one of Appendix B of
 RFC 4960: polynomial 0x82F63B78, least significant bit first, register preset to
 all ones and complemented at the end.
 */
module Crc32c {
  import opened Bytes
  import opened Folding
  import opened Arithmetic

  const POLYNOMIAL: bv32 := 0x82F63B78

  // ---------------------------------------------------------------- serial division

  /** One clock of the shift register: divide by the polynomial if a one falls out. */
  function Shift(r: bv32): bv32 {
    if Odd(r) then Xor(Half(r), POLYNOMIAL) else Half(r)
  }

  function Xor(x: bv32, y: bv32): bv32 { x ^ y }

  function Half(z: bv32): bv32 { z >> 1 }

  predicate Odd(z: bv32) { z & 1 == 1 }

  function Double(z: bv32): bv32 { z << 1 }

  function Unit(bit: bool): bv32 { if bit then 1 else 0 }

  /** One message bit: mix it into the end that falls out, and clock. */
  function FeedBit(r: bv32, bit: bool): bv32 {
    Shift(Xor(r, Unit(bit)))
  }

  /** The low n bits of a number, least significant first. */
  function BitsOf(v: nat, n: nat): (r: seq<bool>)
    ensures |r| == n
    decreases n
  {
    if n == 0 then [] else [v % 2 == 1] + BitsOf(v / 2, n - 1)
  }

  /** The bits of a byte. */
  function Bits(b: byte): (r: seq<bool>)
    ensures |r| == 8
  {
    BitsOf(b, 8)
  }

  /** A message as the stream of bits that enters the register. */
  function BitStream(message: seq<byte>): (r: seq<bool>)
    ensures |r| == 8 * |message|
  {
    if message == [] then [] else Bits(message[0]) + BitStream(message[1..])
  }

  /** The CRC of a message: preset, divide bit by bit, complement. */
  function Crc(message: seq<byte>): bv32 {
    !Fold(FeedBit, 0xFFFF_FFFF, BitStream(message))
  }

  /** The least significant byte of the CRC goes first on the wire. */
  function SwapBytes(c: bv32): bv32 {
    ((c & 0xff) << 24) | (((c >> 8) & 0xff) << 16) | (((c >> 16) & 0xff) << 8) | ((c >> 24) & 0xff)
  }

  /** The checksum field of a message, as the number read in network byte order. */
  function CrcField(message: seq<byte>): u32 {
    SwapBytes(Crc(message)) as int
  }

  // ---------------------------------------------------------------- the table

  /** Entry number i mod 8 of a row. */
  function Pick(i: bv32, e0: bv32, e1: bv32, e2: bv32, e3: bv32, e4: bv32, e5: bv32, e6: bv32, e7: bv32): bv32 {
    var k := i & 7;
    if k == 0 then e0 else if k == 1 then e1 else if k == 2 then e2 else if k == 3 then e3
    else if k == 4 then e4 else if k == 5 then e5 else if k == 6 then e6 else e7
  }

  function Row0(i: bv32): bv32 {
    Pick(i, 0x00000000, 0xF26B8303, 0xE13B70F7, 0x1350F3F4,
            0xC79A971F, 0x35F1141C, 0x26A1E7E8, 0xD4CA64EB)
  }

  function Row1(i: bv32): bv32 {
    Pick(i, 0x8AD958CF, 0x78B2DBCC, 0x6BE22838, 0x9989AB3B,
            0x4D43CFD0, 0xBF284CD3, 0xAC78BF27, 0x5E133C24)
  }

  function Row2(i: bv32): bv32 {
    Pick(i, 0x105EC76F, 0xE235446C, 0xF165B798, 0x030E349B,
            0xD7C45070, 0x25AFD373, 0x36FF2087, 0xC494A384)
  }

  function Row3(i: bv32): bv32 {
    Pick(i, 0x9A879FA0, 0x68EC1CA3, 0x7BBCEF57, 0x89D76C54,
            0x5D1D08BF, 0xAF768BBC, 0xBC267848, 0x4E4DFB4B)
  }

  function Row4(i: bv32): bv32 {
    Pick(i, 0x20BD8EDE, 0xD2D60DDD, 0xC186FE29, 0x33ED7D2A,
            0xE72719C1, 0x154C9AC2, 0x061C6936, 0xF477EA35)
  }

  function Row5(i: bv32): bv32 {
    Pick(i, 0xAA64D611, 0x580F5512, 0x4B5FA6E6, 0xB93425E5,
            0x6DFE410E, 0x9F95C20D, 0x8CC531F9, 0x7EAEB2FA)
  }

  function Row6(i: bv32): bv32 {
    Pick(i, 0x30E349B1, 0xC288CAB2, 0xD1D83946, 0x23B3BA45,
            0xF779DEAE, 0x05125DAD, 0x1642AE59, 0xE4292D5A)
  }

  function Row7(i: bv32): bv32 {
    Pick(i, 0xBA3A117E, 0x4851927D, 0x5B016189, 0xA96AE28A,
            0x7DA08661, 0x8FCB0562, 0x9C9BF696, 0x6EF07595)
  }

  function Row8(i: bv32): bv32 {
    Pick(i, 0x417B1DBC, 0xB3109EBF, 0xA0406D4B, 0x522BEE48,
            0x86E18AA3, 0x748A09A0, 0x67DAFA54, 0x95B17957)
  }

  function Row9(i: bv32): bv32 {
    Pick(i, 0xCBA24573, 0x39C9C670, 0x2A993584, 0xD8F2B687,
            0x0C38D26C, 0xFE53516F, 0xED03A29B, 0x1F682198)
  }

  function Row10(i: bv32): bv32 {
    Pick(i, 0x5125DAD3, 0xA34E59D0, 0xB01EAA24, 0x42752927,
            0x96BF4DCC, 0x64D4CECF, 0x77843D3B, 0x85EFBE38)
  }

  function Row11(i: bv32): bv32 {
    Pick(i, 0xDBFC821C, 0x2997011F, 0x3AC7F2EB, 0xC8AC71E8,
            0x1C661503, 0xEE0D9600, 0xFD5D65F4, 0x0F36E6F7)
  }

  function Row12(i: bv32): bv32 {
    Pick(i, 0x61C69362, 0x93AD1061, 0x80FDE395, 0x72966096,
            0xA65C047D, 0x5437877E, 0x4767748A, 0xB50CF789)
  }

  function Row13(i: bv32): bv32 {
    Pick(i, 0xEB1FCBAD, 0x197448AE, 0x0A24BB5A, 0xF84F3859,
            0x2C855CB2, 0xDEEEDFB1, 0xCDBE2C45, 0x3FD5AF46)
  }

  function Row14(i: bv32): bv32 {
    Pick(i, 0x7198540D, 0x83F3D70E, 0x90A324FA, 0x62C8A7F9,
            0xB602C312, 0x44694011, 0x5739B3E5, 0xA55230E6)
  }

  function Row15(i: bv32): bv32 {
    Pick(i, 0xFB410CC2, 0x092A8FC1, 0x1A7A7C35, 0xE811FF36,
            0x3CDB9BDD, 0xCEB018DE, 0xDDE0EB2A, 0x2F8B6829)
  }

  function Row16(i: bv32): bv32 {
    Pick(i, 0x82F63B78, 0x709DB87B, 0x63CD4B8F, 0x91A6C88C,
            0x456CAC67, 0xB7072F64, 0xA457DC90, 0x563C5F93)
  }

  function Row17(i: bv32): bv32 {
    Pick(i, 0x082F63B7, 0xFA44E0B4, 0xE9141340, 0x1B7F9043,
            0xCFB5F4A8, 0x3DDE77AB, 0x2E8E845F, 0xDCE5075C)
  }

  function Row18(i: bv32): bv32 {
    Pick(i, 0x92A8FC17, 0x60C37F14, 0x73938CE0, 0x81F80FE3,
            0x55326B08, 0xA759E80B, 0xB4091BFF, 0x466298FC)
  }

  function Row19(i: bv32): bv32 {
    Pick(i, 0x1871A4D8, 0xEA1A27DB, 0xF94AD42F, 0x0B21572C,
            0xDFEB33C7, 0x2D80B0C4, 0x3ED04330, 0xCCBBC033)
  }

  function Row20(i: bv32): bv32 {
    Pick(i, 0xA24BB5A6, 0x502036A5, 0x4370C551, 0xB11B4652,
            0x65D122B9, 0x97BAA1BA, 0x84EA524E, 0x7681D14D)
  }

  function Row21(i: bv32): bv32 {
    Pick(i, 0x2892ED69, 0xDAF96E6A, 0xC9A99D9E, 0x3BC21E9D,
            0xEF087A76, 0x1D63F975, 0x0E330A81, 0xFC588982)
  }

  function Row22(i: bv32): bv32 {
    Pick(i, 0xB21572C9, 0x407EF1CA, 0x532E023E, 0xA145813D,
            0x758FE5D6, 0x87E466D5, 0x94B49521, 0x66DF1622)
  }

  function Row23(i: bv32): bv32 {
    Pick(i, 0x38CC2A06, 0xCAA7A905, 0xD9F75AF1, 0x2B9CD9F2,
            0xFF56BD19, 0x0D3D3E1A, 0x1E6DCDEE, 0xEC064EED)
  }

  function Row24(i: bv32): bv32 {
    Pick(i, 0xC38D26C4, 0x31E6A5C7, 0x22B65633, 0xD0DDD530,
            0x0417B1DB, 0xF67C32D8, 0xE52CC12C, 0x1747422F)
  }

  function Row25(i: bv32): bv32 {
    Pick(i, 0x49547E0B, 0xBB3FFD08, 0xA86F0EFC, 0x5A048DFF,
            0x8ECEE914, 0x7CA56A17, 0x6FF599E3, 0x9D9E1AE0)
  }

  function Row26(i: bv32): bv32 {
    Pick(i, 0xD3D3E1AB, 0x21B862A8, 0x32E8915C, 0xC083125F,
            0x144976B4, 0xE622F5B7, 0xF5720643, 0x07198540)
  }

  function Row27(i: bv32): bv32 {
    Pick(i, 0x590AB964, 0xAB613A67, 0xB831C993, 0x4A5A4A90,
            0x9E902E7B, 0x6CFBAD78, 0x7FAB5E8C, 0x8DC0DD8F)
  }

  function Row28(i: bv32): bv32 {
    Pick(i, 0xE330A81A, 0x115B2B19, 0x020BD8ED, 0xF0605BEE,
            0x24AA3F05, 0xD6C1BC06, 0xC5914FF2, 0x37FACCF1)
  }

  function Row29(i: bv32): bv32 {
    Pick(i, 0x69E9F0D5, 0x9B8273D6, 0x88D28022, 0x7AB90321,
            0xAE7367CA, 0x5C18E4C9, 0x4F48173D, 0xBD23943E)
  }

  function Row30(i: bv32): bv32 {
    Pick(i, 0xF36E6F75, 0x0105EC76, 0x12551F82, 0xE03E9C81,
            0x34F4F86A, 0xC69F7B69, 0xD5CF889D, 0x27A40B9E)
  }

  function Row31(i: bv32): bv32 {
    Pick(i, 0x79B737BA, 0x8BDCB4B9, 0x988C474D, 0x6AE7C44E,
            0xBE2DA0A5, 0x4C4623A6, 0x5F16D052, 0xAD7D5351)
  }

  /** The constant array crc_c of the program, eight entries a row. */
  function Table(i: bv32): bv32 {
    var row := i & 0xf8;
    if row == 0x00 then Row0(i) else
    if row == 0x08 then Row1(i) else
    if row == 0x10 then Row2(i) else
    if row == 0x18 then Row3(i) else
    if row == 0x20 then Row4(i) else
    if row == 0x28 then Row5(i) else
    if row == 0x30 then Row6(i) else
    if row == 0x38 then Row7(i) else
    if row == 0x40 then Row8(i) else
    if row == 0x48 then Row9(i) else
    if row == 0x50 then Row10(i) else
    if row == 0x58 then Row11(i) else
    if row == 0x60 then Row12(i) else
    if row == 0x68 then Row13(i) else
    if row == 0x70 then Row14(i) else
    if row == 0x78 then Row15(i) else
    if row == 0x80 then Row16(i) else
    if row == 0x88 then Row17(i) else
    if row == 0x90 then Row18(i) else
    if row == 0x98 then Row19(i) else
    if row == 0xa0 then Row20(i) else
    if row == 0xa8 then Row21(i) else
    if row == 0xb0 then Row22(i) else
    if row == 0xb8 then Row23(i) else
    if row == 0xc0 then Row24(i) else
    if row == 0xc8 then Row25(i) else
    if row == 0xd0 then Row26(i) else
    if row == 0xd8 then Row27(i) else
    if row == 0xe0 then Row28(i) else
    if row == 0xe8 then Row29(i) else
    if row == 0xf0 then Row30(i) else
    Row31(i)
  }

  // ---------------------------------------------------------------- the program's loop

  /** Bits as a number, least significant first. */
  function Word(bits: seq<bool>): bv32
    decreases |bits|
  {
    if bits == [] then 0 else Xor(Double(Word(bits[1..])), Unit(bits[0]))
  }

  /** A byte widened to a register. */
  function Widen(b: byte): bv32 { Word(Bits(b)) }

  /** The macro CRC32C. */
  function TableStep(c: bv32, b: byte): bv32 {
    Xor(c >> 8, Table(Xor(c, Widen(b)) & 0xff))
  }

  /** sctp_crc32c: one table step for each byte of the packet. */
  method SctpCrc32c(packet: seq<byte>) returns (field: u32)
    ensures field == CrcField(packet)
  {
    hide TableStep, FeedBit, BitStream, Bits, Fold;
    var crc: bv32 := 0xFFFF_FFFF;
    var i := 0;
    assert Fold(FeedBit, crc, BitStream(packet[..0])) == crc by { FoldNone(packet[..0], crc); }
    while i < |packet|
      invariant 0 <= i <= |packet|
      invariant crc == Fold(FeedBit, 0xFFFF_FFFF, BitStream(packet[..i]))
    {
      TableStepIsEightBits(crc, packet[i]);
      BitStreamSnoc(packet[..i], packet[i]);
      FoldConcat(FeedBit, 0xFFFF_FFFF, BitStream(packet[..i]), Bits(packet[i]));
      assert packet[..i + 1] == packet[..i] + [packet[i]];
      crc := TableStep(crc, packet[i]);
      i := i + 1;
    }
    assert packet[..i] == packet;
    field := SwapBytes(!crc) as int;
  }

  lemma FoldNone(message: seq<byte>, r: bv32)
    requires message == []
    ensures Fold(FeedBit, r, BitStream(message)) == r
  {
  }

  lemma {:induction false} BitStreamConcat(x: seq<byte>, y: seq<byte>)
    ensures BitStream(x + y) == BitStream(x) + BitStream(y)
    decreases |x|
  {
    if x == [] {
      assert x + y == y;
    } else {
      assert (x + y)[1..] == x[1..] + y;
      BitStreamConcat(x[1..], y);
    }
  }

  lemma BitStreamSnoc(x: seq<byte>, b: byte)
    ensures BitStream(x + [b]) == BitStream(x) + Bits(b)
  {
    BitStreamConcat(x, [b]);
    assert [b][1..] == [];
    assert Bits(b) + [] == Bits(b);
  }

  // ---------------------------------------------------------------- the shift register

  lemma ShiftInjective(x: bv32, y: bv32)
    requires Shift(x) == Shift(y)
    ensures x == y
  {
  }

  lemma XorCancels(x: bv32, y: bv32, u: bv32)
    requires Xor(x, u) == Xor(y, u)
    ensures x == y
  {
  }

  lemma FeedBitInjective(x: bv32, y: bv32, bit: bool)
    requires FeedBit(x, bit) == FeedBit(y, bit)
    ensures x == y
  {
    hide Xor, Shift;
    ShiftInjective(Xor(x, Unit(bit)), Xor(y, Unit(bit)));
    XorCancels(x, y, Unit(bit));
  }

  predicate Even(z: bv32) { z & 1 == 0 }

  lemma HalfXor(x: bv32, y: bv32)
    ensures Half(Xor(x, y)) == Xor(Half(x), Half(y))
  {
  }

  lemma OddXor(x: bv32, y: bv32)
    requires Even(x)
    ensures Odd(Xor(x, y)) == Odd(y)
  {
  }

  lemma XorZero(x: bv32)
    ensures Xor(x, 0) == x
  {
  }

  lemma UnitParts(bit: bool)
    ensures Half(Unit(bit)) == 0 && Odd(Unit(bit)) == bit
  {
  }

  lemma XorCommutes(x: bv32, y: bv32)
    ensures Xor(x, y) == Xor(y, x)
  {
  }

  lemma WidenFits(b: byte)
    ensures Widen(b) & 0xffff_ff00 == 0
  {
    WordFits(Bits(b));
    assert Mask(0) == 0xffff_ffff;
    MaskEight(0);
    hide Word, Bits, Mask;
  }

  lemma XorSwap(r: bv32, a: bv32, u: bv32)
    ensures Xor(r, Xor(a, u)) == Xor(Xor(r, u), a)
  {
  }

  lemma XorSlides(a: bv32, b: bv32, c: bv32)
    ensures Xor(Xor(a, b), c) == Xor(Xor(a, c), b)
  {
    hide Xor;
    XorCommutes(Xor(a, b), c);
    XorSwap(c, a, b);
    XorCommutes(c, b);
    XorSwap(b, a, c);
    XorCommutes(Xor(a, c), b);
  }

  /** Bits that have not reached the end move down one place. */
  lemma ShiftMoves(x: bv32, z: bv32)
    requires Even(z)
    ensures Shift(Xor(x, z)) == Xor(Shift(x), Half(z))
  {
    hide Xor, Half, Odd, Even;
    XorCommutes(x, z);
    OddXor(z, x);
    HalfXor(x, z);
    XorSlides(Half(x), Half(z), POLYNOMIAL);
  }

  lemma EightHalves(z: bv32)
    requires z & 0xff == 0
    ensures AllEven(Even, Half, z, 8) && Iter(Half, z, 8) == z >> 8
  {
    var z1, z2, z3, z4 := z >> 1, z >> 2, z >> 3, z >> 4;
    var z5, z6, z7, z8 := z >> 5, z >> 6, z >> 7, z >> 8;
    assert AllEven(Even, Half, z8, 0) && Iter(Half, z8, 0) == z8;
    assert AllEven(Even, Half, z7, 1) && Iter(Half, z7, 1) == z8;
    assert AllEven(Even, Half, z6, 2) && Iter(Half, z6, 2) == z8;
    assert AllEven(Even, Half, z5, 3) && Iter(Half, z5, 3) == z8;
    assert AllEven(Even, Half, z4, 4) && Iter(Half, z4, 4) == z8;
    assert AllEven(Even, Half, z3, 5) && Iter(Half, z3, 5) == z8;
    assert AllEven(Even, Half, z2, 6) && Iter(Half, z2, 6) == z8;
    assert AllEven(Even, Half, z1, 7) && Iter(Half, z1, 7) == z8;
  }

  lemma MovesEight(x: bv32, z: bv32)
    requires z & 0xff == 0
    ensures Iter(Shift, Xor(x, z), 8) == Xor(Iter(Shift, x, 8), z >> 8)
  {
    EightHalves(z);
    hide Shift, Half, Xor, Even, Iter;
    forall x: bv32, y: bv32 | Even(y) ensures Shift(Xor(x, y)) == Xor(Shift(x), Half(y)) {
      ShiftMoves(x, y);
    }
    IterMoves(Shift, Xor, Even, Half, x, z, 8);
  }

  // ---------------------------------------------------------------- words of input bits

  /** Bits n and up. */
  function Mask(n: nat): bv32
    decreases n
  {
    if n == 0 then 0xffff_ffff else Mask(n - 1) << 1
  }

  lemma {:induction false} WordFits(bits: seq<bool>)
    ensures Word(bits) & Mask(|bits|) == 0
    decreases |bits|
  {
    if bits != [] { WordFits(bits[1..]); }
  }

  lemma MaskEight(n: nat)
    ensures Mask(n + 8) == Mask(n) << 8
  {
    hide *;
    MaskFour(n);
    MaskFour(n + 4);
  }

  lemma MaskNext(n: nat)
    ensures Mask(n + 1) == Mask(n) << 1
  {
  }

  lemma MaskFour(n: nat)
    ensures Mask(n + 4) == Mask(n) << 4
  {
    MaskNext(n);
    MaskNext(n + 1);
    MaskNext(n + 2);
    MaskNext(n + 3);
    hide *;
  }

  /** A stream of at most 31 bits leaves the top bit of its word clear. */
  lemma {:induction false} MaskTop(n: nat)
    requires n <= 31
    ensures Mask(n) & 0x8000_0000 == 0x8000_0000
    decreases 31 - n
  {
    if n == 31 {
      assert Mask(3) == 0xffff_fff8;
      MaskFour(3);
      MaskEight(7);
      MaskEight(15);
      MaskEight(23);
      hide *;
    } else {
      MaskTop(n + 1);
      MaskShrinks(n);
      hide *;
    }
  }

  lemma {:induction false} MaskShrinks(n: nat)
    ensures Mask(n) & Mask(n + 1) == Mask(n + 1)
    decreases n
  {
    if n > 0 { MaskShrinks(n - 1); }
  }

  lemma WordTop(bits: seq<bool>)
    requires |bits| < 32
    ensures Word(bits) & 0x8000_0000 == 0
  {
    hide *;
    WordFits(bits);
    MaskTop(|bits|);
  }

  lemma HalfDouble(w: bv32)
    requires w & 0x8000_0000 == 0
    ensures Even(Double(w)) && Half(Double(w)) == w
  {
  }

  /** Mixing in a word and clocking is feeding its first bit and then mixing in the rest. */
  lemma FirstBitOfWord(r: bv32, bits: seq<bool>)
    requires 0 < |bits| <= 32
    ensures Shift(Xor(r, Word(bits))) == Xor(FeedBit(r, bits[0]), Word(bits[1..]))
  {
    hide Shift, Unit, Xor, Half, Double, Even;
    var u, rest := Unit(bits[0]), Word(bits[1..]);
    WordTop(bits[1..]);
    XorSwap(r, Double(rest), u);
    HalfDouble(rest);
    ShiftMoves(Xor(r, u), Double(rest));
  }

  /** Dividing by a stream of at most 32 bits is clocking with the whole stream mixed in. */
  lemma FeedIsShift(r: bv32, bits: seq<bool>)
    requires |bits| <= 32
    ensures Fold(FeedBit, r, bits) == Iter(Shift, Xor(r, Word(bits)), |bits|)
  {
    hide Shift, FeedBit, Iter, Fold;
    forall q: bv32, bs: seq<bool> | 0 < |bs| <= 32
      ensures Shift(Xor(q, Word(bs))) == Xor(FeedBit(q, bs[0]), Word(bs[1..]))
    {
      hide *;
      FirstBitOfWord(q, bs);
    }
    FoldAbsorbs(Shift, FeedBit, Xor, Word, r, bits);
    assert Word([]) == 0;
  }

  // ---------------------------------------------------------------- one table step = eight bits

  function Shift8(r: bv32): bv32 {
    Shift(Shift(Shift(Shift(Shift(Shift(Shift(Shift(r))))))))
  }

  lemma IterEight(r: bv32)
    ensures Iter(Shift, r, 8) == Shift8(r)
  {
    hide Shift;
    assert Iter(Shift, r, 8) == Iter(Shift, Shift(r), 7);
  }

  lemma RowIs0(i: bv32)
    requires i & 0xffff_fff8 == 0x00
    ensures Row0(i) == Shift8(i)
  {
  }

  lemma RowIs1(i: bv32)
    requires i & 0xffff_fff8 == 0x08
    ensures Row1(i) == Shift8(i)
  {
  }

  lemma RowIs2(i: bv32)
    requires i & 0xffff_fff8 == 0x10
    ensures Row2(i) == Shift8(i)
  {
  }

  lemma RowIs3(i: bv32)
    requires i & 0xffff_fff8 == 0x18
    ensures Row3(i) == Shift8(i)
  {
  }

  lemma RowIs4(i: bv32)
    requires i & 0xffff_fff8 == 0x20
    ensures Row4(i) == Shift8(i)
  {
  }

  lemma RowIs5(i: bv32)
    requires i & 0xffff_fff8 == 0x28
    ensures Row5(i) == Shift8(i)
  {
  }

  lemma RowIs6(i: bv32)
    requires i & 0xffff_fff8 == 0x30
    ensures Row6(i) == Shift8(i)
  {
  }

  lemma RowIs7(i: bv32)
    requires i & 0xffff_fff8 == 0x38
    ensures Row7(i) == Shift8(i)
  {
  }

  lemma RowIs8(i: bv32)
    requires i & 0xffff_fff8 == 0x40
    ensures Row8(i) == Shift8(i)
  {
  }

  lemma RowIs9(i: bv32)
    requires i & 0xffff_fff8 == 0x48
    ensures Row9(i) == Shift8(i)
  {
  }

  lemma RowIs10(i: bv32)
    requires i & 0xffff_fff8 == 0x50
    ensures Row10(i) == Shift8(i)
  {
  }

  lemma RowIs11(i: bv32)
    requires i & 0xffff_fff8 == 0x58
    ensures Row11(i) == Shift8(i)
  {
  }

  lemma RowIs12(i: bv32)
    requires i & 0xffff_fff8 == 0x60
    ensures Row12(i) == Shift8(i)
  {
  }

  lemma RowIs13(i: bv32)
    requires i & 0xffff_fff8 == 0x68
    ensures Row13(i) == Shift8(i)
  {
  }

  lemma RowIs14(i: bv32)
    requires i & 0xffff_fff8 == 0x70
    ensures Row14(i) == Shift8(i)
  {
  }

  lemma RowIs15(i: bv32)
    requires i & 0xffff_fff8 == 0x78
    ensures Row15(i) == Shift8(i)
  {
  }

  lemma RowIs16(i: bv32)
    requires i & 0xffff_fff8 == 0x80
    ensures Row16(i) == Shift8(i)
  {
  }

  lemma RowIs17(i: bv32)
    requires i & 0xffff_fff8 == 0x88
    ensures Row17(i) == Shift8(i)
  {
  }

  lemma RowIs18(i: bv32)
    requires i & 0xffff_fff8 == 0x90
    ensures Row18(i) == Shift8(i)
  {
  }

  lemma RowIs19(i: bv32)
    requires i & 0xffff_fff8 == 0x98
    ensures Row19(i) == Shift8(i)
  {
  }

  lemma RowIs20(i: bv32)
    requires i & 0xffff_fff8 == 0xa0
    ensures Row20(i) == Shift8(i)
  {
  }

  lemma RowIs21(i: bv32)
    requires i & 0xffff_fff8 == 0xa8
    ensures Row21(i) == Shift8(i)
  {
  }

  lemma RowIs22(i: bv32)
    requires i & 0xffff_fff8 == 0xb0
    ensures Row22(i) == Shift8(i)
  {
  }

  lemma RowIs23(i: bv32)
    requires i & 0xffff_fff8 == 0xb8
    ensures Row23(i) == Shift8(i)
  {
  }

  lemma RowIs24(i: bv32)
    requires i & 0xffff_fff8 == 0xc0
    ensures Row24(i) == Shift8(i)
  {
  }

  lemma RowIs25(i: bv32)
    requires i & 0xffff_fff8 == 0xc8
    ensures Row25(i) == Shift8(i)
  {
  }

  lemma RowIs26(i: bv32)
    requires i & 0xffff_fff8 == 0xd0
    ensures Row26(i) == Shift8(i)
  {
  }

  lemma RowIs27(i: bv32)
    requires i & 0xffff_fff8 == 0xd8
    ensures Row27(i) == Shift8(i)
  {
  }

  lemma RowIs28(i: bv32)
    requires i & 0xffff_fff8 == 0xe0
    ensures Row28(i) == Shift8(i)
  {
  }

  lemma RowIs29(i: bv32)
    requires i & 0xffff_fff8 == 0xe8
    ensures Row29(i) == Shift8(i)
  {
  }

  lemma RowIs30(i: bv32)
    requires i & 0xffff_fff8 == 0xf0
    ensures Row30(i) == Shift8(i)
  {
  }

  lemma RowIs31(i: bv32)
    requires i & 0xffff_fff8 == 0xf8
    ensures Row31(i) == Shift8(i)
  {
  }

  lemma LowerRows(i: bv32)
    requires i & 0xffff_ff80 == 0
    ensures Table(i) == Shift8(i)
  {
    hide Row0, Row1, Row2, Row3, Row4, Row5, Row6, Row7, Row8, Row9, Row10, Row11, Row12, Row13, Row14, Row15, Shift8;
    var row := i & 0xf8;
    assert i & 0xffff_fff8 == row;
    if row == 0x00 { RowIs0(i); }
    if row == 0x08 { RowIs1(i); }
    if row == 0x10 { RowIs2(i); }
    if row == 0x18 { RowIs3(i); }
    if row == 0x20 { RowIs4(i); }
    if row == 0x28 { RowIs5(i); }
    if row == 0x30 { RowIs6(i); }
    if row == 0x38 { RowIs7(i); }
    if row == 0x40 { RowIs8(i); }
    if row == 0x48 { RowIs9(i); }
    if row == 0x50 { RowIs10(i); }
    if row == 0x58 { RowIs11(i); }
    if row == 0x60 { RowIs12(i); }
    if row == 0x68 { RowIs13(i); }
    if row == 0x70 { RowIs14(i); }
    if row == 0x78 { RowIs15(i); }
  }

  lemma MiddleRows(i: bv32)
    requires i & 0xffff_ffc0 == 0x80
    ensures Table(i) == Shift8(i)
  {
    hide Row16, Row17, Row18, Row19, Row20, Row21, Row22, Row23, Row24, Row25, Row26, Row27, Row28, Row29, Row30, Row31, Shift8;
    var row := i & 0xf8;
    assert i & 0xffff_fff8 == row;
    if row == 0x80 { RowIs16(i); }
    if row == 0x88 { RowIs17(i); }
    if row == 0x90 { RowIs18(i); }
    if row == 0x98 { RowIs19(i); }
    if row == 0xa0 { RowIs20(i); }
    if row == 0xa8 { RowIs21(i); }
    if row == 0xb0 { RowIs22(i); }
    if row == 0xb8 { RowIs23(i); }
  }

  lemma UpperRows(i: bv32)
    requires i & 0xffff_ffc0 == 0xc0
    ensures Table(i) == Shift8(i)
  {
    hide Row16, Row17, Row18, Row19, Row20, Row21, Row22, Row23, Row24, Row25, Row26, Row27, Row28, Row29, Row30, Row31, Shift8;
    var row := i & 0xf8;
    assert i & 0xffff_fff8 == row;
    if row == 0xc0 { RowIs24(i); }
    if row == 0xc8 { RowIs25(i); }
    if row == 0xd0 { RowIs26(i); }
    if row == 0xd8 { RowIs27(i); }
    if row == 0xe0 { RowIs28(i); }
    if row == 0xe8 { RowIs29(i); }
    if row == 0xf0 { RowIs30(i); }
    if row == 0xf8 { RowIs31(i); }
  }

  /** The table holds the register after eight clocks, for every low byte. */
  lemma TableIsShift8(i: bv32)
    requires i & 0xffff_ff00 == 0
    ensures Table(i) == Shift8(i)
  {
    hide Table, Shift8;
    if i & 0xffff_ff80 == 0 { LowerRows(i); } else if i & 0xffff_ffc0 == 0x80 { MiddleRows(i); } else { UpperRows(i); }
  }

  lemma SplitByte(z: bv32)
    ensures Xor(z & 0xff, z & 0xffff_ff00) == z
    ensures (z & 0xffff_ff00) & 0xff == 0
    ensures (z & 0xff) & 0xffff_ff00 == 0
  {
  }

  lemma HighBytes(c: bv32, w: bv32)
    requires w & 0xffff_ff00 == 0
    ensures (Xor(c, w) & 0xffff_ff00) >> 8 == c >> 8
  {
  }

  /** One table step advances the register by the eight bits of its byte. */
  lemma TableStepIsEightBits(c: bv32, b: byte)
    ensures TableStep(c, b) == Fold(FeedBit, c, Bits(b))
  {
    hide Table, Shift8, Shift, Word, Bits, BitsOf, FeedBit, Iter, Fold, Mask, Xor;
    var w := Widen(b);
    var z := Xor(c, w);
    WidenFits(b);
    SplitByte(z);
    HighBytes(c, w);
    TableIsShift8(z & 0xff);
    IterEight(z & 0xff);
    MovesEight(z & 0xff, z & 0xffff_ff00);
    XorCommutes(c >> 8, Table(z & 0xff));
    FeedIsShift(c, Bits(b));
  }

  // ---------------------------------------------------------------- error detection

  lemma UnitBit(w: bv32, bit: bool)
    requires w & 0x8000_0000 == 0
    ensures Half(Xor(Double(w), Unit(bit))) == w && Odd(Xor(Double(w), Unit(bit))) == bit
  {
    hide *;
    HalfDouble(w);
    HalfXor(Double(w), Unit(bit));
    OddXor(Double(w), Unit(bit));
    UnitParts(bit);
    XorZero(w);
  }

  /** Streams of the same length of at most 32 bits are told apart by their words. */
  lemma {:induction false} WordInjective(x: seq<bool>, y: seq<bool>)
    requires |x| == |y| <= 32 && Word(x) == Word(y)
    ensures x == y
    decreases |x|
  {
    hide Xor, Double, Unit, Half, Odd;
    if x != [] {
      WordTop(x[1..]);
      WordTop(y[1..]);
      UnitBit(Word(x[1..]), x[0]);
      UnitBit(Word(y[1..]), y[0]);
      WordInjective(x[1..], y[1..]);
      assert x == [x[0]] + x[1..] && y == [y[0]] + y[1..];
    }
  }

  /** Two streams that agree outside a window of at most 32 bits, and differ inside it,
      leave different registers. */
  lemma BurstChangesRegister(r: bv32, before: seq<bool>, x: seq<bool>, y: seq<bool>, after: seq<bool>)
    requires |x| == |y| <= 32 && x != y
    ensures Fold(FeedBit, r, before + x + after) != Fold(FeedBit, r, before + y + after)
  {
    hide FeedBit, Shift, Xor, Fold, Iter, Word;
    var s := Fold(FeedBit, r, before);
    FoldConcat(FeedBit, r, before, x);
    FoldConcat(FeedBit, r, before, y);
    FoldConcat(FeedBit, r, before + x, after);
    FoldConcat(FeedBit, r, before + y, after);
    if Fold(FeedBit, Fold(FeedBit, s, x), after) == Fold(FeedBit, Fold(FeedBit, s, y), after) {
      forall a, b, c | FeedBit(a, c) == FeedBit(b, c) ensures a == b { FeedBitInjective(a, b, c); }
      FoldInjective(FeedBit, Fold(FeedBit, s, x), Fold(FeedBit, s, y), after);
      FeedIsShift(s, x);
      FeedIsShift(s, y);
      forall a, b | Shift(a) == Shift(b) ensures a == b { ShiftInjective(a, b); }
      IterInjective(Shift, Xor(s, Word(x)), Xor(s, Word(y)), |x|);
      XorCommutes(s, Word(x));
      XorCommutes(s, Word(y));
      XorCancels(Word(x), Word(y), s);
      WordInjective(x, y);
    }
  }

  lemma {:induction false} BitsOfInjective(v: nat, w: nat, n: nat)
    requires v < Pow2(n) && w < Pow2(n) && BitsOf(v, n) == BitsOf(w, n)
    ensures v == w
    decreases n
  {
    if n > 0 {
      assert BitsOf(v, n)[0] == BitsOf(w, n)[0];
      assert BitsOf(v, n)[1..] == BitsOf(v / 2, n - 1) && BitsOf(w, n)[1..] == BitsOf(w / 2, n - 1);
      BitsOfInjective(v / 2, w / 2, n - 1);
    }
  }

  lemma BitsInjective(a: byte, b: byte)
    requires Bits(a) == Bits(b)
    ensures a == b
  {
    assert Pow2(2) == 4 && Pow2(4) == 16 && Pow2(6) == 64 && Pow2(8) == 256;
    BitsOfInjective(a, b, 8);
  }

  lemma {:induction false} BitStreamInjective(x: seq<byte>, y: seq<byte>)
    requires |x| == |y| && BitStream(x) == BitStream(y)
    ensures x == y
    decreases |x|
  {
    hide Bits;
    if x != [] {
      var s, t := BitStream(x), BitStream(y);
      assert s[..8] == Bits(x[0]) && s[8..] == BitStream(x[1..]);
      assert t[..8] == Bits(y[0]) && t[8..] == BitStream(y[1..]);
      BitsInjective(x[0], y[0]);
      BitStreamInjective(x[1..], y[1..]);
      assert x == [x[0]] + x[1..] && y == [y[0]] + y[1..];
    }
  }

  lemma CrcFieldInjective(x: bv32, y: bv32)
    requires SwapBytes(!x) as int == SwapBytes(!y) as int
    ensures x == y
  {
    assert (SwapBytes(!x) as int) as bv32 == SwapBytes(!x);
    assert (SwapBytes(!y) as int) as bv32 == SwapBytes(!y);
    SwapBytesInjective(!x, !y);
  }

  lemma SwapBytesInjective(x: bv32, y: bv32)
    requires SwapBytes(x) == SwapBytes(y)
    ensures x == y
  {
  }

  /** Every byte burst of at most four bytes is detected: two messages of equal length that
      differ, but only inside some four consecutive bytes, have different checksums. */
  lemma BurstDetected(m: seq<byte>, n: seq<byte>, i: nat, k: nat)
    requires |m| == |n| && i + k <= |m| && k <= 4 && m != n
    requires m[..i] == n[..i] && m[i + k..] == n[i + k..]
    ensures CrcField(m) != CrcField(n)
  {
    hide Fold, FeedBit, SwapBytes, BitStream;
    var p, x, y, q := m[..i], m[i..i + k], n[i..i + k], m[i + k..];
    assert m == p + x + q;
    assert n == p + y + q;
    assert x != y;
    BitStreamConcat(p, x);
    BitStreamConcat(p + x, q);
    BitStreamConcat(p, y);
    BitStreamConcat(p + y, q);
    if BitStream(x) == BitStream(y) { BitStreamInjective(x, y); }
    BurstChangesRegister(0xFFFF_FFFF, BitStream(p), BitStream(x), BitStream(y), BitStream(q));
    if CrcField(m) == CrcField(n) {
      CrcFieldInjective(Fold(FeedBit, 0xFFFF_FFFF, BitStream(m)), Fold(FeedBit, 0xFFFF_FFFF, BitStream(n)));
    }
  }
}
