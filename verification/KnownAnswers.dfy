/**
 The answers that the program's own tests of its checksums expect, for the packets in those tests.
 */
module KnownAnswers {
  import opened Bytes
  import opened Folding
  import opened Checksum
  import opened Crc32c
  import opened CrcOnWire
  import opened Layers
  import opened PacketChecksum

  // ---------------------------------------------------------------- CRC32c

  /** Four bytes of a message enter the register at once. */
  lemma FeedWord(r: bv32, w: seq<byte>, c: bv32, d: bv32)
    requires |w| == 4 && forall k :: 0 <= k < 4 ==> w[k] == RegisterByte(c, k)
    requires d == Shift8(Shift8(Shift8(Shift8(Xor(r, c)))))
    ensures Fold(FeedBit, r, BitStream(w)) == d
  {
    hide Fold, FeedBit, BitStream, Word, Iter, Shift8, RegisterByte, Shift, Xor;
    WordOfRegister(c, w);
    FeedIsShift(r, BitStream(w));
    var x := Xor(r, c);
    IterMore(x, 8, 24);
    IterMore(Shift8(x), 8, 16);
    IterMore(Shift8(Shift8(x)), 8, 8);
    IterEight(x);
    IterEight(Shift8(x));
    IterEight(Shift8(Shift8(x)));
    IterEight(Shift8(Shift8(Shift8(x))));
  }

  lemma FeedMore(r: bv32, x: seq<byte>, y: seq<byte>)
    ensures Fold(FeedBit, r, BitStream(x + y)) == Fold(FeedBit, Fold(FeedBit, r, BitStream(x)), BitStream(y))
  {
    hide Fold, FeedBit, BitStream;
    BitStreamConcat(x, y);
    FoldConcat(FeedBit, r, BitStream(x), BitStream(y));
  }

  lemma Word0()
    ensures Fold(FeedBit, 0xffff_ffff, BitStream([0x07, 0xd0, 0xd6, 0x61])) == 0x530b_0acd
  {
    hide Fold, FeedBit, BitStream;
    assert Xor(0xffff_ffff, 0x61d6_d007) == 0x9e29_2ff8;
    assert Shift8(0x9e29_2ff8) == 0x7929_1e95 && Shift8(0x7929_1e95) == 0xa720_c115;
    assert Shift8(0xa720_c115) == 0x2508_f3b2 && Shift8(0x2508_f3b2) == 0x530b_0acd;
    hide Shift8, Xor;
    FeedWord(0xffff_ffff, [0x07, 0xd0, 0xd6, 0x61], 0x61d6_d007, 0x530b_0acd);
  }

  lemma Word1()
    ensures Fold(FeedBit, 0x530b_0acd, BitStream([0x11, 0x0c, 0xc5, 0x6c])) == 0xd24a_5805
  {
    hide Fold, FeedBit, BitStream;
    assert Xor(0x530b_0acd, 0x6cc5_0c11) == 0x3fce_06dc;
    assert Shift8(0x3fce_06dc) == 0x9eaf_e07d && Shift8(0x9eaf_e07d) == 0xce2e_b73e;
    assert Shift8(0xce2e_b73e) == 0x9c55_d821 && Shift8(0x9c55_d821) == 0xd24a_5805;
    hide Shift8, Xor;
    FeedWord(0x530b_0acd, [0x11, 0x0c, 0xc5, 0x6c], 0x6cc5_0c11, 0xd24a_5805);
  }

  lemma Word2()
    ensures Fold(FeedBit, 0xd24a_5805, BitStream([0x00, 0x00, 0x00, 0x00])) == 0x5e5f_fcd3
  {
    hide Fold, FeedBit, BitStream;
    assert Xor(0xd24a_5805, 0x0000_0000) == 0xd24a_5805;
    assert Shift8(0xd24a_5805) == 0x3523_5e44 && Shift8(0x3523_5e44) == 0x86d4_a9fd;
    assert Shift8(0x86d4_a9fd) == 0x4cc0_f70f && Shift8(0x4cc0_f70f) == 0x5e5f_fcd3;
    hide Shift8, Xor;
    FeedWord(0xd24a_5805, [0x00, 0x00, 0x00, 0x00], 0x0000_0000, 0x5e5f_fcd3);
  }

  lemma Word3()
    ensures Fold(FeedBit, 0x5e5f_fcd3, BitStream([0x06, 0x00, 0x00, 0x0f])) == 0x49cb_33dd
  {
    hide Fold, FeedBit, BitStream;
    assert Xor(0x5e5f_fcd3, 0x0f00_0006) == 0x515f_fcd5;
    assert Shift8(0x515f_fcd5) == 0xe673_aa4b && Shift8(0xe673_aa4b) == 0xd814_c52d;
    assert Shift8(0xd814_c52d) == 0x9f4d_d6c8 && Shift8(0x9f4d_d6c8) == 0x49cb_33dd;
    hide Shift8, Xor;
    FeedWord(0x5e5f_fcd3, [0x06, 0x00, 0x00, 0x0f], 0x0f00_0006, 0x49cb_33dd);
  }

  lemma Word4()
    ensures Fold(FeedBit, 0x49cb_33dd, BitStream([0x00, 0x0c, 0x00, 0x0b])) == 0x9061_39ed
  {
    hide Fold, FeedBit, BitStream;
    assert Xor(0x49cb_33dd, 0x0b00_0c00) == 0x42cb_3fdd;
    assert Shift8(0x42cb_3fdd) == 0x6cb9_6647 && Shift8(0x6cb9_6647) == 0x95dd_c031;
    assert Shift8(0x95dd_c031) == 0xc21d_1772 && Shift8(0xc21d_1772) == 0x9061_39ed;
    hide Shift8, Xor;
    FeedWord(0x49cb_33dd, [0x00, 0x0c, 0x00, 0x0b], 0x0b00_0c00, 0x9061_39ed);
  }

  lemma Word5()
    ensures Fold(FeedBit, 0x9061_39ed, BitStream([0x47, 0x6f, 0x6f, 0x64])) == 0x6aff_fc77
  {
    hide Fold, FeedBit, BitStream;
    assert Xor(0x9061_39ed, 0x646f_6f47) == 0xf40e_56aa;
    assert Shift8(0xf40e_56aa) == 0xc95d_93c8 && Shift8(0xc95d_93c8) == 0x499d_2398;
    assert Shift8(0x499d_2398) == 0x1838_39fb && Shift8(0x1838_39fb) == 0x6aff_fc77;
    hide Shift8, Xor;
    FeedWord(0x9061_39ed, [0x47, 0x6f, 0x6f, 0x64], 0x646f_6f47, 0x6aff_fc77);
  }

  lemma Word6()
    ensures Fold(FeedBit, 0x6aff_fc77, BitStream([0x62, 0x79, 0x65, 0x00])) == 0x8bc8_2825
  {
    hide Fold, FeedBit, BitStream;
    assert Xor(0x6aff_fc77, 0x0065_7962) == 0x6a9a_8515;
    assert Shift8(0x6a9a_8515) == 0x25c5_49f6 && Shift8(0x25c5_49f6) == 0xd5ea_4dd4;
    assert Shift8(0xd5ea_4dd4) == 0x149c_9cf9 && Shift8(0x149c_9cf9) == 0x8bc8_2825;
    hide Shift8, Xor;
    FeedWord(0x6aff_fc77, [0x62, 0x79, 0x65, 0x00], 0x0065_7962, 0x8bc8_2825);
  }

  /** The packet of the test, without checksum: a common header and an ABORT chunk. */
  function Unsealed(): (m: seq<byte>)
    ensures |m| == 28
  {
    [0x07, 0xd0, 0xd6, 0x61] +
    [0x11, 0x0c, 0xc5, 0x6c] +
    [0x00, 0x00, 0x00, 0x00] +
    [0x06, 0x00, 0x00, 0x0f] +
    [0x00, 0x0c, 0x00, 0x0b] +
    [0x47, 0x6f, 0x6f, 0x64] +
    [0x62, 0x79, 0x65, 0x00]
  }

  lemma UnsealedRegister()
    ensures Fold(FeedBit, 0xffff_ffff, BitStream(Unsealed())) == 0x8bc8_2825
  {
    hide Fold, FeedBit, BitStream;
    Word0();
    Word1();
    Word2();
    Word3();
    Word4();
    Word5();
    Word6();
    var m := [0x07, 0xd0, 0xd6, 0x61];
    FeedMore(0xffff_ffff, m, [0x11, 0x0c, 0xc5, 0x6c]);
    m := m + [0x11, 0x0c, 0xc5, 0x6c];
    FeedMore(0xffff_ffff, m, [0x00, 0x00, 0x00, 0x00]);
    m := m + [0x00, 0x00, 0x00, 0x00];
    FeedMore(0xffff_ffff, m, [0x06, 0x00, 0x00, 0x0f]);
    m := m + [0x06, 0x00, 0x00, 0x0f];
    FeedMore(0xffff_ffff, m, [0x00, 0x0c, 0x00, 0x0b]);
    m := m + [0x00, 0x0c, 0x00, 0x0b];
    FeedMore(0xffff_ffff, m, [0x47, 0x6f, 0x6f, 0x64]);
    m := m + [0x47, 0x6f, 0x6f, 0x64];
    FeedMore(0xffff_ffff, m, [0x62, 0x79, 0x65, 0x00]);
    m := m + [0x62, 0x79, 0x65, 0x00];
    assert m == Unsealed();
  }

  /** test_sctp_crc32c. */
  lemma SctpAnswer()
    ensures CrcField(Unsealed()) == 0xdad7_3774
    ensures CrcMatches(Unsealed()[..8] + [0xda, 0xd7, 0x37, 0x74] + Unsealed()[12..])
  {
    hide Fold, FeedBit, BitStream;
    UnsealedRegister();
    assert !(0x8bc8_2825 as bv32) == 0x7437_d7da && SwapBytes(0x7437_d7da) == 0xdad7_3774;
    var w := Unsealed()[..8] + [0xda, 0xd7, 0x37, 0x74] + Unsealed()[12..];
    assert Splice(w, 8, Zeros(4)) == Unsealed();
    assert Be32(w, 8) == 0xdad7_3774;
  }

  // ---------------------------------------------------------------- Internet checksums

  lemma SumFour(a: byte, b: byte, c: byte, d: byte)
    ensures Sum16([a, b, c, d], false) == 0x100 * (a + c) + b + d
  {
    hide Sum16;
    SumOfWord([a, b]);
    SumOfWord([c, d]);
    Sum16Concat([a, b], [c, d], false);
    assert [a, b] + [c, d] == [a, b, c, d];
  }

  lemma SumEight(a: byte, b: byte, c: byte, d: byte, e: byte, f: byte, g: byte, h: byte)
    ensures Sum16([a, b, c, d, e, f, g, h], false) == 0x100 * (a + c + e + g) + b + d + f + h
  {
    hide Sum16;
    SumFour(a, b, c, d);
    SumFour(e, f, g, h);
    Sum16Concat([a, b, c, d], [e, f, g, h], false);
    assert [a, b, c, d] + [e, f, g, h] == [a, b, c, d, e, f, g, h];
  }

  lemma SumThree(a: byte, b: byte, c: byte)
    ensures Sum16([a, b, c], false) == 0x100 * (a + c) + b
  {
    hide Sum16;
    SumOfWord([a, b]);
    SumOne(c);
    Sum16Concat([a, b], [c], false);
    assert [a, b] + [c] == [a, b, c];
  }

  lemma SumOne(a: byte)
    ensures Sum16([a], false) == 0x100 * a
  {
  }

  /** 1.1.1.1 */
  function Source4(): (s: seq<byte>)
    ensures |s| == 4
  {
    [0x01, 0x01, 0x01, 0x01]
  }

  lemma Source4Sum()
    ensures Sum16(Source4(), false) == 0x202
  {
    hide Sum16;
    SumFour(0x01, 0x01, 0x01, 0x01);
    var s := [0x01, 0x01, 0x01, 0x01];
    assert s == Source4();
  }

  /** 192.168.0.1 */
  function Target4(): (s: seq<byte>)
    ensures |s| == 4
  {
    [0xc0, 0xa8, 0x00, 0x01]
  }

  lemma Target4Sum()
    ensures Sum16(Target4(), false) == 0xc0a9
  {
    hide Sum16;
    SumFour(0xc0, 0xa8, 0x00, 0x01);
    var s := [0xc0, 0xa8, 0x00, 0x01];
    assert s == Target4();
  }

  /** 2001:db8::1 */
  function Source6(): (s: seq<byte>)
    ensures |s| == 16
  {
    [0x20, 0x01, 0x0d, 0xb8, 0x00, 0x00, 0x00, 0x00] +
    [0x00, 0x00, 0x00, 0x00, 0x00, 0x00, 0x00, 0x01]
  }

  lemma Source6Sum()
    ensures Sum16(Source6(), false) == 0x2dba
  {
    hide Sum16;
    SumEight(0x20, 0x01, 0x0d, 0xb8, 0x00, 0x00, 0x00, 0x00);
    SumEight(0x00, 0x00, 0x00, 0x00, 0x00, 0x00, 0x00, 0x01);
    var s := [0x20, 0x01, 0x0d, 0xb8, 0x00, 0x00, 0x00, 0x00];
    Sum16Concat(s, [0x00, 0x00, 0x00, 0x00, 0x00, 0x00, 0x00, 0x01], false);
    s := s + [0x00, 0x00, 0x00, 0x00, 0x00, 0x00, 0x00, 0x01];
    assert s == Source6();
  }

  /** fd3d:fa7b:d17d::1 */
  function Target6(): (s: seq<byte>)
    ensures |s| == 16
  {
    [0xfd, 0x3d, 0xfa, 0x7b, 0xd1, 0x7d, 0x00, 0x00] +
    [0x00, 0x00, 0x00, 0x00, 0x00, 0x00, 0x00, 0x01]
  }

  lemma Target6Sum()
    ensures Sum16(Target6(), false) == 0x2c936
  {
    hide Sum16;
    SumEight(0xfd, 0x3d, 0xfa, 0x7b, 0xd1, 0x7d, 0x00, 0x00);
    SumEight(0x00, 0x00, 0x00, 0x00, 0x00, 0x00, 0x00, 0x01);
    var s := [0xfd, 0x3d, 0xfa, 0x7b, 0xd1, 0x7d, 0x00, 0x00];
    Sum16Concat(s, [0x00, 0x00, 0x00, 0x00, 0x00, 0x00, 0x00, 0x01], false);
    s := s + [0x00, 0x00, 0x00, 0x00, 0x00, 0x00, 0x00, 0x01];
    assert s == Target6();
  }

  /** The rest of the IPv4 header around TCP. */
  function TcpHead4(): (s: seq<byte>)
    ensures |s| == 12
  {
    [0x45, 0x00, 0x00, 0x3c, 0x00, 0x00, 0x00, 0x00] +
    [0xff, 0x06, 0xf9, 0x10]
  }

  lemma TcpHead4Sum()
    ensures Sum16(TcpHead4(), false) == 0x23d52
  {
    hide Sum16;
    SumEight(0x45, 0x00, 0x00, 0x3c, 0x00, 0x00, 0x00, 0x00);
    SumFour(0xff, 0x06, 0xf9, 0x10);
    var s := [0x45, 0x00, 0x00, 0x3c, 0x00, 0x00, 0x00, 0x00];
    Sum16Concat(s, [0xff, 0x06, 0xf9, 0x10], false);
    s := s + [0xff, 0x06, 0xf9, 0x10];
    assert s == TcpHead4();
  }

  /** A SYN-ACK with options. */
  function Tcp4(): (s: seq<byte>)
    ensures |s| == 40
  {
    [0x04, 0xd2, 0xeb, 0x35, 0x00, 0x00, 0x00, 0x00] +
    [0xc6, 0xf0, 0x56, 0x00, 0xa0, 0x12, 0x16, 0xa0] +
    [0x54, 0x12, 0x00, 0x00, 0x02, 0x04, 0x05, 0xb4] +
    [0x04, 0x02, 0x08, 0x0a, 0x00, 0x00, 0x02, 0xbc] +
    [0x00, 0x06, 0x0a, 0xd8, 0x01, 0x03, 0x03, 0x07]
  }

  lemma Tcp4Sum()
    ensures Sum16(Tcp4(), false) == 0x33d23
  {
    hide Sum16;
    SumEight(0x04, 0xd2, 0xeb, 0x35, 0x00, 0x00, 0x00, 0x00);
    SumEight(0xc6, 0xf0, 0x56, 0x00, 0xa0, 0x12, 0x16, 0xa0);
    SumEight(0x54, 0x12, 0x00, 0x00, 0x02, 0x04, 0x05, 0xb4);
    SumEight(0x04, 0x02, 0x08, 0x0a, 0x00, 0x00, 0x02, 0xbc);
    SumEight(0x00, 0x06, 0x0a, 0xd8, 0x01, 0x03, 0x03, 0x07);
    var s := [0x04, 0xd2, 0xeb, 0x35, 0x00, 0x00, 0x00, 0x00];
    Sum16Concat(s, [0xc6, 0xf0, 0x56, 0x00, 0xa0, 0x12, 0x16, 0xa0], false);
    s := s + [0xc6, 0xf0, 0x56, 0x00, 0xa0, 0x12, 0x16, 0xa0];
    Sum16Concat(s, [0x54, 0x12, 0x00, 0x00, 0x02, 0x04, 0x05, 0xb4], false);
    s := s + [0x54, 0x12, 0x00, 0x00, 0x02, 0x04, 0x05, 0xb4];
    Sum16Concat(s, [0x04, 0x02, 0x08, 0x0a, 0x00, 0x00, 0x02, 0xbc], false);
    s := s + [0x04, 0x02, 0x08, 0x0a, 0x00, 0x00, 0x02, 0xbc];
    Sum16Concat(s, [0x00, 0x06, 0x0a, 0xd8, 0x01, 0x03, 0x03, 0x07], false);
    s := s + [0x00, 0x06, 0x0a, 0xd8, 0x01, 0x03, 0x03, 0x07];
    assert s == Tcp4();
  }

  /** A SYN with options. */
  function Tcp6(): (s: seq<byte>)
    ensures |s| == 32
  {
    [0xd3, 0xe2, 0x1f, 0x90, 0x00, 0x00, 0x00, 0x00] +
    [0x00, 0x00, 0x00, 0x00, 0x80, 0x02, 0x80, 0x18] +
    [0x06, 0x60, 0x00, 0x00, 0x02, 0x04, 0x03, 0xe8] +
    [0x04, 0x02, 0x01, 0x01, 0x01, 0x03, 0x03, 0x07]
  }

  lemma Tcp6Sum()
    ensures Sum16(Tcp6(), false) == 0x208e5
  {
    hide Sum16;
    SumEight(0xd3, 0xe2, 0x1f, 0x90, 0x00, 0x00, 0x00, 0x00);
    SumEight(0x00, 0x00, 0x00, 0x00, 0x80, 0x02, 0x80, 0x18);
    SumEight(0x06, 0x60, 0x00, 0x00, 0x02, 0x04, 0x03, 0xe8);
    SumEight(0x04, 0x02, 0x01, 0x01, 0x01, 0x03, 0x03, 0x07);
    var s := [0xd3, 0xe2, 0x1f, 0x90, 0x00, 0x00, 0x00, 0x00];
    Sum16Concat(s, [0x00, 0x00, 0x00, 0x00, 0x80, 0x02, 0x80, 0x18], false);
    s := s + [0x00, 0x00, 0x00, 0x00, 0x80, 0x02, 0x80, 0x18];
    Sum16Concat(s, [0x06, 0x60, 0x00, 0x00, 0x02, 0x04, 0x03, 0xe8], false);
    s := s + [0x06, 0x60, 0x00, 0x00, 0x02, 0x04, 0x03, 0xe8];
    Sum16Concat(s, [0x04, 0x02, 0x01, 0x01, 0x01, 0x03, 0x03, 0x07], false);
    s := s + [0x04, 0x02, 0x01, 0x01, 0x01, 0x03, 0x03, 0x07];
    assert s == Tcp6();
  }

  /** The part of a UDP-Lite packet that its checksum covers. */
  function Lite4(): (s: seq<byte>)
    ensures |s| == 9
  {
    [0x04, 0xd2, 0xeb, 0x35, 0x00, 0x09, 0x86, 0xaf] +
    [0xc6]
  }

  lemma Lite4Sum()
    ensures Sum16(Lite4(), false) == 0x23cbf
  {
    hide Sum16;
    SumEight(0x04, 0xd2, 0xeb, 0x35, 0x00, 0x09, 0x86, 0xaf);
    SumOne(0xc6);
    var s := [0x04, 0xd2, 0xeb, 0x35, 0x00, 0x09, 0x86, 0xaf];
    Sum16Concat(s, [0xc6], false);
    s := s + [0xc6];
    assert s == Lite4();
  }

  /** The same over IPv6. */
  function Lite6(): (s: seq<byte>)
    ensures |s| == 9
  {
    [0xd3, 0xe2, 0x1f, 0x90, 0x00, 0x09, 0x4e, 0xfd] +
    [0xc6]
  }

  lemma Lite6Sum()
    ensures Sum16(Lite6(), false) == 0x20878
  {
    hide Sum16;
    SumEight(0xd3, 0xe2, 0x1f, 0x90, 0x00, 0x09, 0x4e, 0xfd);
    SumOne(0xc6);
    var s := [0xd3, 0xe2, 0x1f, 0x90, 0x00, 0x09, 0x4e, 0xfd];
    Sum16Concat(s, [0xc6], false);
    s := s + [0xc6];
    assert s == Lite6();
  }

  lemma Slices(a: seq<byte>, b: seq<byte>, c: seq<byte>, d: seq<byte>)
    ensures var s := a + b + c + d;
            && s[|a|..|a| + |b|] == b && s[|a| + |b|..|a| + |b| + |c|] == c
            && s[|a| + |b| + |c|..|a| + |b| + |c| + |d|] == d && s[..|a| + |b| + |c|] == a + b + c
  {
  }

  /** test_ipv4_checksum and test_tcp_udp_v4_checksum. */
  lemma TcpOverIpv4Answer()
    ensures var s := TcpHead4() + Source4() + Target4() + Tcp4();
            && Norm(Sum16(s[..20], false)) == 0xffff && Be16(s, 10) == 0xf910
            && SumOk(s, Region(IPv4, 0, 20, 40), 6, 0) && Be16(s, 36) == 0x5412
  {
    hide Sum16;
    Slices(TcpHead4(), Source4(), Target4(), Tcp4());
    TcpHead4Sum();
    Source4Sum();
    Target4Sum();
    Tcp4Sum();
    Sum16Concat(TcpHead4(), Source4(), false);
    Sum16Concat(TcpHead4() + Source4(), Target4(), false);
  }

  /** test_tcp_udp_v6_checksum. */
  lemma TcpOverIpv6Answer()
    ensures var s := [0x60, 0x00, 0x00, 0x00, 0x00, 0x20, 0x06, 0xff] + Source6() + Target6() + Tcp6();
            SumOk(s, Region(IPv6, 0, 40, 32), 6, 0) && Be16(s, 56) == 0x0660
  {
    hide Sum16;
    Slices([0x60, 0x00, 0x00, 0x00, 0x00, 0x20, 0x06, 0xff], Source6(), Target6(), Tcp6());
    Source6Sum();
    Target6Sum();
    Tcp6Sum();
  }

  /** test_udplite_v4_checksum: two more bytes are not covered. */
  lemma LiteOverIpv4Answer()
    ensures var s := [0x45, 0x00, 0x00, 0x1f, 0x00, 0x00, 0x00, 0x00, 0xff, 0x88, 0xf8, 0xab] + Source4() + Target4() + Lite4() + [0x45, 0x46];
            Norm(LiteSum(s, Region(IPv4, 0, 20, 11), 9)) == 0xffff && Be16(s, 26) == 0x86af
  {
    hide Sum16;
    var head := [0x45, 0x00, 0x00, 0x1f, 0x00, 0x00, 0x00, 0x00, 0xff, 0x88, 0xf8, 0xab];
    Slices(head, Source4(), Target4(), Lite4());
    SlicesMore(head + Source4() + Target4() + Lite4(), [0x45, 0x46]);
    Source4Sum();
    Target4Sum();
    Lite4Sum();
  }

  /** test_udplite_v6_checksum. */
  lemma LiteOverIpv6Answer()
    ensures var s := [0x60, 0x00, 0x00, 0x00, 0x00, 0x0b, 0x88, 0xff] + Source6() + Target6() + Lite6() + [0x45, 0x46];
            Norm(LiteSum(s, Region(IPv6, 0, 40, 11), 9)) == 0xffff && Be16(s, 46) == 0x4efd
  {
    hide Sum16;
    var head := [0x60, 0x00, 0x00, 0x00, 0x00, 0x0b, 0x88, 0xff];
    Slices(head, Source6(), Target6(), Lite6());
    SlicesMore(head + Source6() + Target6() + Lite6(), [0x45, 0x46]);
    Source6Sum();
    Target6Sum();
    Lite6Sum();
  }

  lemma SlicesMore(s: seq<byte>, t: seq<byte>)
    ensures forall i, j :: 0 <= i <= j <= |s| ==> (s + t)[i..j] == s[i..j]
  {
  }
}
