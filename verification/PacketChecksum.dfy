/**
 checksum_packet: what it writes into the check fields of a packet, and what the parser makes
 of it.
 */
module PacketChecksum {
  import opened Bytes
  import opened Checksum
  import opened Crc32c
  import opened Layers
  import opened Parser

  // ---------------------------------------------------------------- errors in SCTP packets

  /** The two packets differ only in the k bytes from a on. */
  predicate SameOutside(w: seq<byte>, v: seq<byte>, a: nat, k: nat)
    requires a + k <= |w|
  {
    |w| == |v| && w[..a] == v[..a] && w[a + k..] == v[a + k..]
  }

  /** A change of a valid SCTP packet within four consecutive bytes, all of them inside or all
      of them outside the checksum field, is detected. */
  lemma BurstBreaksCrc(w: seq<byte>, v: seq<byte>, a: nat, k: nat)
    requires |w| >= 12 && a + k <= |w| && k <= 4 && SameOutside(w, v, a, k) && w != v
    requires a + k <= 8 || 12 <= a || (8 <= a && a + k <= 12)
    requires CrcMatches(w)
    ensures !CrcMatches(v)
  {
    hide CrcField;
    var zw, zv := Splice(w, 8, Zeros(4)), Splice(v, 8, Zeros(4));
    if 8 <= a && a + k <= 12 {
      assert zw == zv;
      PartsIff(w, v);
      Be32OfBytes(w, 8);
      Be32OfBytes(v, 8);
    } else {
      FieldOutside(w, v, a, k);
      BurstDetected(zw, zv, a, k);
    }
  }

  lemma PartsIff(w: seq<byte>, v: seq<byte>)
    requires |w| == |v| >= 12
    ensures w == v <==> w[..8] == v[..8] && w[8..12] == v[8..12] && w[12..] == v[12..]
  {
    assert w == w[..8] + w[8..12] + w[12..];
    assert v == v[..8] + v[8..12] + v[12..];
  }

  lemma FieldOutside(w: seq<byte>, v: seq<byte>, a: nat, k: nat)
    requires |w| >= 12 && a + k <= |w| && SameOutside(w, v, a, k) && w != v
    requires a + k <= 8 || 12 <= a
    ensures Be32(w, 8) == Be32(v, 8)
    ensures var zw, zv := Splice(w, 8, Zeros(4)), Splice(v, 8, Zeros(4));
            SameOutside(zw, zv, a, k) && zw != zv
  {
    hide Splice, SameOutside;
    SamePoints(w, v, a, k);
    var zw, zv := Splice(w, 8, Zeros(4)), Splice(v, 8, Zeros(4));
    SameWindow(w, v);
    SameField(w, v);
    ZeroedParts(w);
    ZeroedParts(v);
    ZeroedPoints(w, v, a, k);
    SamePointsOf(zw, zv, a, k);
    PartsIff(w, v);
    PartsIff(zw, zv);
  }

  lemma SameWindow(w: seq<byte>, v: seq<byte>)
    requires 12 <= |w| == |v| && forall i :: 8 <= i < 12 ==> w[i] == v[i]
    ensures w[8..12] == v[8..12]
  {
  }

  /** A packet and the packet with its field zeroed. */
  lemma ZeroedParts(w: seq<byte>)
    requires |w| >= 12
    ensures var z := Splice(w, 8, Zeros(4));
            |z| == |w| && z[..8] == w[..8] && z[8..12] == Zeros(4) && z[12..] == w[12..]
  {
  }

  lemma ZeroedPoints(w: seq<byte>, v: seq<byte>, a: nat, k: nat)
    requires 12 <= |w| == |v| && forall i :: 0 <= i < |w| && !(a <= i < a + k) ==> w[i] == v[i]
    ensures var zw, zv := Splice(w, 8, Zeros(4)), Splice(v, 8, Zeros(4));
            forall i :: 0 <= i < |w| && !(a <= i < a + k) ==> zw[i] == zv[i]
  {
    hide Splice;
    var zw, zv := Splice(w, 8, Zeros(4)), Splice(v, 8, Zeros(4));
    forall i | 0 <= i < |w| && !(a <= i < a + k)
      ensures zw[i] == zv[i]
    {
      if 8 <= i < 12 { assert zw[i] == zw[8..12][i - 8] && zv[i] == zv[8..12][i - 8]; }
    }
  }

  /** Outside the burst the packets agree byte for byte. */
  lemma SamePoints(w: seq<byte>, v: seq<byte>, a: nat, k: nat)
    requires a + k <= |w| && SameOutside(w, v, a, k)
    ensures |w| == |v| && forall i :: 0 <= i < |w| && !(a <= i < a + k) ==> w[i] == v[i]
  {
    forall i | 0 <= i < |w| && !(a <= i < a + k)
      ensures w[i] == v[i]
    {
      if i < a {
        assert w[i] == w[..a][i] && v[i] == v[..a][i];
      } else {
        assert w[i] == w[a + k..][i - (a + k)] && v[i] == v[a + k..][i - (a + k)];
      }
    }
  }

  lemma SamePointsOf(w: seq<byte>, v: seq<byte>, a: nat, k: nat)
    requires a + k <= |w| == |v| && forall i :: 0 <= i < |w| && !(a <= i < a + k) ==> w[i] == v[i]
    ensures SameOutside(w, v, a, k)
  {
  }

  lemma SameField(w: seq<byte>, v: seq<byte>)
    requires 12 <= |w| == |v| && w[8..12] == v[8..12]
    ensures Be32(w, 8) == Be32(v, 8)
  {
    assert forall i :: 8 <= i < 12 ==> w[i] == w[8..12][i - 8] && v[i] == v[8..12][i - 8];
  }

  /** ... and so parse_sctp rejects it. */
  lemma BurstRejected(i: Input, j: Input, p: nat, n: nat, a: nat, k: nat, count: nat)
    requires Sound(i) && Sound(j) && p + n <= i.end && p + n <= j.end && 12 <= n && a + k <= n && k <= 4
    requires RunHeader(i, SCTP, p, n, count).outcome.PacketOk?
    requires SameOutside(i.bytes[p..p + n], j.bytes[p..p + n], a, k) && i.bytes[p..p + n] != j.bytes[p..p + n]
    requires a + k <= 8 || 12 <= a || (8 <= a && a + k <= 12)
    ensures RunHeader(j, SCTP, p, n, count) == Parsed(PacketBad, [])
  {
    hide CrcMatches;
    BurstBreaksCrc(i.bytes[p..p + n], j.bytes[p..p + n], a, k);
  }

  // ---------------------------------------------------------------- writing one field

  /** Nothing but the n bytes from at on has changed. */
  ghost predicate OnlyAt(s: seq<byte>, t: seq<byte>, at: nat, n: nat) {
    |s| == |t| && forall k :: 0 <= k < |s| && !(at <= k < at + n) ==> s[k] == t[k]
  }

  lemma SumVerifies(s: seq<byte>, z: seq<byte>, t: seq<byte>, pseudo: seq<byte>, p: nat, n: nat, k: nat)
    requires p + n <= |s| && k + 2 <= n && k % 2 == 0 && |pseudo| % 2 == 0
    requires z == Splice(s, p + k, Be16Bytes(0))
    requires t == Splice(z, p + k, Be16Bytes(InternetChecksum(pseudo + z[p..p + n])))
    ensures InternetChecksum(pseudo + t[p..p + n]) == 0 && OnlyAt(s, t, p + k, 2)
  {
    hide InternetChecksum, Be16Bytes, Splice;
    var w := s[p..p + n];
    var c := InternetChecksum(pseudo + z[p..p + n]);
    SpliceWindow(s, p, n, k, Be16Bytes(0));
    SpliceTwice(s, p + k, Be16Bytes(0), Be16Bytes(c));
    SpliceWindow(s, p, n, k, Be16Bytes(c));
    SpliceBehind(pseudo, w, k, Be16Bytes(0));
    SpliceBehind(pseudo, w, k, Be16Bytes(c));
    ChecksumVerifies(pseudo + w, |pseudo| + k);
  }

  lemma SpliceBehind(x: seq<byte>, w: seq<byte>, k: nat, v: seq<byte>)
    requires k + |v| <= |w|
    ensures x + Splice(w, k, v) == Splice(x + w, |x| + k, v)
  {
  }

  /** Zero a 16-bit check field, compute the sum over the pseudo-header and the n bytes from p
      on, and store it: recomputing then yields zero. */
  method StoreSum(packet: Packet, p: nat, n: nat, k: nat, pseudo: seq<byte>, little: bool)
    requires p + n <= packet.buffer.Length && n < 0x1_0000 && k + 2 <= n && k % 2 == 0
    requires |pseudo| % 4 == 0 && |pseudo| <= 40
    modifies packet.buffer
    ensures InternetChecksum(pseudo + packet.buffer[..][p..p + n]) == 0
    ensures OnlyAt(old(packet.buffer[..]), packet.buffer[..], p + k, 2)
  {
    hide InternetChecksum, OnlyAt, Splice, Be16Bytes;
    ghost var s := packet.buffer[..];
    packet.PutBe16(p + k, 0);
    ghost var z := packet.buffer[..];
    assert packet.buffer[p..p + n] == packet.buffer[..][p..p + n];
    var field := TransportChecksum(pseudo, packet.buffer[p..p + n], little);
    packet.PutField(p + k, field);
    SumVerifies(s, z, packet.buffer[..], pseudo, p, n, k);
  }

  /** What FLAGS_SCTP_BAD_CRC32C does to a checksum. */
  function Bumped(c: u32): (r: u32)
    ensures r != c
  {
    (c as int + 1) % 0x1_0000_0000
  }

  /** The field holds the CRC of the packet with the field zeroed, or one more if a bad one is
      asked for. */
  predicate CrcStored(w: seq<byte>, bad: bool) {
    |w| >= 12 && Be32(w, 8) == (CrcField(w[..8] + [0, 0, 0, 0] + w[12..]) as int + if bad then 1 else 0) % 0x1_0000_0000
  }

  /** The test of parse_sctp then succeeds exactly when the CRC itself was stored. */
  lemma CrcStoredMatches(w: seq<byte>, bad: bool)
    requires CrcStored(w, bad)
    ensures CrcMatches(w) <==> !bad
  {
    hide CrcField, Be32;
    assert Splice(w, 8, Zeros(4)) == w[..8] + [0, 0, 0, 0] + w[12..];
  }

  lemma CrcIsStored(w: seq<byte>, bad: bool, f: u32)
    requires |w| >= 12
    requires var c := CrcField(Splice(w, 8, Zeros(4))); f == if bad then Bumped(c) else c
    ensures CrcStored(Splice(w, 8, Be32Bytes(f)), bad)
  {
    hide CrcField, Be32Bytes, Be32;
    var v := Splice(w, 8, Be32Bytes(f));
    assert Splice(w, 8, Zeros(4)) == v[..8] + [0, 0, 0, 0] + v[12..];
    FieldRead(w, f);
  }

  lemma FieldRead(w: seq<byte>, f: u32)
    requires |w| >= 12
    ensures Be32(Splice(w, 8, Be32Bytes(f)), 8) == f
  {
    hide Be32Bytes;
    var r := Splice(w, 8, Be32Bytes(f));
    assert r[8..12] == Be32Bytes(f);
    assert Be32(r, 8) == Be32(r[8..12], 0);
  }

  /** Zero the SCTP checksum field and compute the CRC. */
  method ComputeCrc(packet: Packet, p: nat, n: nat) returns (crc: u32)
    requires 12 <= n && p + n <= packet.buffer.Length
    modifies packet.buffer
    ensures packet.buffer[..] == Splice(old(packet.buffer[..]), p + 8, Be32Bytes(0))
    ensures crc == CrcField(Splice(old(packet.buffer[..])[p..p + n], 8, Zeros(4)))
  {
    hide CrcField, Splice, Be32Bytes;
    ghost var s := packet.buffer[..];
    packet.PutBe32(p + 8, 0);
    SpliceWindow(s, p, n, 8, Be32Bytes(0));
    Be32Zero();
    crc := SctpCrc32c(packet.buffer[p..p + n]);
  }

  /** Store the CRC, or the CRC plus one. */
  method StoreCrc(packet: Packet, p: nat, n: nat, bad: bool)
    requires 12 <= n && p + n <= packet.buffer.Length
    modifies packet.buffer
    ensures CrcStored(packet.buffer[..][p..p + n], bad)
    ensures OnlyAt(old(packet.buffer[..]), packet.buffer[..], p + 8, 4)
  {
    hide *;
    ghost var s := packet.buffer[..];
    var crc := ComputeCrc(packet, p, n);
    if bad {
      crc := Bumped(crc);
    }
    packet.PutBe32(p + 8, crc);
    SpliceTwice(s, p + 8, Be32Bytes(0), Be32Bytes(crc));
    SpliceWindow(s, p, n, 8, Be32Bytes(crc));
    CrcIsStored(s[p..p + n], bad, crc);
    SpliceOnlyAt(s, p + 8, Be32Bytes(crc));
  }

  lemma SpliceOnlyAt(s: seq<byte>, at: nat, v: seq<byte>)
    requires at + |v| <= |s|
    ensures OnlyAt(s, Splice(s, at, v), at, |v|)
  {
  }

  // ---------------------------------------------------------------- the whole packet

  /** Where layer 4 is, and below which IP header. */
  datatype Region = Region(ip: Kind, ipOffset: nat, start: nat, bytes: nat)

  predicate Fits(s: seq<byte>, r: Region) {
    && IsIp(r.ip) && r.ipOffset + (if r.ip.IPv4? then 20 else 40) <= r.start
    && r.start + r.bytes <= |s| && r.bytes < 0x1_0000
  }

  /** The pseudo-header of sections 3.1 of RFC 793 and 8.1 of RFC 2460. */
  function Pseudo(s: seq<byte>, r: Region, protocol: byte, len: u16): (h: seq<byte>)
    requires Fits(s, r)
    ensures |h| == if r.ip.IPv4? then 12 else 40
  {
    var o := r.ipOffset;
    if r.ip.IPv4? then s[o + 12..o + 20] + [0, protocol] + Be16Bytes(len)
    else s[o + 8..o + 40] + Be32Bytes(len) + [0, 0, 0, protocol]
  }

  /** The sum of the source and the destination address. */
  function AddressSum(s: seq<byte>, r: Region): nat
    requires Fits(s, r)
  {
    var o := r.ipOffset;
    if r.ip.IPv4? then Sum16(s[o + 12..o + 16], false) + Sum16(s[o + 16..o + 20], false)
    else Sum16(s[o + 8..o + 24], false) + Sum16(s[o + 24..o + 40], false)
  }

  /** The receiver's test of a checksum with pseudo-header, for the layer-4 packet that starts
      `skip` bytes into the region: addresses, protocol, length and the packet add up to zero in
      one's-complement arithmetic. */
  predicate SumOk(s: seq<byte>, r: Region, protocol: byte, skip: nat)
    requires Fits(s, r) && skip <= r.bytes
  {
    Norm(AddressSum(s, r) + protocol + (r.bytes - skip) + Sum16(s[r.start + skip..r.start + r.bytes], false)) == 0xffff
  }

  lemma PseudoSum(s: seq<byte>, r: Region, protocol: byte, len: u16)
    requires Fits(s, r)
    ensures Sum16(Pseudo(s, r, protocol, len), false) == AddressSum(s, r) + protocol + len
  {
    hide Sum16, Be16Bytes, Be32Bytes;
    var o, b := r.ipOffset, Be16Bytes(len);
    if r.ip.IPv4? {
      Sum16Concat(s[o + 12..o + 20] + [0, protocol], b, false);
      Sum16Concat(s[o + 12..o + 20], [0, protocol], false);
      assert s[o + 12..o + 20] == s[o + 12..o + 16] + s[o + 16..o + 20];
      Sum16Concat(s[o + 12..o + 16], s[o + 16..o + 20], false);
      SumOfWord([0, protocol]);
    } else {
      Sum16Concat(s[o + 8..o + 40] + Be32Bytes(len), [0, 0, 0, protocol], false);
      Sum16Concat(s[o + 8..o + 40], Be32Bytes(len), false);
      assert s[o + 8..o + 40] == s[o + 8..o + 24] + s[o + 24..o + 40];
      Sum16Concat(s[o + 8..o + 24], s[o + 24..o + 40], false);
      LongLength(len);
      assert [0, 0, 0, protocol] == [0, 0] + [0, protocol];
      Sum16Concat([0, 0], [0, protocol], false);
      Sum16Concat([0, 0], b, false);
      SumOfWord([0, protocol]);
      SumOfWord([0, 0]);
    }
    SumOfWord(b);
  }

  lemma SumOfWord(w: seq<byte>)
    requires |w| == 2
    ensures Sum16(w, false) == Be16(w, 0)
  {
    assert w[2..] == [];
  }

  lemma LongLength(len: u16)
    ensures Be32Bytes(len) == [0, 0] + Be16Bytes(len)
  {
  }

  /** The receiver adds up a pseudo-header and the packet. */
  lemma SumOkIff(s: seq<byte>, r: Region, protocol: byte, skip: nat)
    requires Fits(s, r) && skip <= r.bytes
    ensures SumOk(s, r, protocol, skip) <==>
      InternetChecksum(Pseudo(s, r, protocol, r.bytes - skip) + s[r.start + skip..r.start + r.bytes]) == 0
  {
    hide Sum16, Norm, Pseudo, AddressSum;
    PseudoSum(s, r, protocol, r.bytes - skip);
    Sum16Concat(Pseudo(s, r, protocol, r.bytes - skip), s[r.start + skip..r.start + r.bytes], false);
  }

  /** The checksums that the receiver of a packet of the given kind tests. */
  predicate Layer4Ok(s: seq<byte>, r: Region, kind: Kind, encapsulated: bool, bad: bool)
    requires Fits(s, r) && Long(r, kind, encapsulated)
  {
    var skip := if encapsulated then 8 else 0;
    && (encapsulated ==> SumOk(s, r, 17, 0))
    && match kind
       case SCTP => CrcStored(s[r.start + skip..r.start + r.bytes], bad)
       case TCP => SumOk(s, r, 6, skip)
       case UDP => SumOk(s, r, 17, 0)
       case ICMPv4 => Norm(Sum16(s[r.start..r.start + r.bytes], false)) == 0xffff
       case ICMPv6 => SumOk(s, r, 58, 0)
       case UDPLite => LiteOk(s, r)
       case _ => false
  }

  /** How many bytes the checksum of a UDP-Lite packet covers. */
  function Coverage(s: seq<byte>, r: Region): nat
    requires Fits(s, r) && r.bytes >= 8
  {
    var cov := Be16(s, r.start + 4);
    if cov == 0 || cov > r.bytes then r.bytes else cov
  }

  /** What the pseudo-header and the first bytes of a UDP-Lite packet add up to. */
  function LiteSum(s: seq<byte>, r: Region, cov: nat): nat
    requires Fits(s, r) && cov <= r.bytes
  {
    AddressSum(s, r) + 136 + r.bytes + Sum16(s[r.start..r.start + cov], false)
  }

  /** The field holds the checksum of the pseudo-header and the covered bytes with the field
      zeroed; if the field is covered, recomputing over the covered bytes yields zero. The packet
      says how many bytes are covered; 0, or more than there are, stands for all of them. */
  predicate LiteOk(s: seq<byte>, r: Region)
    requires Fits(s, r) && r.bytes >= 8
  {
    var p, given := r.start, Be16(s, r.start + 4);
    var cov := if 0 < given <= r.bytes then given else r.bytes;
    && Be16(s, p + 6) == 0xffff - Norm(LiteSum(Splice(s, p + 6, [0, 0]), r, cov))
    && (cov >= 8 ==> Norm(LiteSum(s, r, cov)) == 0xffff)
  }

  /** The region holds the headers. Only SCTP and TCP are encapsulated in UDP. */
  predicate Long(r: Region, kind: Kind, encapsulated: bool) {
    match kind
    case SCTP => r.bytes >= if encapsulated then 20 else 12
    case TCP => r.bytes >= if encapsulated then 28 else 20
    case UDP => r.bytes >= 8 && !encapsulated
    case UDPLite => r.bytes >= 8 && !encapsulated
    case ICMPv4 => r.bytes >= 8 && !encapsulated && r.ip.IPv4?
    case ICMPv6 => r.bytes >= 8 && !encapsulated && r.ip.IPv6?
    case _ => false
  }

  /** The check fields of layer 4. */
  predicate InLayer4Check(r: Region, kind: Kind, encapsulated: bool, k: int) {
    var p := r.start + (if encapsulated then 8 else 0);
    || (encapsulated && r.start + 6 <= k < r.start + 8)
    || match kind
       case SCTP => p + 8 <= k < p + 12
       case TCP => p + 16 <= k < p + 18
       case UDP => p + 6 <= k < p + 8
       case UDPLite => p + 6 <= k < p + 8
       case _ => p + 2 <= k < p + 4
  }

  /** Nothing but the check fields of layer 4 has changed. */
  ghost predicate OnlyChecks(s: seq<byte>, t: seq<byte>, r: Region, kind: Kind, encapsulated: bool) {
    |s| == |t| && forall k :: 0 <= k < |s| && !InLayer4Check(r, kind, encapsulated, k) ==> s[k] == t[k]
  }

  /** Bytes outside the region stay. */
  ghost predicate OnlyIn(s: seq<byte>, t: seq<byte>, r: Region) {
    |s| == |t| && forall k :: 0 <= k < |s| && !(r.start <= k < r.start + r.bytes) ==> s[k] == t[k]
  }

  lemma PseudoSame(s: seq<byte>, t: seq<byte>, r: Region, protocol: byte, len: u16)
    requires Fits(s, r) && OnlyIn(s, t, r)
    ensures Pseudo(s, r, protocol, len) == Pseudo(t, r, protocol, len)
  {
    hide Be16Bytes, Be32Bytes;
    var o := r.ipOffset;
    assert r.ip.IPv4? ==> s[o + 12..o + 20] == t[o + 12..o + 20];
    assert r.ip.IPv6? ==> s[o + 8..o + 40] == t[o + 8..o + 40];
  }

  /** A sum over pseudo-header and layer-4 packet, stored k bytes into the packet. */
  method StoreTransport(packet: Packet, r: Region, protocol: byte, skip: nat, k: nat, little: bool)
    requires Fits(packet.buffer[..], r) && skip + k + 2 <= r.bytes && k % 2 == 0
    modifies packet.buffer
    ensures SumOk(packet.buffer[..], r, protocol, skip)
    ensures OnlyAt(old(packet.buffer[..]), packet.buffer[..], r.start + skip + k, 2)
  {
    hide InternetChecksum, Pseudo, SumOk;
    ghost var s := packet.buffer[..];
    var pseudo := Pseudo(packet.buffer[..], r, protocol, r.bytes - skip);
    StoreSum(packet, r.start + skip, r.bytes - skip, k, pseudo, little);
    PseudoSame(s, packet.buffer[..], r, protocol, r.bytes - skip);
    SumOkIff(packet.buffer[..], r, protocol, skip);
  }

  /** The layer-4 part of checksum_ipv4_packet and checksum_ipv6_packet. */
  method ChecksumLayer4(packet: Packet, r: Region, kind: Kind, encapsulated: bool, bad: bool, little: bool)
    requires Fits(packet.buffer[..], r) && Long(r, kind, encapsulated)
    modifies packet.buffer
    ensures Layer4Ok(packet.buffer[..], r, kind, encapsulated, bad)
    ensures OnlyChecks(old(packet.buffer[..]), packet.buffer[..], r, kind, encapsulated)
  {
    hide CrcStored, SumOk, Norm, Sum16, LiteOk;
    match kind {
      case SCTP =>
        var skip := if encapsulated then 8 else 0;
        StoreCrc(packet, r.start + skip, r.bytes - skip, bad);
        if encapsulated {
          UdpAround(packet, r, little);
        }
      case TCP =>
        var skip := if encapsulated then 8 else 0;
        StoreTransport(packet, r, IPPROTO_TCP, skip, 16, little);
        if encapsulated {
          ghost var s := packet.buffer[..];
          UdpAround(packet, r, little);
          SumSame(s, packet.buffer[..], r, IPPROTO_TCP);
        }
      case UDP =>
        StoreTransport(packet, r, IPPROTO_UDP, 0, 6, little);
      case ICMPv4 =>
        StoreSum(packet, r.start, r.bytes, 2, [], little);
        assert [] + packet.buffer[..][r.start..r.start + r.bytes] == packet.buffer[..][r.start..r.start + r.bytes];
      case ICMPv6 =>
        StoreTransport(packet, r, IPPROTO_ICMPV6, 0, 2, little);
      case UDPLite =>
        StoreLite(packet, r, little);
    }
  }

  /** The checksum of a UDP-Lite packet. */
  method StoreLite(packet: Packet, r: Region, little: bool)
    requires Fits(packet.buffer[..], r) && r.bytes >= 8
    modifies packet.buffer
    ensures LiteOk(packet.buffer[..], r)
    ensures OnlyAt(old(packet.buffer[..]), packet.buffer[..], r.start + 6, 2)
  {
    hide InternetChecksum, Pseudo, Splice, Be16Bytes, OnlyAt, LiteOk, Coverage, Be16;
    ghost var s, p := packet.buffer[..], r.start;
    CoverageFits(s, r);
    var cov := Coverage(packet.buffer[..], r);
    var pseudo := Pseudo(packet.buffer[..], r, IPPROTO_UDPLITE, r.bytes);
    packet.PutBe16(r.start + 6, 0);
    ghost var z := packet.buffer[..];
    var field := CoveredSum(packet, r.start, cov, pseudo, little);
    packet.PutField(r.start + 6, field);
    SpliceTwice(s, p + 6, Be16Bytes(0), field);
    SpliceOnlyAt(s, p + 6, field);
    LiteStored(s, z, packet.buffer[..], r, InternetChecksum(pseudo + z[p..p + cov]));
  }

  method CoveredSum(packet: Packet, p: nat, n: nat, pseudo: seq<byte>, little: bool) returns (field: seq<byte>)
    requires p + n <= packet.buffer.Length && n < 0x1_0000 && |pseudo| % 4 == 0 && |pseudo| <= 40
    ensures field == Be16Bytes(InternetChecksum(pseudo + packet.buffer[..][p..p + n]))
  {
    hide InternetChecksum, Be16Bytes;
    assert packet.buffer[p..p + n] == packet.buffer[..][p..p + n];
    field := TransportChecksum(pseudo, packet.buffer[p..p + n], little);
  }

  lemma CoverageFits(s: seq<byte>, r: Region)
    requires Fits(s, r) && r.bytes >= 8
    ensures 1 <= Coverage(s, r) <= r.bytes
  {
  }

  lemma LiteStored(s: seq<byte>, z: seq<byte>, t: seq<byte>, r: Region, c: u16)
    requires Fits(s, r) && r.bytes >= 8 && z == Splice(s, r.start + 6, Be16Bytes(0)) && t == Splice(s, r.start + 6, Be16Bytes(c))
    requires Coverage(s, r) <= r.bytes
    requires c == InternetChecksum(Pseudo(s, r, IPPROTO_UDPLITE, r.bytes) + z[r.start..r.start + Coverage(s, r)])
    ensures LiteOk(t, r)
  {
    hide InternetChecksum, Norm, Pseudo, Be16Bytes, Splice, Be16, LiteSum;
    var p, cov := r.start, Coverage(s, r);
    var pseudo := Pseudo(s, r, IPPROTO_UDPLITE, r.bytes);
    PseudoSame(s, t, r, IPPROTO_UDPLITE, r.bytes);
    PseudoSame(s, z, r, IPPROTO_UDPLITE, r.bytes);
    LiteFields(s, t, p, c);
    ZeroWord();
    SpliceTwice(s, p + 6, Be16Bytes(c), Be16Bytes(0));
    LiteSumIs(z, r, cov);
    LiteSumIs(t, r, cov);
    if cov >= 8 {
      SpliceTwice(s, p + 6, Be16Bytes(0), Be16Bytes(c));
      SumVerifies(s, z, t, pseudo, p, cov, 6);
    }
  }

  lemma ZeroWord()
    ensures Be16Bytes(0) == [0, 0]
  {
  }

  lemma LiteSumIs(s: seq<byte>, r: Region, cov: nat)
    requires Fits(s, r) && cov <= r.bytes
    ensures InternetChecksum(Pseudo(s, r, IPPROTO_UDPLITE, r.bytes) + s[r.start..r.start + cov]) == 0xffff - Norm(LiteSum(s, r, cov))
  {
    hide Sum16, Norm, Pseudo, AddressSum;
    PseudoSum(s, r, IPPROTO_UDPLITE, r.bytes);
    Sum16Concat(Pseudo(s, r, IPPROTO_UDPLITE, r.bytes), s[r.start..r.start + cov], false);
  }

  lemma LiteFields(s: seq<byte>, t: seq<byte>, p: nat, c: u16)
    requires p + 8 <= |s| && t == Splice(s, p + 6, Be16Bytes(c))
    ensures Be16(t, p + 4) == Be16(s, p + 4) && Be16(t, p + 6) == c
  {
    assert t[p + 6..p + 8] == Be16Bytes(c);
    Be16Moved(t, p + 6);
  }

  /** The checksum of the UDP header around an encapsulated packet is computed last. */
  method UdpAround(packet: Packet, r: Region, little: bool)
    requires Fits(packet.buffer[..], r) && r.bytes >= 8
    modifies packet.buffer
    ensures SumOk(packet.buffer[..], r, IPPROTO_UDP, 0)
    ensures OnlyAt(old(packet.buffer[..]), packet.buffer[..], r.start + 6, 2)
    ensures packet.buffer[..][r.start + 8..r.start + r.bytes] == old(packet.buffer[..])[r.start + 8..r.start + r.bytes]
  {
    hide SumOk;
    StoreTransport(packet, r, IPPROTO_UDP, 0, 6, little);
  }

  lemma SumSame(s: seq<byte>, t: seq<byte>, r: Region, protocol: byte)
    requires Fits(s, r) && r.bytes >= 8 && OnlyIn(s, t, r) && SumOk(s, r, protocol, 8)
    requires s[r.start + 8..r.start + r.bytes] == t[r.start + 8..r.start + r.bytes]
    ensures SumOk(t, r, protocol, 8)
  {
    hide Norm, Sum16;
    var o := r.ipOffset;
    assert r.ip.IPv4? ==> s[o + 12..o + 16] == t[o + 12..o + 16] && s[o + 16..o + 20] == t[o + 16..o + 20];
    assert r.ip.IPv6? ==> s[o + 8..o + 24] == t[o + 8..o + 24] && s[o + 24..o + 40] == t[o + 24..o + 40];
  }

  /** Which layer-4 pointer decides, in the order in which they are looked at. */
  function Layer4Kind(pointers: Pointers): Kind {
    if SCTP in pointers then SCTP
    else if TCP in pointers then TCP
    else if UDP in pointers then UDP
    else if UDPLite in pointers then UDPLite
    else if ICMPv4 in pointers then ICMPv4
    else ICMPv6
  }

  /** The region below an IP header, from the length fields of the header. */
  function RegionOf(s: seq<byte>, ip: Kind, o: nat): Region
    requires IsIp(ip) && o + 20 <= |s|
    requires ip.IPv4? ==> 4 * (s[o] % 16) <= Be16(s, o + 2)
  {
    if ip.IPv4? then Region(IPv4, o, o + 4 * (s[o] % 16), Be16(s, o + 2) - 4 * (s[o] % 16))
    else Region(IPv6, o, o + 40, Be16(s, o + 4))
  }

  /** The IP header and what it spans are in the buffer, and the layer-4 pointer points behind
      the IP header, or behind the UDP header there. */
  ghost predicate Placed(packet: Packet, ip: Kind)
    reads packet, packet.buffer
  {
    && IsIp(ip) && ip in packet.pointers && packet.pointers[ip] + 20 <= packet.buffer.Length
    && var s, o := packet.buffer[..], packet.pointers[ip];
    && (ip.IPv4? ==> 20 <= 4 * (s[o] % 16) <= Be16(s, o + 2))
    && var r, kind := RegionOf(s, ip, o), Layer4Kind(packet.pointers);
    && Fits(s, r) && Long(r, kind, packet.udpEncapsulated)
    && kind in packet.pointers && packet.pointers[kind] == r.start + (if packet.udpEncapsulated then 8 else 0)
  }

  predicate InCheckField(r: Region, k: int) {
    r.ip.IPv4? && r.ipOffset + 10 <= k < r.ipOffset + 12
  }

  /** Both checksums of the receiver, and nothing else touched. */
  ghost predicate Checksummed(s: seq<byte>, t: seq<byte>, r: Region, kind: Kind, encapsulated: bool, bad: bool)
    requires Fits(s, r) && |s| == |t| && Long(r, kind, encapsulated)
  {
    && (r.ip.IPv4? ==> Norm(Sum16(t[r.ipOffset..r.start], false)) == 0xffff)
    && Layer4Ok(t, r, kind, encapsulated, bad)
    && forall k :: 0 <= k < |s| && !InCheckField(r, k) && !InLayer4Check(r, kind, encapsulated, k) ==> s[k] == t[k]
  }

  /** checksum_ipv4_packet and checksum_ipv6_packet. */
  method ChecksumPacket(packet: Packet, ip: Kind, bad: bool, little: bool)
    requires Placed(packet, ip)
    modifies packet.buffer
    ensures var s, o := old(packet.buffer[..]), packet.pointers[ip];
            Checksummed(s, packet.buffer[..], RegionOf(s, ip, o), Layer4Kind(packet.pointers), packet.udpEncapsulated, bad)
  {
    hide Norm, Sum16, Layer4Ok, Be16;
    ghost var s := packet.buffer[..];
    var o := packet.pointers[ip];
    var r := RegionOf(packet.buffer[..], ip, o);
    var kind := Layer4Kind(packet.pointers);
    if ip.IPv4? {
      StoreSum(packet, o, r.start - o, 10, [], little);
      assert [] + packet.buffer[..][o..r.start] == packet.buffer[..][o..r.start];
    }
    ghost var t := packet.buffer[..];
    ChecksumLayer4(packet, r, kind, packet.udpEncapsulated, bad, little);
    assert ip.IPv4? ==> packet.buffer[..][o..r.start] == t[o..r.start];
  }
}
