/**
 The packet parser. It keeps two cursors, the parse position and the number of header bytes
 recorded in the packet, and appends to the packet's header list as it descends.

 Each parse function is proved to compute what `Layers.Run` computes with one cursor, to
 leave the buffer as it was, and to set the packet's pointers.
 */
module Parser {
  import opened Bytes
  import opened Checksum
  import opened Crc32c
  import opened Layers

  /** Pointers into the buffer, by the kind of header they point to. A pointer that is not
      in the map is null. */
  type Pointers = map<Kind, nat>

  /** The pointers name the innermost IP header and the last header, and nothing else. */
  ghost predicate Named(pointers: Pointers, hs: seq<Header>) {
    exists k :: InnermostIp(hs, k) && hs != [] && IsLayer4(hs[|hs| - 1].kind) &&
      pointers == map[hs[k].kind := hs[k].offset, hs[|hs| - 1].kind := hs[|hs| - 1].offset]
  }

  predicate InnermostIp(hs: seq<Header>, k: int) {
    0 <= k < |hs| && IsIp(hs[k].kind) && forall j :: k < j < |hs| ==> !IsIp(hs[j].kind)
  }

  /** Only the pointer to the last header is set, and no IP header is behind the first n. */
  ghost predicate InnerNamed(pointers: Pointers, hs: seq<Header>, n: nat) {
    && n < |hs| && IsLayer4(hs[|hs| - 1].kind)
    && pointers == map[hs[|hs| - 1].kind := hs[|hs| - 1].offset]
    && forall j :: n <= j < |hs| ==> !IsIp(hs[j].kind)
  }

  /** The last header is carried in UDP. */
  predicate InUdp(hs: seq<Header>) {
    |hs| >= 2 && hs[|hs| - 2].kind.UDP?
  }

  function HeaderBytes(hs: seq<Header>): nat {
    if hs == [] then 0 else hs[0].headerBytes + HeaderBytes(hs[1..])
  }

  /** Where the cursor ipBytes is after reading the headers hs from p on: an outermost IP
      header sets it to the length of the datagram. */
  function Cursor(p: nat, hs: seq<Header>): nat {
    if p == 0 && hs != [] && IsIp(hs[0].kind) then hs[0].totalBytes else p + HeaderBytes(hs)
  }

  /** The facts about a parse that do not change on the way. */
  datatype Context = Context(end: nat, slack: byte, encaps: byte, little: bool)

  class Packet {
    const buffer: array<byte>
    var ipBytes: nat
    var headers: seq<Header>
    var pointers: Pointers
    var udpEncapsulated: bool

    /** packet_new. */
    constructor (bufferBytes: nat)
      ensures fresh(buffer) && buffer.Length == bufferBytes
      ensures ipBytes == 0 && headers == [] && pointers == map[] && !udpEncapsulated
    {
      buffer := new byte[bufferBytes];
      ipBytes := 0;
      headers := [];
      pointers := map[];
      udpEncapsulated := false;
    }

    ghost predicate Ready(cx: Context)
      reads this
    {
      && cx.end <= buffer.Length
      && |headers| <= PACKET_MAX_HEADERS
      && (cx.encaps == 0 || cx.encaps == IPPROTO_SCTP || cx.encaps == IPPROTO_TCP)
    }

    ghost function In(cx: Context): (i: Input)
      reads this, buffer
      requires Ready(cx)
      ensures Sound(i)
    {
      Input(buffer[..], cx.end, cx.slack, cx.encaps)
    }

    /** packet_append_header. */
    method AppendHeader(kind: Kind, headerBytes: nat) returns (ok: bool)
      requires |headers| <= PACKET_MAX_HEADERS
      modifies this`headers, this`ipBytes
      ensures ok <==> old(|headers|) < PACKET_MAX_HEADERS && old(ipBytes) + headerBytes <= buffer.Length
      ensures ok ==> headers == old(headers) + [Header(kind, old(ipBytes), headerBytes, 0)]
      ensures ok ==> ipBytes == old(ipBytes) + headerBytes
      ensures !ok ==> unchanged(this)
    {
      if |headers| == PACKET_MAX_HEADERS {
        return false;
      }
      if ipBytes + headerBytes > buffer.Length {
        return false;
      }
      headers := headers + [Header(kind, ipBytes, headerBytes, 0)];
      ipBytes := ipBytes + headerBytes;
      return true;
    }

    /** Append a header and set its total length. Because the two cursors agree, the only
        reason for failure is that there are six headers already. */
    method Push(kind: Kind, headerBytes: nat, totalBytes: nat, ghost p: nat) returns (ok: bool)
      requires |headers| <= PACKET_MAX_HEADERS && ipBytes == p && p + headerBytes <= buffer.Length
      modifies this`headers, this`ipBytes
      ensures ok <==> old(|headers|) < PACKET_MAX_HEADERS
      ensures ok ==> headers == old(headers) + [Header(kind, p, headerBytes, totalBytes)]
      ensures ok ==> ipBytes == p + headerBytes
      ensures !ok ==> unchanged(this)
    {
      ok := AppendHeader(kind, headerBytes);
      if ok {
        var n := |headers| - 1;
        headers := headers[n := headers[n].(totalBytes := totalBytes)];
      }
    }

    /** Store a 32-bit field in network byte order. */
    method PutBe32(at: nat, v: u32)
      requires at + 4 <= buffer.Length
      modifies buffer
      ensures buffer[..] == Splice(old(buffer[..]), at, Be32Bytes(v))
    {
      var b := Be32Bytes(v);
      buffer[at], buffer[at + 1], buffer[at + 2], buffer[at + 3] := b[0], b[1], b[2], b[3];
      assert buffer[at..at + 4] == b;
    }

    /** What every parse function does: it reads the headers r from p on, appends them, moves
        the cursor ipBytes past them, and leaves the buffer as it was. */
    twostate predicate Did(r: Parsed, p: nat, result: Outcome)
      reads this, buffer
    {
      && buffer[..] == old(buffer[..])
      && result == r.outcome && headers == old(headers) + r.headers && |headers| <= PACKET_MAX_HEADERS
      && ipBytes == Cursor(p, r.headers)
    }

    /** The checksum field is zeroed while the CRC is computed, and restored. */
    method CheckCrc(p: nat, bytes: nat) returns (ok: bool)
      requires 12 <= bytes && p + bytes <= buffer.Length
      modifies buffer
      ensures buffer[..] == old(buffer[..])
      ensures ok <==> CrcMatches(buffer[..][p..p + bytes])
    {
      hide CrcField, Splice, Be32, Be32Bytes;
      ghost var s := buffer[..];
      SpliceWindow(s, p, bytes, 8, Be32Bytes(0));
      Be32Zero();
      Be32OfBytes(s, p + 8);
      SpliceBack(s, p + 8, Be32Bytes(0));
      Be32Moved(s, p, bytes);
      var received := Be32(buffer[p + 8..p + 12], 0);
      PutBe32(p + 8, 0);
      var computed := SctpCrc32c(buffer[p..p + bytes]);
      PutBe32(p + 8, received);
      ok := received == computed;
    }

    /** parse_sctp. */
    method ParseSctp(cx: Context, p: nat, layer4Bytes: nat) returns (result: Outcome)
      requires Ready(cx) && ipBytes == p && p + layer4Bytes <= cx.end && pointers == map[]
      modifies this`headers, this`ipBytes, this`pointers, buffer
      ensures Did(RunHeader(old(In(cx)), SCTP, p, layer4Bytes, old(|headers|)), p, result)
      ensures result.PacketOk? ==> InnerNamed(pointers, headers, old(|headers|)) && |headers| == old(|headers|) + 1
      ensures !result.PacketUnknownL4?
    {
      hide CrcMatches, RunHeader;
      ghost var i := In(cx);
      RunLeaf(i, SCTP, p, layer4Bytes, |headers|);
      if layer4Bytes < 12 {
        return PacketBad;
      }
      pointers := pointers[SCTP := p];
      var same := CheckCrc(p, layer4Bytes);
      if !same {
        return PacketBad;
      }
      var ok := Push(SCTP, 12, layer4Bytes, p);
      if !ok {
        return PacketBad;
      }
      return PacketOk;
    }

    /** parse_tcp. */
    method ParseTcp(cx: Context, p: nat, layer4Bytes: nat) returns (result: Outcome)
      requires Ready(cx) && ipBytes == p && p + layer4Bytes <= cx.end && pointers == map[]
      modifies this`headers, this`ipBytes, this`pointers
      ensures Did(RunHeader(old(In(cx)), TCP, p, layer4Bytes, old(|headers|)), p, result)
      ensures result.PacketOk? ==> InnerNamed(pointers, headers, old(|headers|)) && |headers| == old(|headers|) + 1
      ensures !result.PacketUnknownL4?
    {
      hide RunHeader;
      ghost var i := In(cx);
      RunLeaf(i, TCP, p, layer4Bytes, |headers|);
      if layer4Bytes < 20 {
        return PacketBad;
      }
      pointers := pointers[TCP := p];
      var tcpHeaderLen := 4 * (buffer[p + 12] / 16);
      if tcpHeaderLen < 20 {
        return PacketBad;
      }
      if tcpHeaderLen > layer4Bytes {
        return PacketBad;
      }
      var ok := Push(TCP, tcpHeaderLen, layer4Bytes, p);
      if !ok {
        return PacketBad;
      }
      return PacketOk;
    }

    /** parse_udplite. */
    method ParseUdpLite(cx: Context, p: nat, layer4Bytes: nat) returns (result: Outcome)
      requires Ready(cx) && ipBytes == p && p + layer4Bytes <= cx.end && pointers == map[]
      modifies this`headers, this`ipBytes, this`pointers
      ensures Did(RunHeader(old(In(cx)), UDPLite, p, layer4Bytes, old(|headers|)), p, result)
      ensures result.PacketOk? ==> InnerNamed(pointers, headers, old(|headers|)) && |headers| == old(|headers|) + 1
      ensures !result.PacketUnknownL4?
    {
      hide RunHeader;
      ghost var i := In(cx);
      RunLeaf(i, UDPLite, p, layer4Bytes, |headers|);
      if layer4Bytes < 8 {
        return PacketBad;
      }
      pointers := pointers[UDPLite := p];
      var ok := Push(UDPLite, 8, layer4Bytes, p);
      if !ok {
        return PacketBad;
      }
      return PacketOk;
    }

    /** parse_icmpv4, which checks that it comes right after IPv4. */
    method ParseIcmpv4(cx: Context, p: nat, layer4Bytes: nat) returns (result: Outcome)
      requires Ready(cx) && ipBytes == p && p + layer4Bytes <= cx.end && pointers == map[] && headers != []
      modifies this`headers, this`ipBytes, this`pointers
      ensures Did(Run(old(In(cx)), Over(IPPROTO_ICMP, layer4Bytes, old(headers)[old(|headers|) - 1].kind), p, old(|headers|)), p, result)
      ensures result.PacketOk? ==> InnerNamed(pointers, headers, old(|headers|)) && |headers| == old(|headers|) + 1
      ensures !result.PacketUnknownL4?
    {
      hide RunHeader;
      ghost var i := In(cx);
      RunLeaf(i, ICMPv4, p, layer4Bytes, |headers|);
      if !headers[|headers| - 1].kind.IPv4? {
        return PacketBad;
      }
      if layer4Bytes < 8 {
        return PacketBad;
      }
      pointers := pointers[ICMPv4 := p];
      var ok := Push(ICMPv4, 8, layer4Bytes, p);
      if !ok {
        return PacketBad;
      }
      return PacketOk;
    }

    /** parse_icmpv6, which checks that it comes right after IPv6. */
    method ParseIcmpv6(cx: Context, p: nat, layer4Bytes: nat) returns (result: Outcome)
      requires Ready(cx) && ipBytes == p && p + layer4Bytes <= cx.end && pointers == map[] && headers != []
      modifies this`headers, this`ipBytes, this`pointers
      ensures Did(Run(old(In(cx)), Over(IPPROTO_ICMPV6, layer4Bytes, old(headers)[old(|headers|) - 1].kind), p, old(|headers|)), p, result)
      ensures result.PacketOk? ==> InnerNamed(pointers, headers, old(|headers|)) && |headers| == old(|headers|) + 1
      ensures !result.PacketUnknownL4?
    {
      hide RunHeader;
      ghost var i := In(cx);
      RunLeaf(i, ICMPv6, p, layer4Bytes, |headers|);
      if !headers[|headers| - 1].kind.IPv6? {
        return PacketBad;
      }
      if layer4Bytes < 8 {
        return PacketBad;
      }
      pointers := pointers[ICMPv6 := p];
      var ok := Push(ICMPv6, 8, layer4Bytes, p);
      if !ok {
        return PacketBad;
      }
      return PacketOk;
    }

    /** The end of parse_udp: a datagram that carries SCTP or TCP does not set the UDP pointer. */
    method ParseEncapsulated(cx: Context, p: nat, bytes: nat) returns (result: Outcome)
      requires Ready(cx) && ipBytes == p && p + bytes <= cx.end && pointers == map[] && cx.encaps != 0
      modifies this`headers, this`ipBytes, this`pointers, this`udpEncapsulated, buffer
      ensures Did(Run(old(In(cx)), Inside(if cx.encaps == IPPROTO_SCTP then SCTP else TCP, bytes), p, old(|headers|)), p, result)
      ensures result.PacketOk? ==> InnerNamed(pointers, headers, old(|headers|)) && |headers| == old(|headers|) + 1
      ensures !result.PacketUnknownL4? && udpEncapsulated
    {
      hide RunHeader;
      udpEncapsulated := true;
      if cx.encaps == IPPROTO_SCTP {
        result := ParseSctp(cx, p, bytes);
      } else {
        result := ParseTcp(cx, p, bytes);
      }
    }

    /** parse_udp. */
    method ParseUdp(cx: Context, p: nat, layer4Bytes: nat) returns (result: Outcome)
      requires Ready(cx) && ipBytes == p && p + layer4Bytes <= cx.end && pointers == map[]
      requires headers != [] && IsIp(headers[|headers| - 1].kind)
      modifies this`headers, this`ipBytes, this`pointers, this`udpEncapsulated, buffer
      ensures Did(RunHeader(old(In(cx)), UDP, p, layer4Bytes, old(|headers|)), p, result)
      ensures result.PacketOk? ==> InnerNamed(pointers, headers, old(|headers|))
      ensures !result.PacketUnknownL4?
      ensures result.PacketOk? ==> udpEncapsulated == (old(udpEncapsulated) || InUdp(headers))
    {
      hide Run, RunHeader, HeaderAt, Be16, HeaderBytes;
      ghost var i, was := In(cx), headers;
      RunLeaf(i, UDP, p, layer4Bytes, |headers|);
      UdpAt(i, p, layer4Bytes);
      if layer4Bytes < 8 {
        return PacketBad;
      }
      Be16Moved(i.bytes, p + 4);
      var udpLen := Be16(buffer[p + 4..p + 6], 0);
      if udpLen < 8 {
        return PacketBad;
      }
      if udpLen < layer4Bytes {
        return PacketBad;
      }
      if udpLen > layer4Bytes {
        return PacketBad;
      }
      var ok := Push(UDP, 8, layer4Bytes, p);
      if !ok {
        return PacketBad;
      }
      if cx.encaps == 0 {
        pointers := pointers[UDP := p];
        return PacketOk;
      }
      RunNode(i, UDP, p, layer4Bytes, |was|);
      result := ParseEncapsulated(cx, p + 8, layer4Bytes - 8);
      Regroup(was, Header(UDP, p, 8, layer4Bytes), headers);
    }

    /** Store a 16-bit field in network byte order. */
    method PutBe16(at: nat, v: u16)
      requires at + 2 <= buffer.Length
      modifies buffer
      ensures buffer[..] == Splice(old(buffer[..]), at, Be16Bytes(v))
    {
      var b := Be16Bytes(v);
      buffer[at], buffer[at + 1] := b[0], b[1];
      assert buffer[at..at + 2] == b;
    }

    /** Store two bytes as they are. */
    method PutField(at: nat, v: seq<byte>)
      requires at + 2 <= buffer.Length && |v| == 2
      modifies buffer
      ensures buffer[..] == Splice(old(buffer[..]), at, v)
    {
      buffer[at], buffer[at + 1] := v[0], v[1];
      assert buffer[at..at + 2] == v;
    }

    /** What parse_ipv4 does for its error message: zero the field, compute, and restore. */
    method ExpectedChecksum(cx: Context, p: nat, headerBytes: nat) returns (received: u16, computed: seq<byte>)
      requires 20 <= headerBytes <= 60 && p + headerBytes <= buffer.Length
      modifies buffer
      ensures buffer[..] == old(buffer[..])
      ensures received == Be16(buffer[..], p + 10)
      ensures computed == Be16Bytes(InternetChecksum(Splice(buffer[..][p..p + headerBytes], 10, Be16Bytes(0))))
    {
      hide InternetChecksum, Splice, Be16, Be16Bytes;
      ghost var s := buffer[..];
      SpliceWindow(s, p, headerBytes, 10, Be16Bytes(0));
      Be16OfBytes(s, p + 10);
      Be16Moved(s, p + 10);
      SpliceBack(s, p + 10, Be16Bytes(0));
      received := Be16(buffer[p + 10..p + 12], 0);
      PutBe16(p + 10, 0);
      computed := Ipv4Checksum(buffer[p..p + headerBytes], cx.little);
      PutBe16(p + 10, received);
    }

    /** The checks at the beginning of parse_ipv4. */
    method CheckIpv4(cx: Context, p: nat) returns (ok: bool, headerBytes: nat, totalBytes: nat)
      requires Ready(cx) && p <= cx.end
      modifies buffer
      ensures buffer[..] == old(buffer[..])
      ensures ok ==> 20 <= headerBytes <= totalBytes && p + totalBytes <= cx.end
      ensures var f := HeaderAt(old(In(cx)), IPv4, p, 0);
              if ok then f == Whole(headerBytes, totalBytes, Over(buffer[p + 9], totalBytes - headerBytes, IPv4)) else f.Broken?
    {
      hide InternetChecksum, Be16, Fragmented;
      ghost var i := In(cx);
      headerBytes := 4 * ((if p < cx.end then buffer[p] else cx.slack) % 16);
      totalBytes := 0;
      if headerBytes < 20 {
        return false, headerBytes, totalBytes;
      }
      if p + headerBytes > cx.end {
        return false, headerBytes, totalBytes;
      }
      Be16Moved(i.bytes, p + 2);
      totalBytes := Be16(buffer[p + 2..p + 4], 0);
      if p + totalBytes > cx.end {
        return false, headerBytes, totalBytes;
      }
      if headerBytes > totalBytes {
        return false, headerBytes, totalBytes;
      }
      Be16Moved(i.bytes, p + 6);
      if Fragmented(Be16(buffer[p + 6..p + 8], 0)) {
        return false, headerBytes, totalBytes;
      }
      var checksum := Ipv4Checksum(buffer[p..p + headerBytes], cx.little);
      assert buffer[p..p + headerBytes] == i.bytes[p..p + headerBytes];
      ZeroField(InternetChecksum(i.bytes[p..p + headerBytes]));
      if checksum != [0, 0] {
        var received, computed := ExpectedChecksum(cx, p, headerBytes);
        return false, headerBytes, totalBytes;
      }
      return true, headerBytes, totalBytes;
    }

    /** parse_ipv4. */
    method ParseIpv4(cx: Context, p: nat) returns (result: Outcome)
      requires Ready(cx) && ipBytes == p <= cx.end && pointers == map[]
      modifies this`headers, this`ipBytes, this`pointers, this`udpEncapsulated, buffer
      ensures Did(RunHeader(old(In(cx)), IPv4, p, 0, old(|headers|)), p, result)
      ensures result.PacketOk? ==> Named(pointers, headers)
      ensures result.PacketUnknownL4? ==> pointers == map[]
      ensures result.PacketOk? ==> udpEncapsulated == (old(udpEncapsulated) || InUdp(headers))
      decreases cx.end - p, 0
    {
      hide Run, RunHeader, HeaderAt, HeaderBytes, Named, InUdp, Be16;
      ghost var i, was := In(cx), headers;
      var isOuter := ipBytes == 0;
      RunLeaf(i, IPv4, p, 0, |headers|);
      var ok, headerBytes, totalBytes := CheckIpv4(cx, p);
      if !ok {
        return PacketBad;
      }
      ok := Push(IPv4, headerBytes, totalBytes, p);
      if !ok {
        return PacketBad;
      }
      RunNode(i, IPv4, p, 0, |was|);
      result := EndIp(cx, IPv4, p, headerBytes, totalBytes, buffer[p + 9], isOuter, was);
    }

    /** The end of parse_ipv4 and of parse_ipv6. */
    method EndIp(cx: Context, kind: Kind, p: nat, headerBytes: nat, totalBytes: nat, protocol: byte, isOuter: bool, ghost was: seq<Header>)
      returns (result: Outcome)
      requires Ready(cx) && IsIp(kind) && 0 < headerBytes <= totalBytes && p + totalBytes <= cx.end && (isOuter <==> p == 0)
      requires headers == was + [Header(kind, p, headerBytes, totalBytes)] && ipBytes == p + headerBytes && pointers == map[]
      modifies this`headers, this`ipBytes, this`pointers, this`udpEncapsulated, buffer
      ensures var h := Header(kind, p, headerBytes, totalBytes);
              var rest := Run(old(In(cx)), Over(protocol, totalBytes - headerBytes, kind), p + headerBytes, |was| + 1);
              && buffer[..] == old(buffer[..]) && result == rest.outcome
              && headers == was + ([h] + rest.headers) && |headers| <= PACKET_MAX_HEADERS
              && ipBytes == if isOuter then totalBytes else p + headerBytes + HeaderBytes(rest.headers)
      ensures result.PacketOk? ==> Named(pointers, headers)
      ensures result.PacketUnknownL4? ==> pointers == map[]
      ensures result.PacketOk? ==> udpEncapsulated == (old(udpEncapsulated) || InUdp(headers))
      decreases cx.end - (p + headerBytes), 2
    {
      hide Run, HeaderBytes, Named, InnerNamed, InUdp;
      var isInner;
      result, isInner := ParseLayer4(cx, p + headerBytes, protocol, totalBytes - headerBytes);
      Regroup(was, Header(kind, p, headerBytes, totalBytes), headers);
      if isInner {
        if result.PacketOk? { NameIp(pointers, headers, |was|); }
        pointers := pointers[kind := p];
      }
      if isOuter {
        ipBytes := totalBytes;
      }
    }

    /** The checks at the beginning of parse_ipv6. */
    method CheckIpv6(cx: Context, p: nat) returns (ok: bool, headerBytes: nat, totalBytes: nat)
      requires Ready(cx) && p <= cx.end
      ensures ok ==> headerBytes == 40 <= totalBytes && p + totalBytes <= cx.end
      ensures var f := HeaderAt(In(cx), IPv6, p, 0);
              if ok then f == Whole(headerBytes, totalBytes, Over(buffer[p + 6], totalBytes - headerBytes, IPv6)) else f.Broken?
    {
      hide HeaderAt, Be16;
      ghost var i := In(cx);
      Ipv6At(i, p);
      headerBytes, totalBytes := 40, 0;
      if p + headerBytes > cx.end {
        return false, headerBytes, totalBytes;
      }
      Be16Moved(i.bytes, p + 4);
      totalBytes := headerBytes + Be16(buffer[p + 4..p + 6], 0);
      return p + totalBytes <= cx.end, headerBytes, totalBytes;
    }

    /** parse_ipv6. */
    method ParseIpv6(cx: Context, p: nat) returns (result: Outcome)
      requires Ready(cx) && ipBytes == p <= cx.end && pointers == map[]
      modifies this`headers, this`ipBytes, this`pointers, this`udpEncapsulated, buffer
      ensures Did(RunHeader(old(In(cx)), IPv6, p, 0, old(|headers|)), p, result)
      ensures result.PacketOk? ==> Named(pointers, headers)
      ensures result.PacketUnknownL4? ==> pointers == map[]
      ensures result.PacketOk? ==> udpEncapsulated == (old(udpEncapsulated) || InUdp(headers))
      decreases cx.end - p, 0
    {
      hide Run, RunHeader, HeaderAt, HeaderBytes, Named, InUdp, Be16;
      ghost var i, was := In(cx), headers;
      var isOuter := ipBytes == 0;
      RunLeaf(i, IPv6, p, 0, |headers|);
      var ok, headerBytes, totalBytes := CheckIpv6(cx, p);
      if !ok {
        return PacketBad;
      }
      ok := Push(IPv6, headerBytes, totalBytes, p);
      if !ok {
        return PacketBad;
      }
      RunNode(i, IPv6, p, 0, |was|);
      result := EndIp(cx, IPv6, p, headerBytes, totalBytes, buffer[p + 6], isOuter, was);
    }

    /** parse_layer4. */
    method ParseLayer4(cx: Context, p: nat, protocol: byte, bytes: nat) returns (result: Outcome, isInner: bool)
      requires Ready(cx) && 0 < ipBytes == p && p + bytes <= cx.end && pointers == map[]
      requires headers != [] && IsIp(headers[|headers| - 1].kind)
      modifies this`headers, this`ipBytes, this`pointers, this`udpEncapsulated, buffer
      ensures Did(Run(old(In(cx)), Over(protocol, bytes, old(headers)[old(|headers|) - 1].kind), p, old(|headers|)), p, result)
      ensures result.PacketOk? ==> if isInner then InnerNamed(pointers, headers, old(|headers|)) else Named(pointers, headers)
      ensures result.PacketUnknownL4? ==> pointers == map[] && !isInner
      ensures result.PacketOk? ==> udpEncapsulated == (old(udpEncapsulated) || InUdp(headers))
      decreases cx.end - p, 1
    {
      hide RunHeader, HeaderAt, Named, InnerNamed;
      isInner := true;
      if protocol == IPPROTO_SCTP {
        result := ParseSctp(cx, p, bytes);
      } else if protocol == IPPROTO_TCP {
        result := ParseTcp(cx, p, bytes);
      } else if protocol == IPPROTO_UDP {
        result := ParseUdp(cx, p, bytes);
      } else if protocol == IPPROTO_UDPLITE {
        result := ParseUdpLite(cx, p, bytes);
      } else if protocol == IPPROTO_ICMP {
        result := ParseIcmpv4(cx, p, bytes);
      } else if protocol == IPPROTO_ICMPV6 {
        result := ParseIcmpv6(cx, p, bytes);
      } else if protocol == IPPROTO_GRE {
        isInner := false;
        result := ParseGre(cx, p, bytes);
      } else if protocol == IPPROTO_IPIP {
        isInner := false;
        result := ParseIpv4(cx, p);
      } else if protocol == IPPROTO_IPV6 {
        isInner := false;
        result := ParseIpv6(cx, p);
      } else {
        return PacketUnknownL4, false;
      }
    }

    /** parse_gre. */
    method ParseGre(cx: Context, p: nat, layer4Bytes: nat) returns (result: Outcome)
      requires Ready(cx) && 0 < ipBytes == p && p + layer4Bytes <= cx.end && pointers == map[]
      modifies this`headers, this`ipBytes, this`pointers, this`udpEncapsulated, buffer
      ensures Did(RunHeader(old(In(cx)), GRE, p, layer4Bytes, old(|headers|)), p, result)
      ensures result.PacketOk? ==> Named(pointers, headers)
      ensures result.PacketUnknownL4? ==> pointers == map[]
      ensures result.PacketOk? ==> udpEncapsulated == (old(udpEncapsulated) || InUdp(headers))
      decreases cx.end - p, 0
    {
      hide Run, RunHeader, HeaderAt, HeaderBytes, Named, InUdp, Be16;
      ghost var i, was := In(cx), headers;
      RunLeaf(i, GRE, p, layer4Bytes, |headers|);
      GreAt(i, p, layer4Bytes);
      if layer4Bytes < 4 {
        return PacketBad;
      }
      if !GreSupported(buffer[p], buffer[p + 1]) {
        return PacketBad;
      }
      var greHeaderLen := GreBytes(buffer[p]);
      if greHeaderLen > layer4Bytes {
        return PacketBad;
      }
      var ok := Push(GRE, greHeaderLen, layer4Bytes, p);
      if !ok {
        return PacketBad;
      }
      RunNode(i, GRE, p, layer4Bytes, |was|);
      Be16Moved(i.bytes, p + 2);
      result := ParseLayer3ByProto(cx, p + greHeaderLen, Be16(buffer[p + 2..p + 4], 0));
      Regroup(was, Header(GRE, p, greHeaderLen, layer4Bytes), headers);
    }

    /** The loop of parse_mpls over the label stack. */
    method WalkStack(cx: Context, p: nat) returns (bytes: nat)
      requires Ready(cx) && p <= cx.end
      ensures bytes == StackBytes(In(cx), p)
    {
      ghost var i := In(cx);
      var q := p;
      var isStackBottom := false;
      bytes := 0;
      var done := false;
      while !done
        invariant q == p + bytes <= cx.end
        invariant !done ==> StackBytes(i, p) == if StackBytes(i, q) == 0 then 0 else bytes + StackBytes(i, q)
        invariant done ==> bytes == StackBytes(i, p)
        decreases cx.end - q, !done
      {
        if q + 4 > cx.end {
          return 0;
        }
        isStackBottom := buffer[q + 2] % 2 == 1;
        q := q + 4;
        bytes := bytes + 4;
        done := isStackBottom || q >= cx.end;
      }
    }

    /** parse_mpls. */
    method ParseMpls(cx: Context, p: nat) returns (result: Outcome)
      requires Ready(cx) && ipBytes == p <= cx.end && pointers == map[]
      modifies this`headers, this`ipBytes, this`pointers, this`udpEncapsulated, buffer
      ensures Did(RunHeader(old(In(cx)), MPLS, p, 0, old(|headers|)), p, result)
      ensures result.PacketOk? ==> Named(pointers, headers)
      ensures result.PacketUnknownL4? ==> pointers == map[]
      ensures result.PacketOk? ==> udpEncapsulated == (old(udpEncapsulated) || InUdp(headers))
      decreases cx.end - p, 0
    {
      hide Run, RunHeader, HeaderAt, HeaderBytes, Named, InUdp, StackBytes;
      ghost var i, was := In(cx), headers;
      RunLeaf(i, MPLS, p, 0, |headers|);
      MplsAt(i, p);
      var mplsHeaderBytes := WalkStack(cx, p);
      if mplsHeaderBytes == 0 {
        return PacketBad;
      }
      var mplsTotalBytes := cx.end - p;
      var ok := Push(MPLS, mplsHeaderBytes, mplsTotalBytes, p);
      if !ok {
        return PacketBad;
      }
      RunNode(i, MPLS, p, 0, |was|);
      result := ParseLayer3(cx, p + mplsHeaderBytes);
      Regroup(was, Header(MPLS, p, mplsHeaderBytes, mplsTotalBytes), headers);
    }

    /** parse_layer3_packet. */
    method ParseLayer3(cx: Context, p: nat) returns (result: Outcome)
      requires Ready(cx) && ipBytes == p <= cx.end && pointers == map[]
      modifies this`headers, this`ipBytes, this`pointers, this`udpEncapsulated, buffer
      ensures Did(Run(old(In(cx)), AnyIp, p, old(|headers|)), p, result)
      ensures result.PacketOk? ==> Named(pointers, headers)
      ensures result.PacketUnknownL4? ==> pointers == map[]
      ensures result.PacketOk? ==> udpEncapsulated == (old(udpEncapsulated) || InUdp(headers))
      decreases cx.end - p, 1
    {
      hide RunHeader, Named;
      if p + 20 > cx.end {
        return PacketBad;
      }
      if buffer[p] / 16 == 4 {
        result := ParseIpv4(cx, p);
      } else if buffer[p] / 16 == 6 {
        result := ParseIpv6(cx, p);
      } else {
        result := PacketBad;
      }
    }

    /** parse_layer3_packet_by_proto. */
    method ParseLayer3ByProto(cx: Context, p: nat, proto: u16) returns (result: Outcome)
      requires Ready(cx) && ipBytes == p <= cx.end && pointers == map[]
      modifies this`headers, this`ipBytes, this`pointers, this`udpEncapsulated, buffer
      ensures Did(Run(old(In(cx)), Ether(proto), p, old(|headers|)), p, result)
      ensures result.PacketOk? ==> Named(pointers, headers)
      ensures result.PacketUnknownL4? ==> pointers == map[]
      ensures result.PacketOk? ==> udpEncapsulated == (old(udpEncapsulated) || InUdp(headers))
      decreases cx.end - p, 1
    {
      hide RunHeader, Named;
      if proto == ETHERTYPE_IP {
        if p + 20 > cx.end {
          return PacketBad;
        }
        if buffer[p] / 16 == 4 {
          result := ParseIpv4(cx, p);
        } else {
          result := PacketBad;
        }
      } else if proto == ETHERTYPE_IPV6 {
        if p + 40 > cx.end {
          return PacketBad;
        }
        if buffer[p] / 16 == 6 {
          result := ParseIpv6(cx, p);
        } else {
          result := PacketBad;
        }
      } else if proto == ETHERTYPE_MPLS_UC || proto == ETHERTYPE_MPLS_MC {
        result := ParseMpls(cx, p);
      } else {
        result := PacketUnknownL4;
      }
    }

    /** parse_packet, on a new packet. */
    method ParsePacket(cx: Context, etherType: u16) returns (result: Outcome)
      requires Ready(cx) && ipBytes == 0 && headers == [] && pointers == map[]
      modifies this`headers, this`ipBytes, this`pointers, this`udpEncapsulated, buffer
      ensures buffer[..] == old(buffer[..])
      ensures Parsed(result, headers) == Run(old(In(cx)), Ether(etherType), 0, 0)
      ensures ipBytes == Cursor(0, headers)
      ensures result.PacketOk? ==> Named(pointers, headers)
      ensures result.PacketOk? ==> udpEncapsulated == (old(udpEncapsulated) || InUdp(headers))
    {
      hide Run, Named;
      result := ParseLayer3ByProto(cx, 0, etherType);
    }
  }

  lemma Ipv6At(i: Input, p: nat)
    requires Sound(i) && p <= i.end
    ensures var f := HeaderAt(i, IPv6, p, 0);
            if p + 40 > i.end || p + 40 + Be16(i.bytes, p + 4) > i.end then f.Broken?
            else f == Whole(40, 40 + Be16(i.bytes, p + 4), Over(i.bytes[p + 6], Be16(i.bytes, p + 4), IPv6))
  {
  }

  lemma GreAt(i: Input, p: nat, bytes: nat)
    requires Sound(i) && p + bytes <= i.end
    ensures var f := HeaderAt(i, GRE, p, bytes);
            if bytes < 4 || !GreSupported(i.bytes[p], i.bytes[p + 1]) || GreBytes(i.bytes[p]) > bytes then f.Broken?
            else f == Whole(GreBytes(i.bytes[p]), bytes, Ether(Be16(i.bytes, p + 2)))
  {
  }

  lemma MplsAt(i: Input, p: nat)
    requires Sound(i) && p <= i.end
    ensures var n := StackBytes(i, p);
            HeaderAt(i, MPLS, p, 0) == if n == 0 then Broken else Whole(n, i.end - p, AnyIp)
  {
  }

  /** With the pointer to the header that carries layer 4, the naming is complete. */
  lemma NameIp(pointers: Pointers, hs: seq<Header>, k: nat)
    requires k < |hs| && IsIp(hs[k].kind) && InnerNamed(pointers, hs, k + 1)
    ensures Named(pointers[hs[k].kind := hs[k].offset], hs)
  {
    assert InnermostIp(hs, k);
  }

  lemma ZeroField(v: u16)
    ensures Be16Bytes(v) == [0, 0] <==> v == 0
  {
  }

  lemma Regroup(was: seq<Header>, h: Header, now: seq<Header>)
    requires |now| > |was| && now == was + [h] + now[|was| + 1..]
    ensures now == was + ([h] + now[|was| + 1..])
  {
  }

  lemma UdpAt(i: Input, p: nat, bytes: nat)
    requires Sound(i) && p + bytes <= i.end
    ensures var f := HeaderAt(i, UDP, p, bytes);
            if bytes < 8 || Be16(i.bytes, p + 4) != bytes then f.Broken?
            else f == Whole(8, bytes, if i.encaps == IPPROTO_SCTP then Inside(SCTP, bytes - 8)
                                      else if i.encaps == IPPROTO_TCP then Inside(TCP, bytes - 8) else Payload)
  {
  }

  lemma Be32Zero()
    ensures Be32Bytes(0) == Zeros(4)
  {
  }

  lemma Be32Moved(s: seq<byte>, p: nat, bytes: nat)
    requires 12 <= bytes && p + bytes <= |s|
    ensures Be32(s[p + 8..p + 12], 0) == Be32(s, p + 8) == Be32(s[p..p + bytes], 8)
  {
  }

  /** A header with nothing behind it. */
  lemma RunLeaf(i: Input, kind: Kind, p: nat, bytes: nat, count: nat)
    requires Sound(i) && p + bytes <= i.end
    ensures var f := HeaderAt(i, kind, p, bytes);
            var r := RunHeader(i, kind, p, bytes, count);
            && (f.Broken? || count >= PACKET_MAX_HEADERS ==> r == Parsed(PacketBad, []) && HeaderBytes(r.headers) == 0)
            && (f.Whole? && f.next.Payload? && count < PACKET_MAX_HEADERS ==>
                  r == Parsed(PacketOk, [Header(kind, p, f.headerBytes, f.totalBytes)])
                  && HeaderBytes(r.headers) == f.headerBytes)
  {
    hide HeaderAt;
  }

  /** A header with more behind it. */
  lemma RunNode(i: Input, kind: Kind, p: nat, bytes: nat, count: nat)
    requires Sound(i) && p + bytes <= i.end && count < PACKET_MAX_HEADERS
    requires HeaderAt(i, kind, p, bytes).Whole? && !HeaderAt(i, kind, p, bytes).next.Payload?
    ensures var f := HeaderAt(i, kind, p, bytes);
            && p + f.headerBytes <= i.end && Allotted(i, f.next, p + f.headerBytes)
            && var h, rest := Header(kind, p, f.headerBytes, f.totalBytes), Run(i, f.next, p + f.headerBytes, count + 1);
            && RunHeader(i, kind, p, bytes, count) == Parsed(rest.outcome, [h] + rest.headers)
            && HeaderBytes([h] + rest.headers) == h.headerBytes + HeaderBytes(rest.headers)
  {
    hide HeaderAt, Run, Allotted;
    HeaderAtFits(i, kind, p, bytes);
    var f := HeaderAt(i, kind, p, bytes);
    var h, rest := Header(kind, p, f.headerBytes, f.totalBytes), Run(i, f.next, p + f.headerBytes, count + 1);
    assert ([h] + rest.headers)[1..] == rest.headers;
  }
}
