/**
 Sealing and receiving: a packet is given its checksums by checksum_packet, sent, and parsed.
 */
module Sealing {
  import opened Bytes
  import opened Checksum
  import opened Layers
  import opened Chains
  import opened Parser
  import opened Builder
  import opened PacketChecksum

  /** The bytes before checksums are an IP packet around SCTP, plain or in UDP: version,
      protocol and, for IPv4, fragment fields, and the UDP length. */
  predicate IsSctp(s: seq<byte>, r: Region, encapsulated: bool)
    requires Fits(s, r) && Long(r, SCTP, encapsulated)
  {
    var protocol := if encapsulated then 17 else 132;
    && r.ipOffset == 0
    && (r.ip.IPv4? ==>
          s[0] / 16 == 4 && r.start == 4 * (s[0] % 16) && Be16(s, 2) == r.start + r.bytes &&
          Be16(s, 6) % 0x4000 == 0 && s[9] == protocol)
    && (r.ip.IPv6? ==> s[0] / 16 == 6 && r.start == 40 && Be16(s, 4) == r.bytes && s[6] == protocol)
    && (encapsulated ==> Be16(s, r.start + 4) == r.bytes)
  }

  /** The headers of such a packet. */
  function SctpHeaders(r: Region, encapsulated: bool): seq<Header> {
    [Header(r.ip, 0, r.start, r.start + r.bytes)] +
    if encapsulated then [Header(UDP, r.start, 8, r.bytes), Header(SCTP, r.start + 8, 12, if r.bytes >= 8 then r.bytes - 8 else 0)]
    else [Header(SCTP, r.start, 12, r.bytes)]
  }

  /** What the parser finds first. */
  lemma IpFound(i: Input, r: Region, encapsulated: bool)
    requires Sound(i) && Fits(i.bytes, r) && Long(r, SCTP, encapsulated) && IsSctp(i.bytes, r, encapsulated)
    requires i.end == r.start + r.bytes && (r.ip.IPv4? ==> Norm(Sum16(i.bytes[0..r.start], false)) == 0xffff)
    ensures Dispatch(i, Ether(EthProto(r.ip)), 0) == Go(r.ip, 0)
    ensures HeaderAt(i, r.ip, 0, 0) ==
              Whole(r.start, r.start + r.bytes, Over(if encapsulated then IPPROTO_UDP else IPPROTO_SCTP, r.bytes, r.ip))
  {
    hide Norm, Sum16, Be16, Fragmented, StackBytes, CrcMatches;
    assert 0 + r.start == r.start;
    if r.ip.IPv4? { FragmentedIff(Be16(i.bytes, 6)); }
  }

  /** What the parser makes of the layer-4 packet. */
  lemma SctpFound(i: Input, p: nat, bytes: nat, bad: bool, count: nat)
    requires Sound(i) && 12 <= bytes && p + bytes <= i.end && count < PACKET_MAX_HEADERS
    requires CrcMatches(i.bytes[p..p + bytes]) <==> !bad
    ensures RunHeader(i, SCTP, p, bytes, count) ==
              if bad then Parsed(PacketBad, []) else Parsed(PacketOk, [Header(SCTP, p, 12, bytes)])
  {
    hide CrcMatches;
    RunLeaf(i, SCTP, p, bytes, count);
  }

  lemma UdpFound(i: Input, p: nat, bytes: nat)
    requires Sound(i) && 8 <= bytes && p + bytes <= i.end && i.encaps == IPPROTO_SCTP && Be16(i.bytes, p + 4) == bytes
    ensures HeaderAt(i, UDP, p, bytes) == Whole(8, bytes, Inside(SCTP, bytes - 8))
  {
    hide Be16, CrcMatches;
  }

  /** What the parser makes of the whole packet. */
  lemma SealedOutcome(i: Input, r: Region, encapsulated: bool, bad: bool)
    requires Sound(i) && Fits(i.bytes, r) && Long(r, SCTP, encapsulated) && IsSctp(i.bytes, r, encapsulated)
    requires i.end == r.start + r.bytes && (r.ip.IPv4? ==> Norm(Sum16(i.bytes[0..r.start], false)) == 0xffff)
    requires encapsulated ==> i.encaps == IPPROTO_SCTP
    requires Layer4Ok(i.bytes, r, SCTP, encapsulated, bad)
    ensures var result, hs := Run(i, Ether(EthProto(r.ip)), 0, 0), SctpHeaders(r, encapsulated);
            result == if bad then Parsed(PacketBad, hs[..|hs| - 1]) else Parsed(PacketOk, hs)
  {
    hide HeaderAt, RunHeader, CrcMatches, CrcStored, SumOk, Norm, Sum16, Be16, IsSctp, HeaderBytes;
    CrcStoredMatches(i.bytes[r.start + (if encapsulated then 8 else 0)..r.start + r.bytes], bad);
    IpFound(i, r, encapsulated);
    RunNode(i, r.ip, 0, 0, 0);
    if encapsulated {
      assert i.bytes[r.start + 8..r.start + 8 + (r.bytes - 8)] == i.bytes[r.start + 8..r.start + r.bytes];
      UdpLength(i.bytes, r);
      UdpFound(i, r.start, r.bytes);
      RunNode(i, UDP, r.start, r.bytes, 1);
      SctpFound(i, r.start + 8, r.bytes - 8, bad, 2);
    } else {
      SctpFound(i, r.start, r.bytes, bad, 1);
    }
  }

  lemma UdpLength(s: seq<byte>, r: Region)
    requires Fits(s, r) && Long(r, SCTP, true) && IsSctp(s, r, true)
    ensures Be16(s, r.start + 4) == r.bytes
  {
  }

  /** Checksums are written into none of the fields that the parser looks at first. */
  lemma StillSctp(s: seq<byte>, t: seq<byte>, r: Region, encapsulated: bool, bad: bool)
    requires Fits(s, r) && |s| == |t| && Long(r, SCTP, encapsulated) && IsSctp(s, r, encapsulated)
    requires Checksummed(s, t, r, SCTP, encapsulated, bad)
    ensures IsSctp(t, r, encapsulated)
  {
    hide Norm, Sum16, Layer4Ok;
    assert forall k :: 0 <= k < 10 ==> s[k] == t[k];
    assert encapsulated ==> s[r.start + 4] == t[r.start + 4] && s[r.start + 5] == t[r.start + 5];
  }

  /** An SCTP packet over IPv4 or IPv6, plain or in UDP, sealed by checksum_packet, sent and
      parsed by parse_packet: it is accepted exactly when the bad-CRC flag is clear, and then
      with its headers. */
  method SealSendParse(packet: Packet, ip: Kind, bad: bool, slack: byte, encaps: byte, little: bool)
    returns (received: Packet, result: Outcome)
    requires Placed(packet, ip) && packet.pointers[ip] == 0 && SCTP in packet.pointers
    requires encaps == 0 || encaps == IPPROTO_SCTP || encaps == IPPROTO_TCP
    requires packet.udpEncapsulated ==> encaps == IPPROTO_SCTP
    requires var r := RegionOf(packet.buffer[..], ip, 0);
             packet.ipBytes == r.start + r.bytes && IsSctp(packet.buffer[..], r, packet.udpEncapsulated)
    modifies packet.buffer
    ensures result == if bad then PacketBad else PacketOk
    ensures !bad ==>
              received.headers == SctpHeaders(RegionOf(old(packet.buffer[..]), ip, 0), packet.udpEncapsulated)
              && received.ipBytes == packet.ipBytes && Named(received.pointers, received.headers)
    ensures received.buffer.Length == packet.buffer.Length
    ensures var r := RegionOf(old(packet.buffer[..]), ip, 0);
            Checksummed(old(packet.buffer[..]), received.buffer[..], r, SCTP, packet.udpEncapsulated, bad)
  {
    hide Checksummed, IsSctp, Run, Named, HeaderBytes, Be16, Long;
    ghost var s := packet.buffer[..];
    ghost var r := RegionOf(s, ip, 0);
    ChecksumPacket(packet, ip, bad, little);
    StillSctp(s, packet.buffer[..], r, packet.udpEncapsulated, bad);
    ChecksumParts(s, packet.buffer[..], r, packet.udpEncapsulated, bad);
    SealedOutcome(Input(packet.buffer[..], packet.ipBytes, slack, encaps), r, packet.udpEncapsulated, bad);
    received, result := SendAndParse(packet, Context(packet.ipBytes, slack, encaps, little), EthProto(ip));
  }

  lemma ChecksumParts(s: seq<byte>, t: seq<byte>, r: Region, encapsulated: bool, bad: bool)
    requires Fits(s, r) && |s| == |t| && Long(r, SCTP, encapsulated) && Checksummed(s, t, r, SCTP, encapsulated, bad)
    ensures r.ip.IPv4? && r.ipOffset == 0 ==> Norm(Sum16(t[0..r.start], false)) == 0xffff
    ensures Layer4Ok(t, r, SCTP, encapsulated, bad)
  {
    hide Norm, Sum16, Layer4Ok;
  }

  /** What checksum_packet takes for layer 4 is what parse_packet has found behind the IP header,
      the UDP header around an encapsulated packet included. */
  lemma RegionIsPayload(i: Input, h: Header, g: Header)
    requires Sound(i) && HeaderOk(i, h) && HeaderOk(i, g) && Carries(i, h, g) && IsIp(h.kind) && IsLayer4(g.kind)
    ensures h.offset + 20 <= |i.bytes| && (h.kind.IPv4? ==> 4 * (i.bytes[h.offset] % 16) <= Be16(i.bytes, h.offset + 2))
    ensures RegionOf(i.bytes, h.kind, h.offset) == Region(h.kind, h.offset, g.offset, g.totalBytes)
    ensures Fits(i.bytes, RegionOf(i.bytes, h.kind, h.offset))
  {
    hide Norm, Sum16, CrcMatches;
  }

  /** ... and of the kind of the last header that it has found. */
  lemma Layer4IsLast(pointers: Pointers, hs: seq<Header>)
    requires Named(pointers, hs)
    ensures Layer4Kind(pointers) == hs[|hs| - 1].kind
  {
  }
}
