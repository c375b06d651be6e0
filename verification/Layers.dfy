/**
 Header chains: what a buffer holds, header by header.

 `Run` reads a chain of headers with one cursor and no state, and is what the parser is proved
 to compute.
 */
module Layers {
  import opened Bytes
  import opened Checksum
  import opened Crc32c

  datatype Kind = IPv4 | IPv6 | GRE | MPLS | SCTP | TCP | UDP | UDPLite | ICMPv4 | ICMPv6

  /** The metadata of one header. The pointer is an offset into the buffer. */
  datatype Header = Header(kind: Kind, offset: nat, headerBytes: nat, totalBytes: nat)

  datatype Outcome = PacketOk | PacketBad | PacketUnknownL4

  const PACKET_MAX_HEADERS: nat := 6

  const ETHERTYPE_IP: u16 := 0x0800
  const ETHERTYPE_IPV6: u16 := 0x86dd
  const ETHERTYPE_MPLS_UC: u16 := 0x8847
  const ETHERTYPE_MPLS_MC: u16 := 0x8848

  const IPPROTO_ICMP: byte := 1
  const IPPROTO_IPIP: byte := 4
  const IPPROTO_TCP: byte := 6
  const IPPROTO_UDP: byte := 17
  const IPPROTO_IPV6: byte := 41
  const IPPROTO_GRE: byte := 47
  const IPPROTO_ICMPV6: byte := 58
  const IPPROTO_SCTP: byte := 132
  const IPPROTO_UDPLITE: byte := 136

  /** The two protocol columns of the table header_types. */
  function IpProto(kind: Kind): byte {
    match kind
    case IPv4 => IPPROTO_IPIP
    case IPv6 => IPPROTO_IPV6
    case GRE => IPPROTO_GRE
    case MPLS => 0
    case SCTP => IPPROTO_SCTP
    case TCP => IPPROTO_TCP
    case UDP => IPPROTO_UDP
    case UDPLite => IPPROTO_UDPLITE
    case ICMPv4 => IPPROTO_ICMP
    case ICMPv6 => IPPROTO_ICMPV6
  }

  function EthProto(kind: Kind): u16 {
    match kind
    case IPv4 => ETHERTYPE_IP
    case IPv6 => ETHERTYPE_IPV6
    case MPLS => ETHERTYPE_MPLS_UC
    case _ => 0
  }

  predicate IsIp(kind: Kind) { kind.IPv4? || kind.IPv6? }

  predicate IsTunnel(kind: Kind) { IsIp(kind) || kind.GRE? || kind.MPLS? }

  predicate IsLayer4(kind: Kind) { !IsTunnel(kind) }

  /** What is parsed: the bytes before `end`, and what follows them. `slack` is the byte at
      `end`, which a truncated IP-in-IP packet makes the parser look at. */
  datatype Input = Input(bytes: seq<byte>, end: nat, slack: byte, encaps: byte)

  predicate Sound(i: Input) {
    && i.end <= |i.bytes|
    && (i.encaps == 0 || i.encaps == IPPROTO_SCTP || i.encaps == IPPROTO_TCP)
  }

  /** What is expected at the cursor. */
  datatype Next =
    | Ether(proto: u16)
    | AnyIp
    | Over(protocol: byte, bytes: nat, below: Kind)
    | Inside(kind: Kind, bytes: nat)
    | Payload

  /** The kind of the header at the cursor, and how many bytes it may span. */
  datatype Target = Fail | Unknown | Go(kind: Kind, bytes: nat)

  function FirstByte(i: Input, p: nat): byte
    requires Sound(i) && p <= i.end
  {
    if p < i.end then i.bytes[p] else i.slack
  }

  function Version(i: Input, p: nat): nat
    requires Sound(i) && p <= i.end
  {
    FirstByte(i, p) / 16
  }

  function Dispatch(i: Input, next: Next, p: nat): Target
    requires Sound(i) && p <= i.end
  {
    match next
    case Ether(proto) =>
      if proto == ETHERTYPE_IP then
        if p + 20 <= i.end && Version(i, p) == 4 then Go(IPv4, 0) else Fail
      else if proto == ETHERTYPE_IPV6 then
        if p + 40 <= i.end && Version(i, p) == 6 then Go(IPv6, 0) else Fail
      else if proto == ETHERTYPE_MPLS_UC || proto == ETHERTYPE_MPLS_MC then Go(MPLS, 0)
      else Unknown
    case AnyIp =>
      if p + 20 > i.end then Fail
      else if Version(i, p) == 4 then Go(IPv4, 0)
      else if Version(i, p) == 6 then Go(IPv6, 0)
      else Fail
    case Over(protocol, bytes, below) =>
      if protocol == IPPROTO_SCTP then Go(SCTP, bytes)
      else if protocol == IPPROTO_TCP then Go(TCP, bytes)
      else if protocol == IPPROTO_UDP then Go(UDP, bytes)
      else if protocol == IPPROTO_UDPLITE then Go(UDPLite, bytes)
      else if protocol == IPPROTO_ICMP then if below.IPv4? then Go(ICMPv4, bytes) else Fail
      else if protocol == IPPROTO_ICMPV6 then if below.IPv6? then Go(ICMPv6, bytes) else Fail
      else if protocol == IPPROTO_GRE then Go(GRE, bytes)
      else if protocol == IPPROTO_IPIP then Go(IPv4, 0)
      else if protocol == IPPROTO_IPV6 then Go(IPv6, 0)
      else Unknown
    case Inside(kind, bytes) => Go(kind, bytes)
    case Payload => Fail
  }

  // ---------------------------------------------------------------- one header

  function Ipv4HeaderBytes(i: Input, p: nat): nat
    requires Sound(i) && p <= i.end
  {
    4 * (FirstByte(i, p) % 16)
  }

  predicate Fragmented(fragOff: u16) {
    fragOff / 0x2000 % 2 == 1 || fragOff % 0x2000 != 0
  }

  /** The checks of parse_ipv4 that read fields. */
  predicate Ipv4Fields(i: Input, p: nat, headerBytes: nat, totalBytes: nat)
    requires Sound(i) && 20 <= headerBytes && p + headerBytes <= i.end
  {
    && totalBytes == Be16(i.bytes, p + 2)
    && p + totalBytes <= i.end
    && headerBytes <= totalBytes
    && !Fragmented(Be16(i.bytes, p + 6))
    && InternetChecksum(i.bytes[p..p + headerBytes]) == 0
  }

  function GreBytes(flags: byte): nat {
    4 + (if flags / 0x80 == 1 then 4 else 0) + (if flags / 0x20 % 2 == 1 then 4 else 0) +
    (if flags / 0x10 % 2 == 1 then 4 else 0)
  }

  /** Version zero, no routing. */
  predicate GreSupported(flags: byte, versions: byte) {
    versions % 8 == 0 && flags / 0x40 % 2 == 0
  }

  predicate IsStackBottom(s: seq<byte>, p: nat)
    requires p + 4 <= |s|
  {
    s[p + 2] % 2 == 1
  }

  /** The length of the label stack at p, up to the first bottom bit or the end; 0 if an
      entry overflows the packet. */
  function StackBytes(i: Input, p: nat): (r: nat)
    requires Sound(i) && p <= i.end
    ensures r > 0 ==> 4 <= r && p + r <= i.end
    decreases i.end - p
  {
    if p + 4 > i.end then 0
    else if IsStackBottom(i.bytes, p) || p + 4 == i.end then 4
    else var rest := StackBytes(i, p + 4); if rest == 0 then 0 else 4 + rest
  }

  /** The SCTP checksum field holds the CRC of the packet with the field zeroed. */
  predicate CrcMatches(s: seq<byte>)
    requires |s| >= 12
  {
    Be32(s, 8) == CrcField(Splice(s, 8, Zeros(4)))
  }

  datatype Found = Broken | Whole(headerBytes: nat, totalBytes: nat, next: Next)

  /** One header of a given kind at p, with `bytes` bytes for it and its payload where the
      header below says so. */
  function HeaderAt(i: Input, kind: Kind, p: nat, bytes: nat): Found
    requires Sound(i) && p + bytes <= i.end
  {
    match kind
    case IPv4 =>
      var n := Ipv4HeaderBytes(i, p);
      if n < 20 || p + n > i.end then Broken
      else
        var total := Be16(i.bytes, p + 2);
        if Ipv4Fields(i, p, n, total) then Whole(n, total, Over(i.bytes[p + 9], total - n, IPv4)) else Broken
    case IPv6 =>
      if p + 40 > i.end then Broken
      else
        var payload := Be16(i.bytes, p + 4);
        if p + 40 + payload > i.end then Broken
        else Whole(40, 40 + payload, Over(i.bytes[p + 6], payload, IPv6))
    case GRE =>
      if bytes < 4 || !GreSupported(i.bytes[p], i.bytes[p + 1]) || GreBytes(i.bytes[p]) > bytes then Broken
      else Whole(GreBytes(i.bytes[p]), bytes, Ether(Be16(i.bytes, p + 2)))
    case MPLS =>
      var n := StackBytes(i, p);
      if n == 0 then Broken else Whole(n, i.end - p, AnyIp)
    case SCTP =>
      if bytes < 12 || !CrcMatches(i.bytes[p..p + bytes]) then Broken else Whole(12, bytes, Payload)
    case TCP =>
      if bytes < 20 then Broken
      else
        var n := 4 * (i.bytes[p + 12] / 16);
        if n < 20 || n > bytes then Broken else Whole(n, bytes, Payload)
    case UDP =>
      if bytes < 8 || Be16(i.bytes, p + 4) != bytes then Broken
      else if i.encaps == IPPROTO_SCTP then Whole(8, bytes, Inside(SCTP, bytes - 8))
      else if i.encaps == IPPROTO_TCP then Whole(8, bytes, Inside(TCP, bytes - 8))
      else Whole(8, bytes, Payload)
    case UDPLite => if bytes < 8 then Broken else Whole(8, bytes, Payload)
    case ICMPv4 => if bytes < 8 then Broken else Whole(8, bytes, Payload)
    case ICMPv6 => if bytes < 8 then Broken else Whole(8, bytes, Payload)
  }

  /** The bytes that the header below allots fit. */
  predicate Allotted(i: Input, next: Next, p: nat) {
    match next
    case Over(_, bytes, _) => p + bytes <= i.end
    case Inside(_, bytes) => p + bytes <= i.end
    case _ => true
  }

  lemma HeaderAtFits(i: Input, kind: Kind, p: nat, bytes: nat)
    requires Sound(i) && p + bytes <= i.end
    ensures var f := HeaderAt(i, kind, p, bytes);
            f.Whole? ==> 4 <= f.headerBytes <= f.totalBytes && p + f.totalBytes <= i.end
                         && Allotted(i, f.next, p + f.headerBytes)
  {
  }

  // ---------------------------------------------------------------- a chain of headers

  datatype Parsed = Parsed(outcome: Outcome, headers: seq<Header>)

  /** Read headers from p on, `count` of them having been read already. */
  function Run(i: Input, next: Next, p: nat, count: nat): Parsed
    requires Sound(i) && p <= i.end && Allotted(i, next, p)
    decreases i.end - p, 1
  {
    match Dispatch(i, next, p)
    case Fail => Parsed(PacketBad, [])
    case Unknown => Parsed(PacketUnknownL4, [])
    case Go(kind, bytes) => RunHeader(i, kind, p, bytes, count)
  }

  function RunHeader(i: Input, kind: Kind, p: nat, bytes: nat, count: nat): Parsed
    requires Sound(i) && p + bytes <= i.end
    decreases i.end - p, 0
  {
    HeaderAtFits(i, kind, p, bytes);
    var f := HeaderAt(i, kind, p, bytes);
    if f.Broken? || count >= PACKET_MAX_HEADERS then Parsed(PacketBad, [])
    else
      var h := Header(kind, p, f.headerBytes, f.totalBytes);
      if f.next.Payload? then Parsed(PacketOk, [h])
      else
        var rest := Run(i, f.next, p + f.headerBytes, count + 1);
        Parsed(rest.outcome, [h] + rest.headers)
  }
}
