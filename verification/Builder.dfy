/**
 packet_encapsulate: copying an inner packet behind an outer one and finishing the headers in
 place, from the innermost to the outermost.
 */
module Builder {
  import opened Bytes
  import opened Arithmetic
  import opened Checksum
  import opened Layers
  import opened Chains
  import opened Parser
  import opened Encapsulation

  // ---------------------------------------------------------------- writing into windows

  method PutByte(packet: Packet, at: nat, v: byte)
    requires at < packet.buffer.Length
    modifies packet.buffer
    ensures packet.buffer[..] == Splice(old(packet.buffer[..]), at, [v])
  {
    packet.buffer[at] := v;
  }

  // ---------------------------------------------------------------- the finish functions

  /** The beginning of ipv4_header_finish: length and protocol, and a zero checksum. */
  method Ipv4HeaderStamp(packet: Packet, h: Header, next: Header)
    requires h.kind.IPv4? && Laid([h], packet.buffer.Length)
    modifies packet.buffer
    ensures packet.buffer[..] == Splice(old(packet.buffer[..]), h.offset,
              Splice(Stamped(old(packet.buffer[..])[h.offset..h.offset + 20], next), 10, Be16Bytes(0)))
  {
    hide Splice, Be16Bytes;
    ghost var s, p := packet.buffer[..], h.offset;
    ghost var w := s[p..p + 20];
    SpliceWhole(s, p, 20);
    var ipBytes := 20 + next.totalBytes;
    packet.PutBe16(h.offset + 2, ipBytes % 0x1_0000);
    ghost var w1 := Splice(w, 2, Be16Bytes(ipBytes % 0x1_0000));
    SpliceInto(s, p, w, 2, Be16Bytes(ipBytes % 0x1_0000));
    PutByte(packet, h.offset + 9, IpProto(next.kind));
    SpliceInto(s, p, w1, 9, [IpProto(next.kind)]);
    packet.PutBe16(h.offset + 10, 0);
    SpliceInto(s, p, Stamped(w, next), 10, Be16Bytes(0));
  }

  /** A header with its length and protocol. */
  function Stamped(w: seq<byte>, next: Header): (r: seq<byte>)
    requires |w| == 20
    ensures |r| == 20
  {
    Splice(Splice(w, 2, Be16Bytes((20 + next.totalBytes) % 0x1_0000)), 9, [IpProto(next.kind)])
  }

  lemma FinishedIsStamped(w: seq<byte>, next: Header)
    requires |w| == 20
    ensures var a := Stamped(w, next);
            FinishWindow(IPv4, w, next) == Splice(a, 10, Be16Bytes(InternetChecksum(Splice(a, 10, Be16Bytes(0)))))
  {
    hide Splice, InternetChecksum, Be16Bytes;
  }

  /** ipv4_header_finish, on the buffer. */
  method Ipv4HeaderFinish(packet: Packet, h: Header, next: Header, little: bool)
    requires h.kind.IPv4? && Laid([h], packet.buffer.Length) && packet.buffer[h.offset] % 16 == 5
    modifies packet.buffer
    ensures packet.buffer[..] == FinishOne(old(packet.buffer[..]), h, next)
  {
    hide Splice, InternetChecksum, Be16Bytes, FinishWindow, Stamped;
    ghost var s, p := packet.buffer[..], h.offset;
    ghost var w := s[p..p + 20];
    Ipv4HeaderStamp(packet, h, next);
    ghost var a := Stamped(w, next);
    ghost var z := Splice(a, 10, Be16Bytes(0));
    SpliceRead(s, p, z);
    FirstOf(s, p, w, next);
    var check := Ipv4Checksum(packet.buffer[h.offset..h.offset + 4 * (packet.buffer[h.offset] % 16)], little);
    packet.PutField(h.offset + 10, check);
    SpliceInto(s, p, z, 10, check);
    SpliceTwice(a, 10, Be16Bytes(0), check);
    FinishedIsStamped(w, next);
  }

  /** The length field of the header is still what it was when the checksum is computed. */
  lemma FirstOf(s: seq<byte>, p: nat, w: seq<byte>, next: Header)
    requires |w| == 20 && p + 20 <= |s| && w == s[p..p + 20]
    ensures Splice(s, p, Splice(Stamped(w, next), 10, Be16Bytes(0)))[p] == s[p]
  {
  }

  lemma FinishedIpv6Is(w: seq<byte>, next: Header)
    requires |w| == 40 && next.totalBytes <= 0xffff
    ensures FinishWindow(IPv6, w, next) == Splice(Splice(w, 4, Be16Bytes(next.totalBytes)), 6, [IpProto(next.kind)])
  {
    hide Splice, Be16Bytes;
  }

  /** ipv6_header_finish, on the buffer. */
  method Ipv6HeaderFinish(packet: Packet, h: Header, next: Header)
    requires h.kind.IPv6? && Laid([h], packet.buffer.Length) && next.totalBytes <= 0xffff
    modifies packet.buffer
    ensures packet.buffer[..] == FinishOne(old(packet.buffer[..]), h, next)
  {
    hide Splice, Be16Bytes, FinishWindow;
    ghost var s, p := packet.buffer[..], h.offset;
    ghost var w := s[p..p + 40];
    SpliceWhole(s, p, 40);
    packet.PutBe16(h.offset + 4, next.totalBytes);
    SpliceInto(s, p, w, 4, Be16Bytes(next.totalBytes));
    PutByte(packet, h.offset + 6, IpProto(next.kind));
    SpliceInto(s, p, Splice(w, 4, Be16Bytes(next.totalBytes)), 6, [IpProto(next.kind)]);
    FinishedIpv6Is(w, next);
  }

  lemma FinishedGreIs(w: seq<byte>, next: Header)
    requires |w| == 4
    ensures FinishWindow(GRE, w, next) == Splice(w, 2, Be16Bytes(EthProto(next.kind)))
  {
    hide Splice, Be16Bytes;
  }

  /** gre_header_finish, on the buffer. */
  method GreHeaderFinish(packet: Packet, h: Header, next: Header)
    requires h.kind.GRE? && Laid([h], packet.buffer.Length)
    modifies packet.buffer
    ensures packet.buffer[..] == FinishOne(old(packet.buffer[..]), h, next)
  {
    hide Splice, Be16Bytes, FinishWindow;
    ghost var s, p := packet.buffer[..], h.offset;
    SpliceWhole(s, p, 4);
    packet.PutBe16(h.offset + 2, EthProto(next.kind));
    SpliceInto(s, p, s[p..p + 4], 2, Be16Bytes(EthProto(next.kind)));
    FinishedGreIs(s[p..p + 4], next);
  }

  /** What finishing one header needs: the IPv4 header length as it is always built, and the
      length that ipv6_header_finish asserts. */
  predicate CanFinish(s: seq<byte>, h: Header, next: Header) {
    && Laid([h], |s|)
    && (h.kind.IPv4? ==> s[h.offset] % 16 == 5)
    && (h.kind.IPv6? ==> next.totalBytes <= 0xffff)
  }

  /** One turn of the loop of packet_finish_encapsulation_headers. */
  method FinishAt(packet: Packet, k: nat, little: bool)
    requires k < |packet.headers| && (IsTunnel(packet.headers[k].kind) ==> k + 1 < |packet.headers|)
    requires k + 1 < |packet.headers| ==> CanFinish(packet.buffer[..], packet.headers[k], packet.headers[k + 1])
    modifies packet`headers, packet.buffer
    ensures k + 1 < |old(packet.headers)| ==>
              && packet.buffer[..] == FinishOne(old(packet.buffer[..]), old(packet.headers)[k], old(packet.headers)[k + 1])
              && packet.headers == old(packet.headers)[k := FinishHeader(old(packet.headers)[k], old(packet.headers)[k + 1])]
    ensures k + 1 == |old(packet.headers)| ==>
              packet.buffer[..] == old(packet.buffer[..]) && packet.headers == old(packet.headers)
  {
    hide FinishOne;
    var h := packet.headers[k];
    if !IsTunnel(h.kind) {
      if k + 1 < |packet.headers| { NotFinished(packet.buffer[..], h, packet.headers[k + 1]); }
      return;
    }
    var next := packet.headers[k + 1];
    match h.kind {
      case IPv4 => Ipv4HeaderFinish(packet, h, next, little);
      case IPv6 => Ipv6HeaderFinish(packet, h, next);
      case GRE => GreHeaderFinish(packet, h, next);
      case MPLS => MplsWindow(packet.buffer[..], h, next);
    }
    packet.headers := packet.headers[k := FinishHeader(h, next)];
  }

  // ---------------------------------------------------------------- the loop

  /** Everything that the loop needs of the headers hs over the bytes s. */
  ghost predicate Finishable(s: seq<byte>, hs: seq<Header>) {
    && hs != [] && IsLayer4(hs[|hs| - 1].kind) && Laid(hs, |s|)
    && forall k :: 0 <= k < |hs| - 1 ==> CanFinish(s, hs[k], FinishHeaders(hs)[k + 1])
  }

  lemma {:induction false} LaidFrom(hs: seq<Header>, n: nat, k: nat)
    requires Laid(hs, n) && k <= |hs|
    ensures Laid(hs[k..], n)
    decreases k
  {
    if k > 0 {
      LaidFrom(hs[1..], n, k - 1);
      assert hs[1..][k - 1..] == hs[k..];
    }
  }

  /** Finishing the headers behind the k-th is a part of finishing all of them. */
  lemma {:induction false} FinishHeadersFrom(hs: seq<Header>, k: nat)
    requires k <= |hs|
    ensures FinishHeaders(hs)[k..] == FinishHeaders(hs[k..])
    decreases k
  {
    if k > 0 && |hs| > 1 {
      FinishHeadersFrom(hs[1..], k - 1);
      assert hs[1..][k - 1..] == hs[k..];
      assert FinishHeaders(hs)[k..] == FinishHeaders(hs[1..])[k - 1..];
    }
  }

  /** What is needed of the k-th header still holds when those behind it are finished. */
  lemma StillFinishable(s: seq<byte>, hs: seq<Header>, k: nat)
    requires Finishable(s, hs) && k + 1 < |hs|
    ensures Laid(hs[k + 1..], |s|)
    ensures CanFinish(FinishBytes(s, hs[k + 1..]), hs[k], FinishHeaders(hs[k + 1..])[0])
  {
    hide FinishBytes, FinishHeaders;
    LaidFrom(hs, |s|, k + 1);
    LaidFrom(hs, |s|, k);
    assert hs[k..][1] == hs[k + 1] && hs[k..][0] == hs[k];
    FinishBehind(s, hs[k + 1..]);
    FinishHeadersFrom(hs, k + 1);
    assert FinishHeaders(hs)[k + 1..][0] == FinishHeaders(hs)[k + 1];
    assert CanFinish(s, hs[k], FinishHeaders(hs)[k + 1]);
  }

  /** packet_finish_encapsulation_headers. */
  method FinishEncapsulationHeaders(packet: Packet, little: bool)
    requires Finishable(packet.buffer[..], packet.headers)
    modifies packet`headers, packet.buffer
    ensures packet.buffer[..] == FinishBytes(old(packet.buffer[..]), old(packet.headers))
    ensures packet.headers == FinishHeaders(old(packet.headers))
  {
    hide FinishOne, FinishHeader, FinishBytes, FinishHeaders, CanFinish, Laid;
    ghost var s, hs := packet.buffer[..], packet.headers;
    var i := |packet.headers|;
    LaidFrom(hs, |s|, i);
    NoHeaders(s, hs[i..]);
    while i > 0
      invariant 0 <= i <= |hs| && Laid(hs[i..], |s|)
      invariant packet.headers == hs[..i] + FinishHeaders(hs[i..])
      invariant packet.buffer[..] == FinishBytes(s, hs[i..])
    {
      i := i - 1;
      LaidFrom(hs, |s|, i);
      assert hs[i..][1..] == hs[i + 1..];
      FinishUnfold(s, hs[i..]);
      ghost var was := packet.headers;
      if i + 1 < |hs| {
        StillFinishable(s, hs, i);
        assert was[i] == hs[i] && was[i + 1] == FinishHeaders(hs[i + 1..])[0];
      }
      FinishAt(packet, i, little);
      assert packet.headers == hs[..i] + FinishHeaders(hs[i..]);
    }
    assert hs[0..] == hs;
  }

  lemma NoHeaders(s: seq<byte>, hs: seq<Header>)
    requires hs == []
    ensures Laid(hs, |s|) && FinishBytes(s, hs) == s && FinishHeaders(hs) == []
  {
  }

  // ---------------------------------------------------------------- packet_encapsulate

  /** The header list of a packet that starts `room` bytes further on. */
  function Shifted(hs: seq<Header>, room: nat): (r: seq<Header>)
    ensures |r| == |hs|
    ensures forall k :: 0 <= k < |hs| ==> r[k] == hs[k].(offset := hs[k].offset + room)
  {
    seq(|hs|, k requires 0 <= k < |hs| => hs[k].(offset := hs[k].offset + room))
  }

  function ShiftedPointers(pointers: Pointers, room: nat): Pointers {
    map k | k in pointers :: pointers[k] + room
  }

  /** packet_copy_with_headroom, for a packet whose first header is at offset zero. */
  method CopyWithHeadroom(source: Packet, room: nat) returns (packet: Packet)
    requires source.ipBytes <= 128 * 1024 && source.ipBytes <= source.buffer.Length
    ensures fresh(packet) && fresh(packet.buffer)
    ensures packet.buffer.Length == Max(room + source.ipBytes, source.buffer.Length)
    ensures packet.buffer[room..room + source.ipBytes] == source.buffer[..source.ipBytes]
    ensures packet.ipBytes == source.ipBytes && packet.headers == Shifted(source.headers, room)
    ensures packet.pointers == ShiftedPointers(source.pointers, room) && packet.udpEncapsulated == source.udpEncapsulated
  {
    var bytesUsed := source.ipBytes;
    packet := new Packet(Max(room + bytesUsed, source.buffer.Length));
    forall k | 0 <= k < bytesUsed {
      packet.buffer[room + k] := source.buffer[k];
    }
    packet.ipBytes := source.ipBytes;
    packet.headers := Shifted(source.headers, room);
    packet.pointers := ShiftedPointers(source.pointers, room);
    packet.udpEncapsulated := source.udpEncapsulated;
  }

  /** The bytes of the two packets end to end, and their headers. */
  ghost function Joined(outer: Packet, inner: Packet): seq<byte>
    reads outer, outer.buffer, inner, inner.buffer
    requires outer.ipBytes <= outer.buffer.Length && inner.ipBytes <= inner.buffer.Length
  {
    outer.buffer[..outer.ipBytes] + inner.buffer[..inner.ipBytes]
  }

  ghost function JoinedHeaders(outer: Packet, inner: Packet): seq<Header>
    reads outer, inner
  {
    outer.headers + Shifted(inner.headers, outer.ipBytes)
  }

  /** The beginning of packet_encapsulate: one packet behind the other. */
  method Join(outer: Packet, inner: Packet) returns (packet: Packet)
    requires outer.ipBytes <= outer.buffer.Length && inner.ipBytes <= inner.buffer.Length && inner.ipBytes <= 128 * 1024
    ensures fresh(packet) && fresh(packet.buffer) && packet.buffer.Length >= outer.ipBytes + inner.ipBytes
    ensures packet.buffer[..outer.ipBytes + inner.ipBytes] == Joined(outer, inner)
    ensures packet.headers == JoinedHeaders(outer, inner)
    ensures packet.pointers == ShiftedPointers(inner.pointers, outer.ipBytes)
  {
    hide ShiftedPointers, Shifted;
    packet := CopyWithHeadroom(inner, outer.ipBytes);
    ghost var copy := packet.buffer[..];
    CopyFront(packet.buffer, outer.buffer, outer.ipBytes);
    packet.headers := outer.headers + packet.headers;
    JoinedIs(copy, packet.buffer[..], outer.buffer[..outer.ipBytes], inner.buffer[..inner.ipBytes]);
  }

  method CopyFront(to: array<byte>, from: array<byte>, n: nat)
    requires to != from && n <= to.Length && n <= from.Length
    modifies to
    ensures to[..] == from[..n] + old(to[n..])
  {
    forall k | 0 <= k < n {
      to[k] := from[k];
    }
  }

  lemma JoinedIs(copy: seq<byte>, now: seq<byte>, x: seq<byte>, y: seq<byte>)
    requires |x| + |y| <= |copy| && copy[|x|..|x| + |y|] == y && now == x + copy[|x|..]
    ensures now[..|x| + |y|] == x + y
  {
    assert copy[|x|..][..|y|] == copy[|x|..|x| + |y|];
  }

  /** packet_encapsulate. `raw` is the buffer before the headers are finished. */
  method Encapsulate(outer: Packet, inner: Packet, little: bool) returns (packet: Packet, ghost raw: seq<byte>)
    requires |outer.headers| + |inner.headers| <= PACKET_MAX_HEADERS
    requires outer.ipBytes <= outer.buffer.Length && inner.ipBytes <= inner.buffer.Length && inner.ipBytes <= 128 * 1024
    requires Finishable(Joined(outer, inner), JoinedHeaders(outer, inner))
    ensures fresh(packet) && fresh(packet.buffer)
    ensures packet.ipBytes == outer.ipBytes + inner.ipBytes <= |raw| == packet.buffer.Length
    ensures raw[..packet.ipBytes] == Joined(outer, inner) && Finishable(raw, JoinedHeaders(outer, inner))
    ensures packet.buffer[..] == FinishBytes(raw, JoinedHeaders(outer, inner))
    ensures Kept(Joined(outer, inner), packet.buffer[..], JoinedHeaders(outer, inner))
    ensures packet.headers == FinishHeaders(JoinedHeaders(outer, inner))
    ensures packet.pointers == ShiftedPointers(inner.pointers, outer.ipBytes)
  {
    hide Finishable, FinishBytes, FinishHeaders, ShiftedPointers, Kept;
    packet := Join(outer, inner);
    raw := packet.buffer[..];
    FinishableLonger(Joined(outer, inner), raw, packet.headers);
    FinishEncapsulationHeaders(packet, little);
    packet.ipBytes := outer.ipBytes + inner.ipBytes;
    JoinedKept(Joined(outer, inner), raw, JoinedHeaders(outer, inner));
  }

  /** Of the joined bytes only lengths, protocols and checksums of tunnel headers are changed. */
  ghost predicate Kept(s: seq<byte>, t: seq<byte>, hs: seq<Header>) {
    && |s| <= |t|
    && forall k :: 0 <= k < |s| && (forall j :: 0 <= j < |hs| - 1 ==> !Rewritten(hs[j].kind, k - hs[j].offset)) ==>
         t[k] == s[k]
  }

  lemma JoinedKept(s: seq<byte>, raw: seq<byte>, hs: seq<Header>)
    requires |s| <= |raw| && raw[..|s|] == s && Finishable(raw, hs)
    ensures Kept(s, FinishBytes(raw, hs), hs)
  {
    hide FinishBytes, Rewritten;
    forall k | 0 <= k < |s| && (forall j :: 0 <= j < |hs| - 1 ==> !Rewritten(hs[j].kind, k - hs[j].offset))
      ensures FinishBytes(raw, hs)[k] == s[k]
    {
      FinishKeeps(raw, hs, k);
      assert s[k] == raw[..|s|][k];
    }
  }

  lemma FinishableLonger(s: seq<byte>, raw: seq<byte>, hs: seq<Header>)
    requires Finishable(s, hs) && |s| <= |raw| && raw[..|s|] == s
    ensures Finishable(raw, hs)
  {
    hide FinishHeaders;
    LaidLonger(hs, |s|, |raw|);
    forall k | 0 <= k < |hs| - 1
      ensures CanFinish(raw, hs[k], FinishHeaders(hs)[k + 1])
    {
      assert CanFinish(s, hs[k], FinishHeaders(hs)[k + 1]);
      LaidLonger([hs[k]], |s|, |raw|);
      assert forall at :: 0 <= at < |s| ==> raw[at] == raw[..|s|][at];
    }
  }

  lemma {:induction false} LaidLonger(hs: seq<Header>, n: nat, m: nat)
    requires Laid(hs, n) && n <= m
    ensures Laid(hs, m)
    decreases |hs|
  {
    if hs != [] { LaidLonger(hs[1..], n, m); }
  }

  // ---------------------------------------------------------------- the round trip

  /** A legal stack can be finished. */
  lemma LegalFinishable(i: Input, hs: seq<Header>)
    requires Sound(i) && hs != [] && Legal(i, hs) && i.end < hs[0].offset + 0x1_0000
    ensures Finishable(i.bytes, hs)
    decreases |hs|
  {
    hide Legal, Built, Laid;
    LegalLaid(i, hs);
    LegalOne(i, hs);
    LegalEnds(i, hs);
    var t := FinishHeaders(hs);
    forall k | 0 <= k < |hs| - 1
      ensures CanFinish(i.bytes, hs[k], t[k + 1])
    {
      LegalAt(i, hs, k);
      LegalOne(i, hs[k..]);
      BuiltIpv4(i, hs[k]);
      LegalAt(i, hs, k + 1);
      FinishStack(i, i.(bytes := FinishBytes(i.bytes, hs[k + 1..])), hs[k + 1..]);
      FinishHeadersFrom(hs, k + 1);
    }
  }

  lemma BuiltIpv4(i: Input, h: Header)
    requires Sound(i) && Built(i, h)
    ensures h.kind.IPv4? ==> h.offset < i.end && i.bytes[h.offset] % 16 == 5
  {
    hide HeaderOk, StackOk, Fragmented;
  }

  lemma {:induction false} LegalEnds(i: Input, hs: seq<Header>)
    requires Sound(i) && hs != [] && Legal(i, hs)
    ensures IsLayer4(hs[|hs| - 1].kind)
    decreases |hs|
  {
    hide Built;
    if |hs| > 1 { LegalEnds(i, hs[1..]); }
  }

  /** The stack inside the k-th header is legal, and starts no earlier. */
  lemma {:induction false} LegalAt(i: Input, hs: seq<Header>, k: nat)
    requires Sound(i) && hs != [] && Legal(i, hs) && k < |hs|
    ensures Legal(i, hs[k..]) && hs[k].offset >= hs[0].offset
    ensures Laid(hs[k..], |i.bytes|)
    decreases k
  {
    hide Built, Laid;
    LegalLaid(i, hs);
    if k > 0 {
      LegalAt(i, hs[1..], k - 1);
      assert hs[1..][k - 1..] == hs[k..];
    } else {
      assert hs[0..] == hs;
    }
  }

  /** The packet on the wire: its bytes arrive in a new buffer and are parsed. */
  method SendAndParse(packet: Packet, cx: Context, etherType: u16) returns (received: Packet, result: Outcome)
    requires packet.ipBytes == cx.end <= packet.buffer.Length
    requires cx.encaps == 0 || cx.encaps == IPPROTO_SCTP || cx.encaps == IPPROTO_TCP
    ensures fresh(received) && fresh(received.buffer) && received.buffer[..] == packet.buffer[..]
    ensures Parsed(result, received.headers) ==
              Run(Input(packet.buffer[..], cx.end, cx.slack, cx.encaps), Ether(etherType), 0, 0)
    ensures received.ipBytes == Cursor(0, received.headers)
    ensures result.PacketOk? ==> Named(received.pointers, received.headers)
  {
    hide Run, Named;
    received := new Packet(packet.buffer.Length);
    forall k | 0 <= k < packet.buffer.Length {
      received.buffer[k] := packet.buffer[k];
    }
    assert received.buffer[..] == packet.buffer[..];
    result := received.ParsePacket(cx, etherType);
  }

  /** Encapsulate and parse, end to end: a legal outer stack around a well-formed inner packet
      comes back with the same headers and lengths and with the pointers of its innermost IP and
      layer-4 headers, and with the same total length if an IP header is outermost. */
  method EncapsulateSendParse(outer: Packet, inner: Packet, slack: byte, encaps: byte, little: bool)
    returns (sent: Packet, received: Packet, result: Outcome)
    requires |outer.headers| + |inner.headers| <= PACKET_MAX_HEADERS
    requires outer.ipBytes <= outer.buffer.Length && inner.ipBytes <= inner.buffer.Length
    requires outer.ipBytes + inner.ipBytes < 0x1_0000
    requires encaps == 0 || encaps == IPPROTO_SCTP || encaps == IPPROTO_TCP
    requires var hs := JoinedHeaders(outer, inner);
             && hs != [] && hs[0].offset == 0 && (IsIp(hs[0].kind) || hs[0].kind.MPLS?)
             && Legal(Input(Joined(outer, inner), outer.ipBytes + inner.ipBytes, slack, encaps), hs)
    ensures result.PacketOk?
    ensures received.headers == sent.headers == FinishHeaders(JoinedHeaders(outer, inner))
    ensures sent.ipBytes == outer.ipBytes + inner.ipBytes
    ensures received.buffer[..] == sent.buffer[..] && Kept(Joined(outer, inner), sent.buffer[..], JoinedHeaders(outer, inner))
    ensures IsIp(sent.headers[0].kind) ==> received.ipBytes == sent.ipBytes
    ensures Named(received.pointers, received.headers)
    ensures Named(inner.pointers, inner.headers) ==> received.pointers == sent.pointers
  {
    hide Legal, FinishHeaders, FinishBytes, Finishable, Kept, Run, Named, HeaderBytes;
    ghost var hs := JoinedHeaders(outer, inner);
    ghost var i := Input(Joined(outer, inner), outer.ipBytes + inner.ipBytes, slack, encaps);
    LegalFinishable(i, hs);
    ghost var raw;
    sent, raw := Encapsulate(outer, inner, little);
    ghost var j := Input(raw, i.end, slack, encaps);
    assert SameFrom(i, j, 0) by { assert forall k :: 0 <= k < i.end ==> raw[k] == raw[..i.end][k]; }
    LegalSame(i, j, hs);
    EncapsulateThenParse(j, hs);
    FinishHeadersKind(hs);
    received, result := SendAndParse(sent, Context(sent.ipBytes, slack, encaps, little), EthProto(sent.headers[0].kind));
    if Named(inner.pointers, inner.headers) {
      PointersMove(inner.pointers, outer.headers, inner.headers, outer.ipBytes);
      NamedFinished(sent.pointers, hs);
      NamedOnce(sent.pointers, received.pointers, sent.headers);
    }
  }

  /** The pointers of the inner packet, moved, name the innermost headers of the joined packet. */
  lemma PointersMove(pointers: Pointers, outer: seq<Header>, inner: seq<Header>, room: nat)
    requires Named(pointers, inner)
    ensures Named(ShiftedPointers(pointers, room), outer + Shifted(inner, room))
  {
    var k :| InnermostIp(inner, k) && inner != [] && IsLayer4(inner[|inner| - 1].kind) &&
      pointers == map[inner[k].kind := inner[k].offset, inner[|inner| - 1].kind := inner[|inner| - 1].offset];
    var hs := outer + Shifted(inner, room);
    assert hs[|outer| + k] == inner[k].(offset := inner[k].offset + room);
    assert InnermostIp(hs, |outer| + k);
    assert hs[|hs| - 1] == inner[|inner| - 1].(offset := inner[|inner| - 1].offset + room);
    assert ShiftedPointers(pointers, room) ==
      map[hs[|outer| + k].kind := hs[|outer| + k].offset, hs[|hs| - 1].kind := hs[|hs| - 1].offset];
  }

  lemma {:induction false} FinishedPlaces(hs: seq<Header>)
    ensures |FinishHeaders(hs)| == |hs|
    ensures forall k :: 0 <= k < |hs| ==> FinishHeaders(hs)[k].kind == hs[k].kind && FinishHeaders(hs)[k].offset == hs[k].offset
    decreases |hs|
  {
    if |hs| > 1 { FinishedPlaces(hs[1..]); }
  }

  lemma NamedFinished(pointers: Pointers, hs: seq<Header>)
    requires Named(pointers, hs)
    ensures Named(pointers, FinishHeaders(hs))
  {
    hide FinishHeaders;
    FinishedPlaces(hs);
    var k :| InnermostIp(hs, k) && hs != [] && IsLayer4(hs[|hs| - 1].kind) &&
      pointers == map[hs[k].kind := hs[k].offset, hs[|hs| - 1].kind := hs[|hs| - 1].offset];
    assert InnermostIp(FinishHeaders(hs), k);
  }

  /** A list of headers is named in one way. */
  lemma NamedOnce(p: Pointers, q: Pointers, hs: seq<Header>)
    requires Named(p, hs) && Named(q, hs)
    ensures p == q
  {
  }

  lemma FinishHeadersKind(hs: seq<Header>)
    requires hs != []
    ensures FinishHeaders(hs)[0].kind == hs[0].kind
  {
  }
}
