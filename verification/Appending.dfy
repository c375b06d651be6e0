/**
 Building outer headers: the MPLS label stack entry, and the append functions that put blank
 IPv4, IPv6, GRE and MPLS headers behind what a packet holds.
 */
module Appending {
  import opened Bytes
  import opened Layers
  import opened Chains
  import opened Parser
  import opened Encapsulation

  // ---------------------------------------------------------------- MPLS label stack entries

  /** A label stack entry: 20 bits of label, 3 of traffic class, the bottom bit, 8 of TTL. */
  datatype Entry = Entry(number: nat, trafficClass: nat, bottom: bool, ttl: nat)

  predicate InRange(e: Entry) {
    e.number < 0x10_0000 && e.trafficClass < 8 && e.ttl < 0x100
  }

  /** mpls_entry_set. The fields do not overlap, so that their disjunction is their sum. */
  function Pack(e: Entry): u32
    requires InRange(e)
  {
    e.number * 0x1000 + e.trafficClass * 0x200 + (if e.bottom then 0x100 else 0) + e.ttl
  }

  /** The accessors mpls_entry_label, mpls_entry_tc, mpls_entry_stack and mpls_entry_ttl. */
  function Unpack(v: u32): Entry {
    Entry(v / 0x1000, v / 0x200 % 8, v / 0x100 % 2 == 1, v % 0x100)
  }

  lemma SplitAt256(q: nat, r: nat)
    requires r < 0x100
    ensures (q * 0x100 + r) / 0x100 == q && (q * 0x100 + r) % 0x100 == r
  {
  }

  lemma SplitAt2(q: nat, r: nat)
    requires r < 2
    ensures (q * 2 + r) / 2 == q && (q * 2 + r) % 2 == r
  {
  }

  lemma SplitAt8(q: nat, r: nat)
    requires r < 8
    ensures (q * 8 + r) / 8 == q && (q * 8 + r) % 8 == r
  {
  }

  lemma DivideTwice(v: nat)
    ensures v / 0x200 == v / 0x100 / 2 && v / 0x1000 == v / 0x100 / 2 / 8
  {
  }

  lemma FieldsOfPack(e: Entry)
    requires InRange(e)
    ensures Unpack(Pack(e)) == e
  {
    var b := if e.bottom then 1 else 0;
    var x := e.number * 8 + e.trafficClass;
    var y := x * 2 + b;
    assert Pack(e) == y * 0x100 + e.ttl;
    hide Pack;
    SplitAt256(y, e.ttl);
    SplitAt2(x, b);
    SplitAt8(e.number, e.trafficClass);
    DivideTwice(Pack(e));
  }

  lemma Halves(v: nat)
    ensures v == v / 0x100 * 0x100 + v % 0x100
  {
  }

  lemma PackOfFields(v: u32)
    ensures InRange(Unpack(v)) && Pack(Unpack(v)) == v
  {
    var y: nat := v / 0x100;
    var x := y / 2;
    assert y == x * 2 + y % 2 && x == x / 8 * 8 + x % 8 && y < 0x100_0000;
    DivideTwice(v);
    Halves(v);
    assert v / 0x100 % 2 == y % 2;
    PackIs(Unpack(v), x / 8, x % 8, y % 2, v % 0x100);
  }

  /** The word of four fields. */
  lemma PackIs(e: Entry, number: nat, trafficClass: nat, bottom: nat, ttl: nat)
    requires InRange(e) && bottom < 2 && e == Entry(number, trafficClass, bottom == 1, ttl)
    ensures Pack(e) == ((number * 8 + trafficClass) * 2 + bottom) * 0x100 + ttl
  {
  }

  /** Packing and the accessors are inverse, for every entry and for every 32-bit word. */
  lemma PackUnpack(e: Entry, v: u32)
    requires InRange(e)
    ensures Unpack(Pack(e)) == e
    ensures InRange(Unpack(v)) && Pack(Unpack(v)) == v
  {
    hide Pack, Unpack, InRange;
    FieldsOfPack(e);
    PackOfFields(v);
  }

  datatype EntryResult = EntryOk(word: u32) | OutOfRange

  /** new_mpls_stack_entry, which takes 64-bit numbers from the script. */
  function NewStackEntry(number: int, trafficClass: int, bottom: bool, ttl: int): EntryResult {
    if number < 0 || number >= 0x10_0000 then OutOfRange
    else if trafficClass < 0 || trafficClass >= 8 then OutOfRange
    else if ttl < 0 || ttl >= 0x100 then OutOfRange
    else EntryOk(Pack(Entry(number, trafficClass, bottom, ttl)))
  }

  /** The accessors read these values from the word. */
  predicate Holds(word: u32, number: int, trafficClass: int, bottom: bool, ttl: int) {
    var e := Unpack(word);
    e.number == number && e.trafficClass == trafficClass && e.bottom == bottom && e.ttl == ttl
  }

  /** The values are accepted exactly when some label stack entry holds them; then the entry
      that is built holds them, and it is the only one. */
  lemma NewStackEntryExact(number: int, trafficClass: int, bottom: bool, ttl: int)
    ensures var r := NewStackEntry(number, trafficClass, bottom, ttl);
            && (r.EntryOk? <==> exists word: u32 :: Holds(word, number, trafficClass, bottom, ttl))
            && (r.EntryOk? ==> forall word: u32 :: Holds(word, number, trafficClass, bottom, ttl) <==> word == r.word)
  {
    hide Holds, NewStackEntry;
    var r := NewStackEntry(number, trafficClass, bottom, ttl);
    forall word: u32
      ensures Holds(word, number, trafficClass, bottom, ttl) ==> r == EntryOk(word)
    {
      HeldIsBuilt(word, number, trafficClass, bottom, ttl);
    }
    BuiltHolds(number, trafficClass, bottom, ttl);
  }

  lemma HeldIsBuilt(word: u32, number: int, trafficClass: int, bottom: bool, ttl: int)
    ensures Holds(word, number, trafficClass, bottom, ttl) ==> NewStackEntry(number, trafficClass, bottom, ttl) == EntryOk(word)
  {
    hide Unpack, Pack;
    PackOfFields(word);
  }

  lemma BuiltHolds(number: int, trafficClass: int, bottom: bool, ttl: int)
    ensures var r := NewStackEntry(number, trafficClass, bottom, ttl);
            r.EntryOk? ==> Holds(r.word, number, trafficClass, bottom, ttl)
  {
    hide Unpack, Pack;
    var r := NewStackEntry(number, trafficClass, bottom, ttl);
    if r.EntryOk? { FieldsOfPack(Entry(number, trafficClass, bottom, ttl)); }
  }

  function StackBytesOf(entries: seq<u32>): (r: seq<byte>)
    ensures |r| == 4 * |entries|
  {
    if entries == [] then [] else Be32Bytes(entries[0]) + StackBytesOf(entries[1..])
  }

  lemma BottomBit(v: u32)
    ensures Be32Bytes(v)[2] % 2 == v / 0x100 % 2
  {
    var hi, lo: int := v / 0x1_0000, v % 0x1_0000;
    assert Be32Bytes(v)[2] == lo / 0x100;
    assert v == hi * 0x1_0000 + lo;
    assert v / 0x100 == hi * 0x100 + lo / 0x100;
  }

  lemma WordBytes(v: u32, hi: nat, lo: nat)
    requires v == hi * 0x1_0000 + lo && lo < 0x1_0000
    ensures Be32Bytes(v) == [hi / 0x100, hi % 0x100, lo / 0x100, lo % 0x100]
  {
    assert v / 0x1_0000 == hi && v % 0x1_0000 == lo;
  }

  /** A label stack entry on the wire, as RFC 3032 lays it out: 20 bits of label, three of traffic
      class, the bottom bit, and the TTL in the last byte. */
  lemma EntryOnWire(e: Entry)
    requires InRange(e)
    ensures var w := Be32Bytes(Pack(e));
            && e.number == (w[0] as int) * 0x1000 + (w[1] as int) * 0x10 + w[2] / 0x10
            && e.trafficClass == w[2] / 2 % 8 && e.bottom == (w[2] % 2 == 1) && e.ttl == w[3]
  {
    hide Be32Bytes;
    var b := if e.bottom then 1 else 0;
    var hi, low := e.number / 0x10, e.number % 0x10;
    var third := low * 0x10 + e.trafficClass * 2 + b;
    assert Pack(e) == hi * 0x1_0000 + (third * 0x100 + e.ttl);
    WordBytes(Pack(e), hi, third * 0x100 + e.ttl);
    SplitAt256(third, e.ttl);
    ThirdByte(low, e.trafficClass, b);
    assert hi == hi / 0x100 * 0x100 + hi % 0x100;
  }

  lemma ThirdByte(low: nat, trafficClass: nat, bottom: nat)
    requires low < 0x10 && trafficClass < 8 && bottom < 2
    ensures var third := low * 0x10 + trafficClass * 2 + bottom;
            third / 0x10 == low && third / 2 % 8 == trafficClass && third % 2 == bottom
  {
  }

  /** The bottom bits of a label stack are set as the parser needs it. */
  predicate BottomLast(entries: seq<u32>) {
    forall k :: 0 <= k < |entries| ==> (Unpack(entries[k]).bottom <==> k == |entries| - 1)
  }

  lemma BottomLastStep(entries: seq<u32>)
    requires entries != []
    ensures Unpack(entries[0]).bottom ==> (BottomLast(entries) <==> |entries| == 1)
    ensures !Unpack(entries[0]).bottom ==> (BottomLast(entries) <==> |entries| > 1 && BottomLast(entries[1..]))
  {
    hide Unpack;
    var rest := entries[1..];
    assert forall k :: 0 <= k < |rest| ==> rest[k] == entries[k + 1];
  }

  lemma FirstEntry(s: seq<byte>, p: nat, entries: seq<u32>)
    requires entries != [] && p + 4 * |entries| <= |s| && s[p..p + 4 * |entries|] == StackBytesOf(entries)
    ensures IsStackBottom(s, p) <==> Unpack(entries[0]).bottom
    ensures s[p + 4..p + 4 * |entries|] == StackBytesOf(entries[1..])
  {
    var w, b := s[p..p + 4 * |entries|], Be32Bytes(entries[0]);
    assert w[..4] == b && w[4..] == StackBytesOf(entries[1..]);
    hide StackBytesOf, Be32Bytes;
    assert s[p + 2] == w[2] == b[2];
    BottomBit(entries[0]);
    assert s[p + 4..p + 4 * |entries|] == w[4..];
  }

  /** A label stack in a buffer is one that the parser walks to its end and no further exactly
      when the bottom bit is set on its last entry and on no other. */
  lemma {:induction false} StackOkIff(s: seq<byte>, p: nat, entries: seq<u32>, total: nat)
    requires entries != [] && p + 4 * |entries| <= |s| && s[p..p + 4 * |entries|] == StackBytesOf(entries)
    ensures StackOk(s, Header(MPLS, p, 4 * |entries|, total)) <==> BottomLast(entries)
    decreases |entries|
  {
    hide StackOk, BottomLast, StackBytesOf, Unpack, IsStackBottom;
    var h := Header(MPLS, p, 4 * |entries|, total);
    if |entries| == 1 { NoStack(s, StackTail(h)); }
    FirstEntry(s, p, entries);
    BottomLastStep(entries);
    if IsStackBottom(s, p) {
      StackOkOne(s, h);
    } else {
      if |entries| > 1 { StackOkIff(s, p + 4, entries[1..], total); }
      if StackOk(s, h) { StackOkDown(s, h); }
      if StackOk(s, StackTail(h)) { StackOkUp(s, h); }
    }
  }

  lemma NoStack(s: seq<byte>, h: Header)
    requires h.headerBytes == 0 && h.offset <= |s|
    ensures !StackOk(s, h)
  {
  }

  const MPLS_STACK_MAX_ENTRIES: nat := 6

  class LabelStack {
    var entries: array<u32>
    var length: nat

    ghost predicate Valid()
      reads this
    {
      entries.Length == MPLS_STACK_MAX_ENTRIES && length <= entries.Length
    }

    /** mpls_stack_new. */
    constructor ()
      ensures Valid() && length == 0 && fresh(entries)
    {
      entries := new u32[MPLS_STACK_MAX_ENTRIES](_ => 0);
      length := 0;
    }

    /** mpls_stack_append. */
    method Append(entry: u32) returns (ok: bool)
      requires Valid()
      modifies this`length, entries
      ensures Valid() && (ok <==> old(length) < MPLS_STACK_MAX_ENTRIES)
      ensures entries[..length] == if ok then old(entries[..length]) + [entry] else old(entries[..length])
    {
      if length >= entries.Length {
        return false;
      }
      entries[length] := entry;
      length := length + 1;
      return true;
    }
  }

  // ---------------------------------------------------------------- blank headers

  /** What set_ipv4_header and ipv4_header_append write: version 4, five words of header, no
      fragment, TTL 255, and everything that is finished later zero. */
  function BlankIpv4(src: seq<byte>, dst: seq<byte>): (r: seq<byte>)
    requires |src| == 4 && |dst| == 4
    ensures |r| == 20
  {
    [0x45, 0, 0, 0, 0, 0, 0, 0, 255, 0, 0, 0] + src + dst
  }

  function BlankIpv6(src: seq<byte>, dst: seq<byte>): (r: seq<byte>)
    requires |src| == 16 && |dst| == 16
    ensures |r| == 40
  {
    [0x60, 0, 0, 0, 0, 0, 0, 255] + src + dst
  }

  method PutAll(packet: Packet, at: nat, v: seq<byte>)
    requires at + |v| <= packet.buffer.Length
    modifies packet.buffer
    ensures packet.buffer[..] == Splice(old(packet.buffer[..]), at, v)
  {
    forall k | 0 <= k < |v| {
      packet.buffer[at + k] := v[k];
    }
    assert packet.buffer[at..at + |v|] == v;
  }

  /** ipv4_header_append, ipv6_header_append and mpls_header_append: a header of n bytes with
      the contents v. */
  method AppendBytes(packet: Packet, kind: Kind, v: seq<byte>) returns (ok: bool)
    requires |packet.headers| <= PACKET_MAX_HEADERS
    modifies packet`headers, packet`ipBytes, packet.buffer
    ensures ok <==> old(|packet.headers|) < PACKET_MAX_HEADERS && old(packet.ipBytes) + |v| <= packet.buffer.Length
    ensures ok ==>
              && packet.headers == old(packet.headers) + [Header(kind, old(packet.ipBytes), |v|, 0)]
              && packet.ipBytes == old(packet.ipBytes) + |v|
              && packet.buffer[..] == Splice(old(packet.buffer[..]), old(packet.ipBytes), v)
    ensures !ok ==> unchanged(packet) && unchanged(packet.buffer)
  {
    var at := packet.ipBytes;
    ok := packet.AppendHeader(kind, |v|);
    if ok {
      PutAll(packet, at, v);
    }
  }

  /** A header that was appended is fit for encapsulation: IPv4 and IPv6 always, and a label
      stack when its bottom bits are right. gre_header_append writes nothing, so a GRE header
      is fit when the bits that the parser looks at happen to be zero; see ReadBackIff. */
  lemma AppendedIsBuilt(i: Input, p: nat, kind: Kind, v: seq<byte>)
    requires Sound(i) && p + |v| <= i.end && i.bytes[p..p + |v|] == v
    requires match kind
             case IPv4 => exists src: seq<byte>, dst: seq<byte> :: |src| == 4 && |dst| == 4 && v == BlankIpv4(src, dst)
             case IPv6 => exists src: seq<byte>, dst: seq<byte> :: |src| == 16 && |dst| == 16 && v == BlankIpv6(src, dst)
             case GRE => |v| == 4
             case MPLS => exists entries: seq<u32> :: entries != [] && v == StackBytesOf(entries) && BottomLast(entries)
             case _ => false
    ensures Shaped(i, Header(kind, p, |v|, 0))
    ensures Built(i, Header(kind, p, |v|, 0)) <==> (kind.GRE? ==> GreClear(v[0], v[1]))
  {
    hide StackOk, StackBytesOf, BottomLast, GreClear, GreSupported, GreBytes;
    match kind
    case IPv4 =>
      assert i.bytes[p] == v[0] && i.bytes[p + 6] == v[6] && i.bytes[p + 7] == v[7];
    case IPv6 =>
      assert i.bytes[p] == v[0];
    case GRE =>
      assert i.bytes[p] == v[0] && i.bytes[p + 1] == v[1];
      GreClearIff(v[0], v[1]);
    case MPLS =>
      var entries: seq<u32> :| entries != [] && v == StackBytesOf(entries) && BottomLast(entries);
      StackOkIff(i.bytes, p, entries, 0);
  }

  // ---------------------------------------------------------------- a GRE header gone wrong

  /** An empty UDP datagram in IPv4 in GRE in IPv4, with the given GRE flags in the buffer. */
  function GreExample(flags: byte, versions: byte): (s: seq<byte>)
    ensures |s| == 52
  {
    BlankIpv4(Zeros(4), Zeros(4)) + [flags, versions, 0, 0] + BlankIpv4(Zeros(4), Zeros(4)) + [0, 0, 0, 0, 0, 8, 0, 0]
  }

  const GRE_EXAMPLE_HEADERS: seq<Header> :=
    [Header(IPv4, 0, 20, 0), Header(GRE, 20, 4, 0), Header(IPv4, 24, 20, 0), Header(UDP, 44, 8, 8)]

  lemma GreExampleBytes(flags: byte, versions: byte)
    ensures var s := GreExample(flags, versions);
            && s[0] == 0x45 && Be16(s, 6) == 0 && s[20] == flags && s[21] == versions
            && s[24] == 0x45 && Be16(s, 30) == 0 && Be16(s, 48) == 8
  {
  }

  lemma StackMore(i: Input, h: Header, rest: seq<Header>)
    requires Sound(i) && Shaped(i, h) && rest != [] && Stacked(i, rest) && Laid([h], |i.bytes|) && Laid(rest, |i.bytes|)
    requires rest[0].offset == h.offset + h.headerBytes && MayCarry(i.encaps, h.kind, rest[0].kind)
    ensures Stacked(i, [h] + rest) && Laid([h] + rest, |i.bytes|)
    ensures AllClear(i.bytes, [h] + rest) <==>
      (h.kind.GRE? ==> GreClear(i.bytes[h.offset], i.bytes[h.offset + 1])) && AllClear(i.bytes, rest)
  {
    hide Shaped, MayCarry, GreClear;
    assert ([h] + rest)[1..] == rest;
  }

  lemma GreExampleStacked(flags: byte, versions: byte)
    ensures var i := Input(GreExample(flags, versions), 52, 0, 0);
            && Stacked(i, GRE_EXAMPLE_HEADERS) && Laid(GRE_EXAMPLE_HEADERS, 52)
            && (AllClear(i.bytes, GRE_EXAMPLE_HEADERS) <==> GreClear(flags, versions))
  {
    hide GreClear, GreExample, Be16;
    var i, hs := Input(GreExample(flags, versions), 52, 0, 0), GRE_EXAMPLE_HEADERS;
    GreExampleBytes(flags, versions);
    var udp := [hs[3]];
    assert udp[1..] == [];
    assert Stacked(i, udp) && Laid(udp, 52) && AllClear(i.bytes, udp);
    hide Stacked, AllClear;
    StackMore(i, hs[2], udp);
    StackMore(i, hs[1], [hs[2]] + udp);
    StackMore(i, hs[0], [hs[1]] + ([hs[2]] + udp));
    assert hs == [hs[0]] + ([hs[1]] + ([hs[2]] + udp));
  }

  /** A key bit left in the buffer (0x20), or any other bit that the parser looks at, and the
      packet does not come back; a reserved bit (0x08) does no harm. */
  lemma GreExampleReadBack(flags: byte, versions: byte)
    ensures Laid(GRE_EXAMPLE_HEADERS, 52)
    ensures var i := Input(FinishBytes(GreExample(flags, versions), GRE_EXAMPLE_HEADERS), 52, 0, 0);
            Run(i, Ether(ETHERTYPE_IP), 0, 0) == Parsed(PacketOk, FinishHeaders(GRE_EXAMPLE_HEADERS)) <==>
            GreClear(flags, versions)
    ensures !GreClear(0x20, 0) && GreClear(0x08, 0)
  {
    hide Stacked, Run, FinishBytes, FinishHeaders, AllClear, Laid;
    GreExampleStacked(flags, versions);
    ReadBackIff(Input(GreExample(flags, versions), 52, 0, 0), GRE_EXAMPLE_HEADERS);
  }
}
