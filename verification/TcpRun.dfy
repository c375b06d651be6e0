/**
 TCP sequence numbers over a run of a script that opens a connection actively: which of the
 kernel's packets the script accepts, and what is injected for the packets of the script.

 The state after connect() is the start. Addresses are reduced to whether a live packet goes
 to the remote endpoint of the socket and which local endpoint it comes from. A packet is
 accepted when verify_tcp accepts its header; packets are not encapsulated in UDP.
 */
module TcpRun {
  import opened Bytes
  import opened Arithmetic

  // ---------------------------------------------------------------- data

  /** SOCKET_ACTIVE_CONNECTING, SOCKET_ACTIVE_SYN_SENT and SOCKET_ACTIVE_SYN_ACKED. */
  datatype Phase = Connecting | SynSent | SynAcked

  datatype Block = Block(left: u32, right: u32)

  /** The length of a header in words. */
  type Words = n: int | 5 <= n <= 15 witness 5

  /** The fields of the header that are compared and not mapped. */
  datatype Fields = Fields(
    doff: Words, res1: nat, fin: bool, rst: bool, psh: bool, urg: bool,
    ece: bool, cwr: bool, ae: bool, window: u16, urgPtr: u16)

  datatype Tcp = Tcp(syn: bool, ack: bool, seqNo: u32, ackSeq: u32, sacks: seq<Block>, fields: Fields)

  /** FLAG_WIN_NOCHECK, FLAG_OPTIONS_NOCHECK, FLAG_PARSE_ACE, FLAG_ABSOLUTE_SEQ and
      FLAG_IGNORE_SEQ. */
  datatype Flags = Flags(anyWindow: bool, anyOptions: bool, ace: bool, absoluteSeq: bool, ignoreSeq: bool)

  /** A packet of the script. */
  datatype Script = Script(tcp: Tcp, flags: Flags)

  /** A packet that the kernel sent. */
  datatype Live = Live(toRemote: bool, source: nat, tcp: Tcp)

  datatype Endpoint = Unknown | Known(source: nat)

  datatype Isns = Isns(local: u32, remote: u32)

  datatype Sock = Sock(phase: Phase, script: Isns, live: Isns, local: Endpoint)

  const CONNECTED: Sock := Sock(Connecting, Isns(0, 0), Isns(0, 0), Unknown)

  // ---------------------------------------------------------------- translation

  /** The four offset functions of socket.h. */
  function RemoteScriptToLive(s: Sock, isSyn: bool): u32 {
    if isSyn then 0 else s.live.remote
  }

  function RemoteLiveToScript(s: Sock, isSyn: bool): u32 {
    Neg(RemoteScriptToLive(s, isSyn))
  }

  function LocalScriptToLive(s: Sock, isSyn: bool): u32 {
    if isSyn then Add(s.live.local, Neg(s.script.local)) else s.live.local
  }

  function LocalLiveToScript(s: Sock, isSyn: bool): u32 {
    Neg(LocalScriptToLive(s, isSyn))
  }

  /** offset_sack_blocks. */
  function OffsetSacks(sacks: seq<Block>, offset: u32): (r: seq<Block>)
    ensures |r| == |sacks|
    ensures forall i :: 0 <= i < |sacks| ==> r[i] == Block(Add(sacks[i].left, offset), Add(sacks[i].right, offset))
  {
    seq(|sacks|, i requires 0 <= i < |sacks| => Block(Add(sacks[i].left, offset), Add(sacks[i].right, offset)))
  }

  /** The TCP part of map_inbound_packet. */
  function MapInbound(s: Sock, script: Script): Tcp {
    var p := script.tcp;
    var ackOffset := LocalScriptToLive(s, p.syn);
    p.(seqNo := if script.flags.absoluteSeq then p.seqNo else Add(p.seqNo, RemoteScriptToLive(s, p.syn)),
       ackSeq := if p.ack then Add(p.ackSeq, ackOffset) else p.ackSeq,
       sacks := OffsetSacks(p.sacks, ackOffset))
  }

  /** The TCP part of map_outbound_live_packet. */
  function MapOutbound(s: Sock, p: Tcp, flags: Flags): Tcp {
    var ackOffset := RemoteLiveToScript(s, p.syn);
    p.(seqNo := if flags.absoluteSeq then p.seqNo else Add(p.seqNo, LocalLiveToScript(s, p.syn)),
       ackSeq := if p.ack then Add(p.ackSeq, ackOffset) else p.ackSeq,
       sacks := OffsetSacks(p.sacks, ackOffset))
  }

  /** tcp_ace_field. */
  function AceField(f: Fields): nat {
    (if f.ae then 4 else 0) + (if f.cwr then 2 else 0) + (if f.ece then 1 else 0)
  }

  /** tcp_options_allowance, in words. */
  function Allowance(actual: Fields, flags: Flags): nat {
    if flags.anyOptions then actual.doff - 5 else 0
  }

  /** verify_tcp. */
  predicate Verify(actual: Tcp, script: Script) {
    var f, a, p := script.tcp.fields, actual.fields, script.tcp;
    && f.doff + Allowance(a, script.flags) == a.doff
    && f.fin == a.fin
    && p.syn == actual.syn
    && f.rst == a.rst
    && f.psh == a.psh
    && p.ack == actual.ack
    && f.urg == a.urg
    && (if script.flags.ace then AceField(f) == AceField(a) else f.ece == a.ece && f.cwr == a.cwr && f.ae == a.ae)
    && f.res1 == a.res1
    && (script.flags.ignoreSeq || p.seqNo == actual.seqNo)
    && p.ackSeq == actual.ackSeq
    && (script.flags.anyWindow || f.window == a.window)
    && f.urgPtr == a.urgPtr
  }

  /** The header agrees with the script's in the fields that have nothing to do with the
      connection. A script that takes any options has a header without options. */
  predicate SameFields(live: Tcp, script: Script) {
    var f, flags := script.tcp.fields, script.flags;
    && live.syn == script.tcp.syn && live.ack == script.tcp.ack
    && (if flags.anyOptions then f.doff == 5 else live.fields.doff == f.doff)
    && live.fields.(doff := f.doff, window := f.window) == f
    && (flags.anyWindow || live.fields.window == f.window)
  }

  // ---------------------------------------------------------------- the run

  datatype Event = Outbound(script: Script, sniffed: seq<Live>) | Inbound(script: Script)

  /** What an event leads to: the kernel's packet is accepted or rejected, there is none, or a
      packet is injected. */
  datatype Result = Accepted | Rejected | Nothing | Injected(live: Tcp)

  /** handle_connect_for_script_packet. */
  function HandleConnect(s: Sock, p: Tcp): Sock {
    if s.phase.Connecting? && p.syn && !p.ack then s.(phase := SynSent, script := s.script.(local := p.seqNo)) else s
  }

  /** The packet comes from the known 4-tuple (find_socket_for_live_packet). */
  predicate FromSocket(s: Sock, l: Live) {
    l.toRemote && s.local == Known(l.source)
  }

  /** The packet is the SYN of the connecting socket (find_connect_for_live_packet). */
  predicate FromConnect(s: Sock, l: Live) {
    l.toRemote && l.tcp.syn && !l.tcp.ack && s.phase.SynSent?
  }

  /** What the socket learns from the packet. */
  function Learn(s: Sock, l: Live): Sock {
    if FromSocket(s, l) then s else s.(live := s.live.(local := l.tcp.seqNo), local := Known(l.source))
  }

  /** The first packet that is for the socket, or the number of packets. */
  function FirstFor(s: Sock, sniffed: seq<Live>): (i: nat)
    ensures i <= |sniffed|
    ensures i < |sniffed| ==> FromSocket(s, sniffed[i]) || FromConnect(s, sniffed[i])
    ensures forall j :: 0 <= j < i ==> !FromSocket(s, sniffed[j]) && !FromConnect(s, sniffed[j])
  {
    if sniffed == [] then 0
    else if FromSocket(s, sniffed[0]) || FromConnect(s, sniffed[0]) then 0
    else 1 + FirstFor(s, sniffed[1..])
  }

  function Step(s: Sock, e: Event): (Sock, Result) {
    match e
    case Outbound(script, sniffed) =>
      var t := HandleConnect(s, script.tcp);
      var i := FirstFor(t, sniffed);
      if i == |sniffed| then (t, Nothing)
      else
        var u := Learn(t, sniffed[i]);
        (u, if Verify(MapOutbound(u, sniffed[i].tcp, script.flags), script) then Accepted else Rejected)
    case Inbound(script) =>
      var t := ReceiveSynAck(s, script.tcp);
      (t, Injected(MapInbound(t, script)))
  }

  /** The beginning of do_inbound_script_packet. */
  function ReceiveSynAck(s: Sock, p: Tcp): Sock {
    if s.phase.SynSent? && p.syn && p.ack then
      s.(phase := SynAcked, script := s.script.(remote := p.seqNo), live := s.live.(remote := p.seqNo))
    else s
  }

  /** The state after a run. */
  function Run(s: Sock, events: seq<Event>): Sock
    decreases |events|
  {
    if events == [] then s else Run(Step(s, events[0]).0, events[1..])
  }

  lemma {:induction false} RunConcat(s: Sock, x: seq<Event>, y: seq<Event>)
    ensures Run(s, x + y) == Run(Run(s, x), y)
    decreases |x|
  {
    hide Step;
    if x == [] {
      assert x + y == y;
    } else {
      assert (x + y)[1..] == x[1..] + y;
      RunConcat(Step(s, x[0]).0, x[1..], y);
    }
  }

  // ---------------------------------------------------------------- every reachable state

  /** The tool picks the remote ISN, so it is the same in the script and live. */
  lemma {:induction false} RemoteIsnsAgree(s: Sock, events: seq<Event>)
    requires s.script.remote == s.live.remote
    ensures Run(s, events).script.remote == Run(s, events).live.remote
    decreases |events|
  {
    if events != [] { RemoteIsnsAgree(Step(s, events[0]).0, events[1..]); }
  }

  /** Once the SYN-ACK has been received nothing about the connection changes. */
  lemma {:induction false} AckedIsFinal(s: Sock, events: seq<Event>)
    requires s.phase.SynAcked?
    ensures Run(s, events) == s
    decreases |events|
  {
    if events != [] { AckedIsFinal(s, events[1..]); }
  }

  /** Every SYN in the run comes from the given local endpoint, and no SYN-ACK arrives. */
  ghost predicate StillOpening(events: seq<Event>, source: nat) {
    forall i :: 0 <= i < |events| ==> Opening(events[i], source)
  }

  ghost predicate Opening(e: Event, source: nat) {
    match e
    case Outbound(_, sniffed) =>
      forall j :: 0 <= j < |sniffed| && sniffed[j].toRemote && sniffed[j].tcp.syn && !sniffed[j].tcp.ack ==> sniffed[j].source == source
    case Inbound(script) => !(script.tcp.syn && script.tcp.ack)
  }

  lemma {:induction false} OpeningKeeps(s: Sock, events: seq<Event>, source: nat)
    requires s.phase.SynSent? && s.local == Known(source) && StillOpening(events, source)
    ensures Run(s, events) == s
    decreases |events|
  {
    if events != [] {
      assert Opening(events[0], source);
      assert Step(s, events[0]).0 == s;
      OpeningKeeps(s, events[1..], source);
    }
  }

  // ---------------------------------------------------------------- what is accepted

  /** The checks accept exactly the script's fields with the script's numbers translated. */
  lemma AcceptsExactly(s: Sock, live: Tcp, script: Script)
    ensures Verify(MapOutbound(s, live, script.flags), script) <==>
      && SameFields(live, script)
      && (|| script.flags.ignoreSeq
          || live.seqNo == if script.flags.absoluteSeq then script.tcp.seqNo
                           else Add(script.tcp.seqNo, LocalScriptToLive(s, script.tcp.syn)))
      && live.ackSeq == if script.tcp.ack then Add(script.tcp.ackSeq, RemoteScriptToLive(s, script.tcp.syn)) else script.tcp.ackSeq
  {
    hide Add, Neg;
    var p := script.tcp;
    AddNeg(live.seqNo, LocalScriptToLive(s, live.syn));
    AddNeg(p.seqNo, LocalScriptToLive(s, live.syn));
    AddNeg(live.ackSeq, RemoteScriptToLive(s, live.syn));
    AddNeg(p.ackSeq, RemoteScriptToLive(s, live.syn));
  }

  /** Translating to live and back is the identity, on numbers and on SACK edges; inbound
      acknowledgements and SACK edges go the way opposite to outbound sequence numbers. */
  lemma TranslationInverse(s: Sock, isSyn: bool, x: u32, sacks: seq<Block>)
    ensures Add(Add(x, LocalScriptToLive(s, isSyn)), LocalLiveToScript(s, isSyn)) == x
    ensures Add(Add(x, RemoteScriptToLive(s, isSyn)), RemoteLiveToScript(s, isSyn)) == x
    ensures OffsetSacks(OffsetSacks(sacks, LocalScriptToLive(s, isSyn)), LocalLiveToScript(s, isSyn)) == sacks
    ensures OffsetSacks(OffsetSacks(sacks, RemoteScriptToLive(s, isSyn)), RemoteLiveToScript(s, isSyn)) == sacks
  {
    hide Add, Neg;
    AddNeg(x, LocalScriptToLive(s, isSyn));
    AddNeg(x, RemoteScriptToLive(s, isSyn));
    SacksBack(sacks, LocalScriptToLive(s, isSyn));
    SacksBack(sacks, RemoteScriptToLive(s, isSyn));
  }

  /** In every outbound packet that is compared with the script, SACK edges have lost what the
      script's numbers are behind the live ones: the remote ISN, and nothing on packets with SYN. */
  lemma OutboundSacks(s: Sock, live: Tcp, flags: Flags, i: nat)
    requires i < |live.sacks|
    ensures var r, offset := MapOutbound(s, live, flags), if live.syn then 0 else s.live.remote;
            && |r.sacks| == |live.sacks|
            && Add(r.sacks[i].left, offset) == live.sacks[i].left && Add(r.sacks[i].right, offset) == live.sacks[i].right
  {
    hide Add, Neg;
    AddNeg(live.sacks[i].left, RemoteScriptToLive(s, live.syn));
    AddNeg(live.sacks[i].right, RemoteScriptToLive(s, live.syn));
  }

  /** What one end injects the other end reads back: SACK edges and acknowledgements go through the
      inbound mapping of one end and the outbound mapping of the other unchanged. */
  lemma AcknowledgementsComeBack(s: Sock, other: Sock, script: Script)
    requires other.live.local == s.live.remote && other.script.local == s.script.remote && s.script.remote == s.live.remote
    ensures var r := MapOutbound(s, MapInbound(other, script), script.flags);
            r.sacks == script.tcp.sacks && r.ackSeq == script.tcp.ackSeq
  {
    hide Add, Neg;
    var p := script.tcp;
    SameOffset(s, other, p.syn);
    SacksBack(p.sacks, RemoteScriptToLive(s, p.syn));
    AddNeg(p.ackSeq, RemoteScriptToLive(s, p.syn));
  }

  lemma SameOffset(s: Sock, other: Sock, isSyn: bool)
    requires other.live.local == s.live.remote && other.script.local == s.script.remote && s.script.remote == s.live.remote
    ensures LocalScriptToLive(other, isSyn) == RemoteScriptToLive(s, isSyn)
  {
  }

  lemma SacksBack(sacks: seq<Block>, a: u32)
    ensures OffsetSacks(OffsetSacks(sacks, a), Neg(a)) == sacks
  {
    hide Add, Neg;
    forall i | 0 <= i < |sacks|
      ensures OffsetSacks(OffsetSacks(sacks, a), Neg(a))[i] == sacks[i]
    {
      AddNeg(sacks[i].left, a);
      AddNeg(sacks[i].right, a);
    }
  }

  // ---------------------------------------------------------------- active open

  /** A three-way handshake: the script's SYN, the kernel's SYN behind packets that are not for
      the socket, anything but a SYN-ACK or a SYN from elsewhere, and the SYN-ACK. */
  datatype Handshake = Handshake(syn: Script, before: seq<Live>, live: Live, middle: seq<Event>, synAck: Script)

  ghost predicate Proper(h: Handshake) {
    && h.syn.tcp.syn && !h.syn.tcp.ack && h.synAck.tcp.syn && h.synAck.tcp.ack
    && h.live.toRemote && h.live.tcp.syn && !h.live.tcp.ack
    && (forall i :: 0 <= i < |h.before| ==> !(h.before[i].toRemote && h.before[i].tcp.syn && !h.before[i].tcp.ack))
    && StillOpening(h.middle, h.live.source)
  }

  function Events(h: Handshake): seq<Event> {
    [Outbound(h.syn, h.before + [h.live])] + h.middle + [Inbound(h.synAck)]
  }

  /** The state that the handshake leads to. */
  function Opened(h: Handshake): Sock {
    Sock(SynAcked, Isns(h.syn.tcp.seqNo, h.synAck.tcp.seqNo), Isns(h.live.tcp.seqNo, h.synAck.tcp.seqNo), Known(h.live.source))
  }

  lemma {:induction false} SkipsBefore(s: Sock, before: seq<Live>, l: Live)
    requires s.local.Unknown? && FromConnect(s, l)
    requires forall i :: 0 <= i < |before| ==> !(before[i].toRemote && before[i].tcp.syn && !before[i].tcp.ack)
    ensures FirstFor(s, before + [l]) == |before|
    decreases |before|
  {
    if before != [] {
      assert (before + [l])[1..] == before[1..] + [l];
      SkipsBefore(s, before[1..], l);
    }
  }

  /** Whatever follows the handshake, the numbers are those of the two SYNs and the SYN-ACK. */
  lemma ActiveOpen(h: Handshake, rest: seq<Event>)
    requires Proper(h)
    ensures Run(CONNECTED, Events(h) + rest) == Opened(h)
  {
    var first := Outbound(h.syn, h.before + [h.live]);
    var s0 := HandleConnect(CONNECTED, h.syn.tcp);
    SkipsBefore(s0, h.before, h.live);
    var s := Learn(s0, h.live);
    assert Step(CONNECTED, first).0 == s;
    assert Run(CONNECTED, [first]) == s by { assert [first][1..] == []; }
    OpeningKeeps(s, h.middle, h.live.source);
    var ack := Inbound(h.synAck);
    assert Run(s, [ack]) == Opened(h) by { assert [ack][1..] == []; }
    hide Run, Step;
    RunConcat(CONNECTED, [first], h.middle);
    RunConcat(CONNECTED, [first] + h.middle, [ack]);
    RunConcat(CONNECTED, Events(h), rest);
    AckedIsFinal(Opened(h), rest);
  }

  /** Every ISN that the kernel chooses is accepted: unless the script gives an absolute number,
      the sequence number of its SYN always verifies, and without an ACK flag the acknowledgement
      fields are compared as they are. */
  lemma AnyIsnAccepted(h: Handshake)
    requires Proper(h)
    ensures Step(CONNECTED, Outbound(h.syn, h.before + [h.live])).1.Accepted? <==>
      && SameFields(h.live.tcp, h.syn) && h.live.tcp.ackSeq == h.syn.tcp.ackSeq
      && (h.syn.flags.absoluteSeq && !h.syn.flags.ignoreSeq ==> h.live.tcp.seqNo == h.syn.tcp.seqNo)
  {
    hide Add, Neg, Verify, MapOutbound, SameFields;
    var s0 := HandleConnect(CONNECTED, h.syn.tcp);
    SkipsBefore(s0, h.before, h.live);
    AcceptsExactly(Learn(s0, h.live), h.live.tcp, h.syn);
    AddDifference(h.syn.tcp.seqNo, h.live.tcp.seqNo);
  }

  /** The number that the handshake adds to the sequence numbers of the local end. On packets
      with SYN the script's numbers are absolute, so that only the difference between the two
      SYNs is added. */
  function LocalOffset(h: Handshake, isSyn: bool): u32 {
    if isSyn then Add(h.live.tcp.seqNo, Neg(h.syn.tcp.seqNo)) else h.live.tcp.seqNo
  }

  /** After the handshake, for every ISN that the kernel chose: the next outbound packet is
      accepted exactly when the kernel's packet has the script's fields and the script's numbers
      moved by the kernel's ISN (sequence) and by the script's SYN-ACK (acknowledgement). */
  lemma OutboundAfterOpen(h: Handshake, rest: seq<Event>, script: Script, sniffed: seq<Live>)
    requires Proper(h)
    ensures var s := Run(CONNECTED, Events(h) + rest);
            var i := FirstFor(s, sniffed);
            Step(s, Outbound(script, sniffed)).1.Accepted? <==>
              && i < |sniffed|
              && var live, p, flags := sniffed[i].tcp, script.tcp, script.flags;
              && SameFields(live, script)
              && (|| flags.ignoreSeq
                  || live.seqNo == if flags.absoluteSeq then p.seqNo else Add(p.seqNo, LocalOffset(h, p.syn)))
              && live.ackSeq == if p.ack && !p.syn then Add(p.ackSeq, h.synAck.tcp.seqNo) else p.ackSeq
  {
    hide Run, Add, Neg, Verify, MapOutbound, FirstFor, SameFields;
    ActiveOpen(h, rest);
    var s := Opened(h);
    var i := FirstFor(s, sniffed);
    AddZero(script.tcp.ackSeq);
    if i < |sniffed| { AcceptsExactly(s, sniffed[i].tcp, script); }
  }

  /** What is injected for an inbound packet after the handshake: the inverse translation. */
  lemma InboundAfterOpen(h: Handshake, rest: seq<Event>, script: Script)
    requires Proper(h)
    ensures var p, offset := script.tcp, LocalOffset(h, script.tcp.syn);
            Step(Run(CONNECTED, Events(h) + rest), Inbound(script)).1 ==
              Injected(Tcp(p.syn, p.ack,
                if p.syn || script.flags.absoluteSeq then p.seqNo else Add(p.seqNo, h.synAck.tcp.seqNo),
                if p.ack then Add(p.ackSeq, offset) else p.ackSeq,
                OffsetSacks(p.sacks, offset), p.fields))
  {
    hide Run, Add, Neg, OffsetSacks;
    ActiveOpen(h, rest);
    AddZero(script.tcp.seqNo);
  }

  // ---------------------------------------------------------------- the program

  /** The loop of offset_sack_blocks over the edges in a packet. */
  method OffsetSackBlocks(blocks: array<Block>, ackOffset: u32)
    modifies blocks
    ensures blocks[..] == OffsetSacks(old(blocks[..]), ackOffset)
  {
    var i := 0;
    while i < blocks.Length
      invariant 0 <= i <= blocks.Length
      invariant forall j :: 0 <= j < i ==> blocks[j] == OffsetSacks(old(blocks[..]), ackOffset)[j]
      invariant forall j :: i <= j < blocks.Length ==> blocks[j] == old(blocks[j])
    {
      var val := Add(blocks[i].left, ackOffset);
      blocks[i] := blocks[i].(left := val);
      val := Add(blocks[i].right, ackOffset);
      blocks[i] := blocks[i].(right := val);
      i := i + 1;
    }
  }

  class Socket {
    var phase: Phase
    var script: Isns
    var live: Isns
    var local: Endpoint

    /** The state that connect() leaves. */
    constructor ()
      ensures View() == CONNECTED
    {
      phase := Connecting;
      script, live := Isns(0, 0), Isns(0, 0);
      local := Unknown;
    }

    function View(): Sock
      reads this
    {
      Sock(phase, script, live, local)
    }

    /** sniff_outbound_live_packet. */
    method Sniff(sniffed: seq<Live>) returns (found: bool, i: nat)
      modifies this`live, this`local
      ensures i == FirstFor(old(View()), sniffed) && (found <==> i < |sniffed|)
      ensures View() == if found then Learn(old(View()), sniffed[i]) else old(View())
    {
      i := 0;
      assert sniffed[0..] == sniffed;
      while i < |sniffed|
        invariant 0 <= i <= |sniffed| && View() == old(View())
        invariant FirstFor(View(), sniffed) == i + FirstFor(View(), sniffed[i..])
      {
        var l := sniffed[i];
        if l.toRemote && local == Known(l.source) {
          return true, i;
        }
        if l.tcp.syn && !l.tcp.ack && phase == SynSent && l.toRemote {
          local := Known(l.source);
          live := live.(local := l.tcp.seqNo);
          return true, i;
        }
        assert sniffed[i..][1..] == sniffed[i + 1..];
        i := i + 1;
      }
      return false, i;
    }

    /** run_packet_event for an outbound packet: handle_connect_for_script_packet, sniffing,
        mapping and verifying. */
    method RunOutbound(packet: Script, sniffed: seq<Live>) returns (result: Result)
      modifies this
      ensures (View(), result) == Step(old(View()), Outbound(packet, sniffed))
    {
      if packet.tcp.syn && !packet.tcp.ack && phase == Connecting {
        phase := SynSent;
        script := script.(local := packet.tcp.seqNo);
      }
      var found, i := Sniff(sniffed);
      if !found {
        return Nothing;
      }
      var actual := MapOutbound(View(), sniffed[i].tcp, packet.flags);
      if Verify(actual, packet) {
        return Accepted;
      }
      return Rejected;
    }

    /** run_packet_event for an inbound packet: do_inbound_script_packet and mapping. */
    method RunInbound(packet: Script) returns (result: Result)
      modifies this
      ensures (View(), result) == Step(old(View()), Inbound(packet))
    {
      if phase == SynSent && packet.tcp.syn && packet.tcp.ack {
        phase := SynAcked;
        script := script.(remote := packet.tcp.seqNo);
        live := live.(remote := packet.tcp.seqNo);
      }
      return Injected(MapInbound(View(), packet));
    }
  }
}
