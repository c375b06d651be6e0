/**
 TCP timestamps over a run: the values that the kernel sends are shown in the clock of the
 script, and the echo replies of the script are given the values that the kernel sent.

 The baseline between the two clocks is the first packet that has a timestamp in the script
 and live. The values sent are kept in the socket's hash map.
 */
module Timestamps {
  import opened Bytes
  import opened Arithmetic
  import HashMap

  // ---------------------------------------------------------------- data

  /** A timestamp option, or none. */
  datatype Stamp = Absent | At(value: u32)

  /** An outbound packet, with the values of the script and the kernel and FLAG_IGNORE_TS_VAL, or
      an inbound packet of the script, with its ACK flag, its echo reply and
      FLAG_ABSOLUTE_TS_ECR. */
  datatype Packet =
    | Sent(script: Stamp, live: Stamp, ignored: bool)
    | Reply(ack: bool, echo: Stamp, absolute: bool)

  /** The value that is compared with the script's, or the echo reply that is injected, or no
      mapping is found for it. */
  datatype Result = Shown(value: Stamp) | Injected(echo: Stamp) | Unmapped

  datatype Baseline = Unset | Baseline(script: u32, live: u32)

  datatype Clock = Clock(first: Baseline, values: map<u32, u32>)

  const NEW_SOCKET: Clock := Clock(Unset, map[])

  // ---------------------------------------------------------------- the run

  /** Both sides of an outbound packet have a timestamp. */
  predicate Stamped(p: Packet) {
    p.Sent? && p.script.At? && p.live.At?
  }

  predicate Recorded(p: Packet, script: u32) {
    Stamped(p) && !p.ignored && p.script.value == script
  }

  predicate Translated(p: Packet) {
    p.Reply? && p.ack && p.echo.At? && !p.absolute
  }

  function Step(c: Clock, p: Packet): (Clock, Result) {
    if p.Reply? then
      (c, if !Translated(p) then Injected(p.echo)
          else if p.echo.value in c.values then Injected(At(c.values[p.echo.value]))
          else Unmapped)
    else if !Stamped(p) then (c, Shown(p.live))
    else
      var script, live := p.script.value, p.live.value;
      var first := if c.first.Unset? then Baseline(script, live) else c.first;
      (Clock(first, if p.ignored then c.values else c.values[script := live]),
       Shown(At(Add(first.script, Sub(live, first.live)))))
  }

  function Run(packets: seq<Packet>): Clock {
    if packets == [] then NEW_SOCKET else
    var n := |packets| - 1;
    Step(Run(packets[..n]), packets[n]).0
  }

  // ---------------------------------------------------------------- echo replies

  /** The i-th packet is the latest that the kernel sent for the value of the script. */
  predicate LatestFor(packets: seq<Packet>, script: u32, i: int) {
    && 0 <= i < |packets| && Recorded(packets[i], script)
    && forall j :: i < j < |packets| ==> !Recorded(packets[j], script)
  }

  lemma {:induction false} ValuesAreLatest(packets: seq<Packet>, script: u32)
    ensures var values := Run(packets).values;
            if script in values then exists i :: LatestFor(packets, script, i) && packets[i].live.value == values[script]
            else forall i :: 0 <= i < |packets| ==> !Recorded(packets[i], script)
    decreases |packets|
  {
    if packets != [] {
      var n := |packets| - 1;
      var init := packets[..n];
      ValuesAreLatest(init, script);
      var values := Run(packets).values;
      if Recorded(packets[n], script) {
        assert LatestFor(packets, script, n) && packets[n].live.value == values[script];
      } else if script in Run(init).values {
        var i :| LatestFor(init, script, i) && init[i].live.value == Run(init).values[script];
        assert LatestFor(packets, script, i) && packets[i].live.value == values[script];
      }
    }
  }

  /** After every run an echo reply of the script becomes the value that the kernel sent in the
      latest packet where the script has the value echoed, and none is found if and only if there is
      no such packet. Without ACK flag or echo reply, or with an absolute one, the packet is left as
      it is. */
  lemma EchoIsLatest(packets: seq<Packet>, p: Packet)
    requires p.Reply?
    ensures var r := Step(Run(packets), p).1;
            if !p.ack || p.echo.Absent? || p.absolute then r == Injected(p.echo)
            else
              match r
              case Shown(_) => false
              case Injected(e) => e.At? && exists i :: LatestFor(packets, p.echo.value, i) && packets[i].live == e
              case Unmapped => forall i :: 0 <= i < |packets| ==> !Recorded(packets[i], p.echo.value)
  {
    hide Run;
    if p.echo.At? { ValuesAreLatest(packets, p.echo.value); }
  }

  /** Packets that the kernel or the script sends without timestamp are shown as they are, and change
      nothing; neither do replies. */
  lemma OthersChangeNothing(packets: seq<Packet>, p: Packet)
    requires p.Sent? ==> p.script.Absent? || p.live.Absent?
    ensures Run(packets + [p]) == Run(packets)
    ensures p.Sent? ==> Step(Run(packets), p).1 == Shown(p.live)
  {
    assert (packets + [p])[..|packets|] == packets;
  }

  // ---------------------------------------------------------------- the clock of the script

  predicate FirstStamped(packets: seq<Packet>, i: int) {
    && 0 <= i < |packets| && Stamped(packets[i])
    && forall j :: 0 <= j < i ==> !Stamped(packets[j])
  }

  /** The baseline is the first packet with both timestamps, whether or not it is recorded. */
  lemma {:induction false} BaselineIsFirst(packets: seq<Packet>, i: int)
    requires FirstStamped(packets, i)
    ensures Run(packets).first == Baseline(packets[i].script.value, packets[i].live.value)
    decreases |packets|
  {
    var n := |packets| - 1;
    if i < n {
      assert FirstStamped(packets[..n], i);
      BaselineIsFirst(packets[..n], i);
    } else {
      NoBaseline(packets[..n]);
    }
  }

  lemma {:induction false} NoBaseline(packets: seq<Packet>)
    requires forall j :: 0 <= j < |packets| ==> !Stamped(packets[j])
    ensures Run(packets).first.Unset?
    decreases |packets|
  {
    if packets != [] { NoBaseline(packets[..|packets| - 1]); }
  }

  /** How far the value that is shown is from the script's: as far as the clock of the kernel has
      run ahead of the script's since the first packet. It is the script's own if and only if
      both have advanced alike. */
  lemma ShownIsAdvance(packets: seq<Packet>, p: Packet, i: int)
    requires Stamped(p) && FirstStamped(packets + [p], i)
    ensures var first := (packets + [p])[i];
            var scriptAdvance := Sub(p.script.value, first.script.value);
            var liveAdvance := Sub(p.live.value, first.live.value);
            match Step(Run(packets), p).1
            case Shown(At(shown)) =>
              && Sub(shown, p.script.value) == Sub(liveAdvance, scriptAdvance)
              && (shown == p.script.value <==> liveAdvance == scriptAdvance)
            case _ => false
  {
    hide Run, Sub, Add;
    var all := packets + [p];
    assert all[..|packets|] == packets;
    RunLast(packets, p);
    BaselineIsFirst(all, i);
    AdvanceOf(p.script.value, all[i].script.value, Sub(p.live.value, all[i].live.value));
  }

  lemma RunLast(packets: seq<Packet>, p: Packet)
    ensures Run(packets + [p]) == Step(Run(packets), p).0
  {
    hide Step;
    assert (packets + [p])[..|packets|] == packets;
  }

  /** Distances modulo 2^32. */
  lemma AdvanceOf(x: u32, first: u32, live: u32)
    ensures Sub(Add(first, live), x) == Sub(live, Sub(x, first))
    ensures Add(first, live) == x <==> live == Sub(x, first)
  {
    hide Add, Sub;
    AddIs(first, live);
    SubIs(x, first);
    SubIs(Add(first, live), x);
    SubIs(live, Sub(x, first));
  }

  // ---------------------------------------------------------------- the program

  /** The part of a socket that has to do with timestamps. */
  class Socket {
    var foundFirst: bool
    var firstScript: u32
    var firstLive: u32
    var values: HashMap.HashMap

    constructor ()
      ensures Valid() && View() == NEW_SOCKET && fresh(values.Repr())
    {
      hide HashMap.HashMap.Valid, HashMap.HashMap.Contents;
      foundFirst, firstScript, firstLive := false, 0, 0;
      values := new HashMap.HashMap(1);
    }

    ghost predicate Valid()
      reads this, values, values.buckets, values.nodes.Values
    {
      this !in values.Repr() && values.Valid()
    }

    ghost function View(): Clock
      reads this, values, values.nodes.Values
    {
      Clock(if foundFirst then Baseline(firstScript, firstLive) else Unset, values.Contents())
    }

    /** The timestamp part of map_outbound_live_packet. */
    method MapOutbound(script: Stamp, live: Stamp, ignored: bool) returns (shown: Stamp)
      requires Valid()
      modifies this, values.Repr()
      ensures Valid() && values == old(values) && fresh(values.Repr() - old(values.Repr()))
      ensures (View(), Shown(shown)) == Step(old(View()), Sent(script, live, ignored))
    {
      hide HashMap.HashMap.Valid, HashMap.HashMap.Contents;
      if script.Absent? || live.Absent? {
        return live;
      }
      if !ignored {
        values.Set(script.value, live.value);
      }
      if !foundFirst {
        foundFirst := true;
        firstScript := script.value;
        firstLive := live.value;
      }
      return At(Add(firstScript, Sub(live.value, firstLive)));
    }

    /** The timestamp part of map_inbound_packet. */
    method MapInbound(ack: bool, echo: Stamp, absolute: bool) returns (result: Result)
      requires Valid()
      ensures Valid() && (View(), result) == Step(View(), Reply(ack, echo, absolute))
    {
      hide HashMap.HashMap.Valid, HashMap.HashMap.Contents;
      if absolute || !ack || echo.Absent? {
        return Injected(echo);
      }
      var found, value := values.Get(echo.value);
      if !found {
        return Unmapped;
      }
      return Injected(At(value));
    }
  }

  /** Every run of packets on a new socket. */
  method Replay(packets: seq<Packet>) returns (results: seq<Result>)
    ensures |results| == |packets|
    ensures forall i :: 0 <= i < |packets| ==> results[i] == Step(Run(packets[..i]), packets[i]).1
  {
    hide HashMap.HashMap.Valid, HashMap.HashMap.Contents, Run, Step;
    var socket := new Socket();
    results := [];
    assert Run([]) == NEW_SOCKET by { NewSocket(); }
    while |results| < |packets|
      invariant |results| <= |packets|
      invariant fresh(socket) && fresh(socket.values.Repr()) && socket.Valid() && socket.View() == Run(packets[..|results|])
      invariant forall i :: 0 <= i < |results| ==> results[i] == Step(Run(packets[..i]), packets[i]).1
    {
      var n := |results|;
      assert packets[..n + 1] == packets[..n] + [packets[n]];
      RunLast(packets[..n], packets[n]);
      match packets[n]
      case Sent(script, live, ignored) =>
        var shown := socket.MapOutbound(script, live, ignored);
        results := results + [Shown(shown)];
      case Reply(ack, echo, absolute) =>
        var result := socket.MapInbound(ack, echo, absolute);
        results := results + [result];
    }
  }

  lemma NewSocket()
    ensures Run([]) == NEW_SOCKET
  {
  }
}
