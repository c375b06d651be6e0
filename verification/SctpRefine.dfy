/**
 On packets whose items are long enough, what happens in memory is the mapping item by item
 that SctpMap defines.
 */
module SctpRefine {
  import opened Bytes
  import opened Arithmetic
  import opened SctpMap
  import opened SctpRaw
  import SctpIterator

  // ---------------------------------------------------------------- stores in a window

  function Moved(ws: seq<Write>, p: nat): (r: seq<Write>)
    ensures |r| == |ws|
    ensures forall i :: 0 <= i < |ws| ==> r[i] == ws[i].(at := ws[i].at + p)
  {
    seq(|ws|, i requires 0 <= i < |ws| => ws[i].(at := ws[i].at + p))
  }

  /** Shifting a field inside a window that has been written before. */
  lemma ShiftInto(s: seq<byte>, p: nat, w: seq<byte>, at: nat, d: u32)
    requires p + |w| <= |s| && at + 4 <= |w|
    ensures Shift(Splice(s, p, w), p + at, d) == Splice(s, p, Shift(w, at, d))
  {
    hide Be32Bytes, Add;
    var r := Splice(s, p, w);
    assert r[p..p + |w|] == w;
    assert Be32(r, p + at) == Be32(w, at);
    SpliceInto(s, p, w, at, Be32Bytes(Add(Be32(w, at), d)));
  }

  lemma StoreInto(s: seq<byte>, p: nat, w: seq<byte>, x: Write)
    requires p + |w| <= |s| && x.at + 4 <= |w|
    ensures Store(Splice(s, p, w), x.(at := x.at + p)) == Splice(s, p, Store(w, x))
  {
    hide Shift, Splice, Be32Bytes;
    match x
    case AddTo(at, d) => ShiftInto(s, p, w, at, d);
    case Put(at, v) => SpliceInto(s, p, w, at, Be32Bytes(v));
  }

  lemma {:induction false} ApplyInto(s: seq<byte>, p: nat, w: seq<byte>, ws: seq<Write>)
    requires p + |w| <= |s| && AllFit(ws, |w|)
    ensures Apply(Splice(s, p, w), Moved(ws, p)) == Memory(Splice(s, p, Apply(w, ws).bytes), Finished)
    decreases |ws|
  {
    hide Store, Splice;
    if ws != [] {
      StoreInto(s, p, w, ws[0]);
      assert Moved(ws, p)[1..] == Moved(ws[1..], p);
      ApplyInto(s, p, Store(w, ws[0]), ws[1..]);
    }
  }

  /** Stores inside a window act on the window. */
  lemma ApplyWindow(s: seq<byte>, p: nat, n: nat, ws: seq<Write>)
    requires p + n <= |s| && AllFit(ws, n)
    ensures Apply(s, Moved(ws, p)) == Memory(Splice(s, p, Apply(s[p..p + n], ws).bytes), Finished)
  {
    hide Apply, Splice, Moved;
    SpliceWhole(s, p, n);
    ApplyInto(s, p, s[p..p + n], ws);
  }

  lemma ApplyOne(s: seq<byte>, x: Write)
    requires x.at + 4 <= |s|
    ensures Apply(s, [x]) == Memory(Store(s, x), Finished)
  {
    hide Store;
    assert [x][1..] == [];
  }

  lemma ApplyMore(s: seq<byte>, x: Write, ws: seq<Write>)
    requires x.at + 4 <= |s|
    ensures Apply(s, [x] + ws) == Apply(Store(s, x), ws)
  {
    hide Store;
    assert ([x] + ws)[1..] == ws;
  }

  lemma ApplyNone(s: seq<byte>)
    ensures Apply(s, []) == Memory(s, Finished)
  {
  }

  lemma ApplyThree(s: seq<byte>, x: Write, y: Write, z: Write)
    requires x.at + 4 <= |s| && y.at + 4 <= |s| && z.at + 4 <= |s|
    ensures Apply(s, [x, y, z]) == Memory(Store(Store(Store(s, x), y), z), Finished)
    ensures Apply(s, [x, y]) == Memory(Store(Store(s, x), y), Finished)
  {
    hide Store, Apply;
    assert [x, y, z] == [x] + ([y] + [z]);
    assert [x, y] == [x] + [y];
    ApplyMore(s, x, [y] + [z]);
    ApplyMore(s, x, [y]);
    ApplyMore(Store(s, x), y, [z]);
    ApplyOne(Store(s, x), y);
    ApplyOne(Store(Store(s, x), y), z);
  }

  // ---------------------------------------------------------------- parameters

  lemma OutgoingInStores(w: seq<byte>, d: Diffs)
    requires |w| >= 4
    ensures Apply(w, ParamWritesIn(OUTGOING_SSN_RESET, 0, |w|, d)) ==
              Memory(ShiftIf(ShiftIf(ShiftIf(w, 8, 4, d.remote), 12, 8, d.local), 16, 12, d.remote), Finished)
  {
    hide Apply, Shift;
    var n := |w|;
    var x, y, z := AddTo(4, d.remote), AddTo(8, d.local), AddTo(12, d.remote);
    var ws := ParamWritesIn(OUTGOING_SSN_RESET, 0, n, d);
    assert ws == if n >= 16 then [x, y, z] else if n >= 12 then [x, y] else if n >= 8 then [x] else [];
    hide ParamWritesIn;
    if n >= 16 { ApplyThree(w, x, y, z); }
    else if n >= 12 { ApplyThree(w, x, y, x); }
    else if n >= 8 { ApplyOne(w, x); }
    else { ApplyNone(w); }
  }

  lemma ResponseInStores(w: seq<byte>, d: Diffs)
    requires |w| >= 20 || 8 <= |w| < 16
    ensures var x := Shift(w, 4, d.local);
            Apply(w, ParamWritesIn(RECONFIG_RESPONSE, 0, |w|, d)) ==
              Memory(if |w| >= 20 then Shift(Shift(x, 16, d.local), 12, d.remote) else x, Finished)
  {
    hide Apply, Shift;
    var n := |w|;
    var x, y, z := AddTo(4, d.local), AddTo(16, d.local), AddTo(12, d.remote);
    assert ParamWritesIn(RECONFIG_RESPONSE, 0, n, d) == if n >= 20 then [x, y, z] else [x];
    hide ParamWritesIn;
    if n >= 20 { ApplyThree(w, x, y, z); } else { ApplyOne(w, x); }
  }

  lemma RequestInStores(w: seq<byte>, kind: u16, d: Diffs)
    requires |w| >= 4 && IsRequest(kind)
    ensures Apply(w, ParamWritesIn(kind, 0, |w|, d)) == Memory(ShiftIf(w, 8, 4, d.remote), Finished)
  {
    hide Apply, Shift;
    if |w| >= 8 { ApplyOne(w, AddTo(4, d.remote)); } else { ApplyNone(w); }
  }

  lemma InsideFits(ws: seq<Write>, n: nat)
    requires AllInside(ws, 0, n)
    ensures AllFit(ws, n)
  {
  }

  lemma ParamInStores(w: seq<byte>, d: Diffs)
    requires ParamSafeIn(w)
    ensures AllFit(ParamWritesIn(Be16(w, 0), 0, |w|, d), |w|)
    ensures Apply(w, ParamWritesIn(Be16(w, 0), 0, |w|, d)) == Memory(ParamIn(w, d), Finished)
  {
    hide Apply, Shift, ShiftIf, Be16, AllFit, AllInside, Regular;
    var kind := Be16(w, 0);
    ParamWritesInAre(kind, 0, |w|, d);
    InsideFits(ParamWritesIn(kind, 0, |w|, d), |w|);
    if kind == OUTGOING_SSN_RESET {
      hide ParamWritesIn;
      OutgoingInStores(w, d);
    } else if IsRequest(kind) {
      hide ParamWritesIn;
      RequestInStores(w, kind, d);
    } else if kind == RECONFIG_RESPONSE {
      hide ParamWritesIn;
      ResponseInStores(w, d);
    } else {
      ApplyNone(w);
    }
  }

  lemma ResponseOutStores(w: seq<byte>, d: Diffs)
    requires |w| >= 8
    ensures var x := Shift(w, 4, d.remote);
            Apply(w, ParamWritesOut(RECONFIG_RESPONSE, 0, |w|, d)) ==
              Memory(if |w| == 20 then Shift(Shift(x, 16, d.remote), 12, d.local) else x, Finished)
  {
    hide Apply, Shift;
    var n := |w|;
    var x, y, z := AddTo(4, d.remote), AddTo(16, d.remote), AddTo(12, d.local);
    assert ParamWritesOut(RECONFIG_RESPONSE, 0, n, d) == if n == 20 then [x, y, z] else [x];
    hide ParamWritesOut;
    if n == 20 { ApplyThree(w, x, y, z); } else { ApplyOne(w, x); }
  }

  lemma OutgoingOutStores(w: seq<byte>, d: Diffs)
    requires |w| >= 16
    ensures Apply(w, ParamWritesOut(OUTGOING_SSN_RESET, 0, |w|, d)) ==
              Memory(Shift(Shift(Shift(w, 4, d.local), 8, d.remote), 12, d.local), Finished)
  {
    hide Apply, Shift;
    ApplyThree(w, AddTo(4, d.local), AddTo(8, d.remote), AddTo(12, d.local));
  }

  lemma ParamOutStores(w: seq<byte>, d: Diffs)
    requires ParamSafeOut(w)
    ensures AllFit(ParamWritesOut(Be16(w, 0), 0, |w|, d), |w|)
    ensures Apply(w, ParamWritesOut(Be16(w, 0), 0, |w|, d)) == Memory(ParamOut(w, d), Finished)
  {
    hide Apply, Shift, Be16, AllFit, AllInside, Regular;
    var kind := Be16(w, 0);
    ParamWritesOutAre(kind, 0, |w|, d);
    InsideFits(ParamWritesOut(kind, 0, |w|, d), |w|);
    if kind == OUTGOING_SSN_RESET {
      hide ParamWritesOut;
      OutgoingOutStores(w, d);
    } else if kind == RECONFIG_RESPONSE {
      hide ParamWritesOut;
      ResponseOutStores(w, d);
    } else if IsRequest(kind) {
      ApplyOne(w, AddTo(4, d.local));
    } else {
      ApplyNone(w);
    }
  }

  lemma ParamWritesMoved(kind: u16, p: nat, n: nat, d: Diffs)
    ensures ParamWritesIn(kind, p, n, d) == Moved(ParamWritesIn(kind, 0, n, d), p)
    ensures ParamWritesOut(kind, p, n, d) == Moved(ParamWritesOut(kind, 0, n, d), p)
  {
  }

  /** The header of an item is that of its window. */
  lemma WindowHeader(s: seq<byte>, p: nat, n: nat)
    requires 4 <= n && p + n <= |s|
    ensures Be16(s[p..p + n], 0) == Be16(s, p) && Be16(s[p..p + n], 2) == Be16(s, p + 2) && s[p..p + n][0] == s[p]
  {
  }

  lemma ParamInWindow(s: seq<byte>, p: nat, n: nat, d: Diffs)
    requires 4 <= n && p + n <= |s| && ParamSafeIn(s[p..p + n])
    ensures Apply(s, ParamWritesIn(Be16(s, p), p, n, d)) == Memory(Splice(s, p, ParamIn(s[p..p + n], d)), Finished)
  {
    hide *;
    WindowHeader(s, p, n);
    var kind := Be16(s, p);
    ParamWritesMoved(kind, p, n, d);
    ParamInStores(s[p..p + n], d);
    ApplyWindow(s, p, n, ParamWritesIn(kind, 0, n, d));
  }

  lemma ParamOutWindow(s: seq<byte>, p: nat, n: nat, d: Diffs)
    requires 4 <= n && p + n <= |s| && ParamSafeOut(s[p..p + n])
    ensures Apply(s, ParamWritesOut(Be16(s, p), p, n, d)) == Memory(Splice(s, p, ParamOut(s[p..p + n], d)), Finished)
  {
    hide *;
    WindowHeader(s, p, n);
    var kind := Be16(s, p);
    ParamWritesMoved(kind, p, n, d);
    ParamOutStores(s[p..p + n], d);
    ApplyWindow(s, p, n, ParamWritesOut(kind, 0, n, d));
  }

  // ---------------------------------------------------------------- lists

  /** Mapping the first item and then the rest is mapping the list. */
  lemma SpliceSteps(s: seq<byte>, p: nat, v: seq<byte>, x: seq<byte>, m: nat, y: seq<byte>)
    requires p + |v| <= |s| && s[p..p + |v|] == v && |x| <= m <= |v| && |y| == |v| - m
    ensures Splice(s, p, x)[p + m..p + |v|] == v[m..]
    ensures Splice(Splice(s, p, x), p + m, y) == Splice(s, p, x + v[|x|..m] + y)
  {
    hide Splice;
    var t, z := Splice(s, p, x), x + v[|x|..m] + y;
    var u, w := Splice(t, p + m, y), Splice(s, p, z);
    forall k | 0 <= k < |s|
      ensures u[k] == w[k]
    {
      if p <= k < p + |v| {
        assert s[k] == v[k - p];
        SpliceAt(s, p, z, k - p);
        if k < p + |x| { SpliceAt(s, p, x, k - p); } else if k >= p + m { SpliceAt(t, p + m, y, k - p - m); }
      }
    }
    forall k | m <= k < |v|
      ensures t[p + k] == v[k]
    {
      assert s[p + k] == v[k];
    }
  }

  lemma SpliceAt(s: seq<byte>, p: nat, x: seq<byte>, k: nat)
    requires p + |x| <= |s| && k < |x|
    ensures Splice(s, p, x)[p + k] == x[k]
  {
  }

  lemma FirstOf(s: seq<byte>, p: nat, e: nat)
    requires p <= e <= |s|
    ensures Stops(s[p..e]) <==> p + 4 > e || p + Be16(s, p + 2) > e
    ensures !Stops(s[p..e]) ==> Length(s[p..e]) == Be16(s, p + 2) && s[p..e][..Be16(s, p + 2)] == s[p..p + Be16(s, p + 2)]
    ensures !Stops(s[p..e]) ==> Be16(s[p..e], 0) == Be16(s, p) && s[p..e][0] == s[p]
    ensures Whole(s[p..e]) ==> SctpIterator.After(p, Be16(s, p + 2), e) == p + Next(s[p..e])
  {
    var v := s[p..e];
    if p + 4 <= e { assert Be16(v, 2) == Be16(s, p + 2); }
  }

  lemma StopsUnchanged(s: seq<byte>, p: nat, e: nat)
    requires p <= e <= |s|
    ensures Splice(s, p, s[p..e]) == s
  {
    SpliceWhole(s, p, e - p);
  }

  lemma {:induction false} RawParamsInIs(s: seq<byte>, p: nat, e: nat, d: Diffs)
    requires p <= e <= |s| && ParamsSafeIn(s[p..e])
    ensures RawParams(s, p, e, d, true) == Memory(Splice(s, p, ParamsIn(s[p..e], d)), Finished)
    decreases e - p
  {
    hide Apply, Splice, ParamIn, ParamSafeIn, ParamWritesIn, Be16, Next, Length;
    var v := s[p..e];
    FirstOf(s, p, e);
    if Stops(v) {
      StopsUnchanged(s, p, e);
    } else {
      var n, m := Length(v), Next(v);
      ParamInWindow(s, p, n, d);
      var x, y := ParamIn(v[..n], d), ParamsIn(v[m..], d);
      SpliceSteps(s, p, v, x, m, y);
      RawParamsInIs(Splice(s, p, x), p + m, e, d);
    }
  }

  lemma {:induction false} RawParamsOutIs(s: seq<byte>, p: nat, e: nat, d: Diffs)
    requires p <= e <= |s| && ParamsSafeOut(s[p..e])
    ensures var r := ParamsOut(s[p..e], d);
            RawParams(s, p, e, d, false) == Memory(Splice(s, p, r.bytes), if r.ok then Finished else Failed)
    decreases e - p
  {
    hide Apply, Splice, ParamOut, ParamSafeOut, ParamWritesOut, Be16, Next, Length;
    var v := s[p..e];
    FirstOf(s, p, e);
    if Stops(v) {
      StopsUnchanged(s, p, e);
    } else {
      var n, m := Length(v), Next(v);
      ParamOutWindow(s, p, n, d);
      var x, rest := ParamOut(v[..n], d), ParamsOut(v[m..], d);
      SpliceSteps(s, p, v, x, m, rest.bytes);
      RawParamsOutIs(Splice(s, p, x), p + m, e, d);
    }
  }

  // ---------------------------------------------------------------- chunks

  lemma {:induction false} RunStores(s: seq<byte>, at: nat, n: nat, d: u32)
    requires n == 0 || at + 4 * n <= |s|
    ensures Apply(s, RunWrites(at, n, d)) == Memory(ShiftRun(s, at, n, d), Finished)
    decreases n
  {
    hide Apply, Shift;
    if n == 0 {
      ApplyNone(s);
    } else {
      ApplyMore(s, AddTo(at, d), RunWrites(at + 4, n - 1, d));
      RunStores(Shift(s, at, d), at + 4, n - 1, d);
    }
  }

  /** Replacing a tag by itself. */
  lemma SameTag(c: seq<byte>, at: nat, v: u32)
    requires at + 4 <= |c| && Be32(c, at) == v
    ensures Store(c, Put(at, v)) == c
  {
    Be32OfBytes(c, at);
    SpliceWhole(c, at, 4);
  }

  /** The tag of an INIT is read before or after its TSN is mapped. */
  lemma InitStores(c: seq<byte>, d: u32, m: Mapping)
    requires |c| >= 20
    ensures Apply(c, [AddTo(16, d)] + WriteIf(Field32(c, 4) == m.tagFrom, Put(4, m.tagTo))) ==
              Memory(Retag(Shift(c, 16, d), m), Finished)
  {
    hide Apply, Shift, Be32;
    var t := Shift(c, 16, d);
    ApplyMore(c, AddTo(16, d), WriteIf(Field32(c, 4) == m.tagFrom, Put(4, m.tagTo)));
    SameField(c, t);
    if Field32(c, 4) == m.tagFrom {
      ApplyOne(t, Put(4, m.tagTo));
    } else {
      ApplyNone(t);
      SameTag(t, 4, Be32(t, 4));
    }
  }

  lemma SameField(c: seq<byte>, t: seq<byte>)
    requires |c| == |t| >= 20 && forall k :: 0 <= k < 16 ==> c[k] == t[k]
    ensures Be32(c, 4) == Be32(t, 4)
  {
  }

  /** The TSN of a SACK and its duplicates. */
  lemma SackStores(c: seq<byte>, d: u32)
    requires |c| >= 16 && IsSack(c[0])
    ensures Apply(c, [AddTo(4, d)] + []) == Memory(Shift(c, 4, d), Finished)
    ensures DuplicatesFit(c) ==>
              Apply(c, [AddTo(4, d)] + RunWrites(DupStart(c, 0, c[0]), DupCount(c, 0, c[0]), d)) ==
                Memory(ShiftDuplicates(Shift(c, 4, d), c, d), Finished)
  {
    hide Apply, Shift, ShiftRun, RunWrites, DupStart, DupCount;
    ApplyOne(c, AddTo(4, d));
    assert [AddTo(4, d)] + [] == [AddTo(4, d)];
    if DuplicatesFit(c) {
      ApplyMore(c, AddTo(4, d), RunWrites(DupStart(c, 0, c[0]), DupCount(c, 0, c[0]), d));
      RunStores(Shift(c, 4, d), DupStart(c, 0, c[0]), DupCount(c, 0, c[0]), d);
    }
  }

  lemma NoInit(s: seq<byte>, p: nat, n: nat, m: Mapping)
    ensures var test := Field32(s, p + 4) == m.tagFrom;
            WriteIf(n >= 20, AddTo(p + 16, m.d.remote)) + WriteIf(n >= 20 && test, Put(p + 4, m.tagTo)) ==
              if n >= 20 then [AddTo(p + 16, m.d.remote)] + WriteIf(test, Put(p + 4, m.tagTo)) else []
  {
  }

  lemma ChunkInStores(c: seq<byte>, m: Mapping)
    requires ChunkSafeIn(c) && c[0] != RECONFIG
    ensures Apply(c, ChunkWritesIn(c, 0, |c|, m)) == Memory(ChunkIn(c, m), Finished)
  {
    hide Apply, Shift, Retag, ShiftDuplicates, DuplicatesFit, Counted, RunWrites, DupStart, DupCount, Field16, Field32;
    var kind := c[0];
    ApplyNone(c);
    if IsSack(kind) {
      if |c| >= SackHeader(kind) { SackStores(c, m.d.local); }
    } else if IsInit(kind) {
      NoInit(c, 0, |c|, m);
      if |c| >= 20 { InitStores(c, m.d.remote, m); }
    } else if HasPlainTsn(kind) && |c| >= MinimumIn(kind) {
      ApplyOne(c, AddTo(4, if CarriesOwnTsn(kind) then m.d.remote else m.d.local));
    }
  }

  lemma ChunkOutStores(c: seq<byte>, m: Mapping, little: bool)
    requires ChunkSafeOut(c, little) && c[0] != RECONFIG
    ensures Memory(ChunkOut(c, m, little).bytes, Finished) == Apply(c, ChunkWritesOut(c, 0, m)) && ChunkOut(c, m, little).ok
  {
    hide Apply, Shift, Retag, ShiftDuplicates, DuplicatesFit, RunWrites, DupStart, DupCount, Field16, Field32;
    var kind := c[0];
    ApplyNone(c);
    if IsSack(kind) {
      SackStores(c, m.d.remote);
    } else if IsInit(kind) {
      InitStores(c, m.d.local, m);
    } else if HasPlainTsn(kind) {
      ApplyOne(c, AddTo(4, if CarriesOwnTsn(kind) then m.d.local else m.d.remote));
    }
  }

  /** A field of a chunk is that of its window. */
  lemma WindowFields(s: seq<byte>, p: nat, n: nat, k: nat)
    requires p + n <= |s|
    ensures k + 2 <= n ==> Field16(s, p + k) == Field16(s[p..p + n], k)
    ensures k + 4 <= n ==> Field32(s, p + k) == Field32(s[p..p + n], k)
  {
  }

  lemma RunMoved(at: nat, n: nat, d: u32, p: nat)
    ensures RunWrites(p + at, n, d) == Moved(RunWrites(at, n, d), p)
  {
  }

  lemma MovedConcat(x: seq<Write>, y: seq<Write>, p: nat)
    ensures Moved(x + y, p) == Moved(x, p) + Moved(y, p)
  {
  }

  lemma MovedOne(x: Write, test: bool, p: nat)
    ensures Moved([x], p) == [x.(at := x.at + p)] && Moved([], p) == []
    ensures Moved(WriteIf(test, x), p) == WriteIf(test, x.(at := x.at + p))
  {
  }

  lemma SackMoved(s: seq<byte>, p: nat, n: nat, kind: byte, d: u32)
    requires p + n <= |s| && n >= SackHeader(kind)
    ensures var c := s[p..p + n];
            && DupCount(c, 0, kind) == DupCount(s, p, kind) && Counted(c, 0, n, kind) == Counted(s, p, n, kind)
            && RunWrites(DupStart(s, p, kind), DupCount(s, p, kind), d) ==
                 Moved(RunWrites(DupStart(c, 0, kind), DupCount(c, 0, kind), d), p)
  {
    hide RunWrites, Moved, Field16;
    WindowFields(s, p, n, 12);
    WindowFields(s, p, n, 14);
    WindowFields(s, p, n, 16);
    RunMoved(DupStart(s[p..p + n], 0, kind), DupCount(s, p, kind), d, p);
  }

  lemma ChunkWritesInMoved(s: seq<byte>, p: nat, n: nat, m: Mapping)
    requires 4 <= n && p + n <= |s|
    ensures ChunkWritesIn(s, p, n, m) == Moved(ChunkWritesIn(s[p..p + n], 0, n, m), p)
  {
    hide Moved, RunWrites, DupStart, DupCount, Counted, Field16, Field32, WriteIf, CarriesOwnTsn, MinimumIn;
    WindowHeader(s, p, n);
    var c, kind := s[p..p + n], s[p];
    if HasPlainTsn(kind) {
      MovedOne(AddTo(4, if CarriesOwnTsn(kind) then m.d.remote else m.d.local), n >= MinimumIn(kind), p);
    } else if IsInit(kind) {
      WindowFields(s, p, n, 4);
      NoWrites(n >= 20, Field32(s, p + 4) == m.tagFrom, Field32(c, 4) == m.tagFrom, Put(p + 4, m.tagTo));
      MovedOne(AddTo(16, m.d.remote), n >= 20, p);
      MovedOne(Put(4, m.tagTo), n >= 20 && Field32(c, 4) == m.tagFrom, p);
      MovedConcat(WriteIf(n >= 20, AddTo(16, m.d.remote)),
                  WriteIf(n >= 20 && Field32(c, 4) == m.tagFrom, Put(4, m.tagTo)), p);
    } else if IsSack(kind) && n >= SackHeader(kind) {
      SackMoved(s, p, n, kind, m.d.local);
      MovedOne(AddTo(4, m.d.local), true, p);
      MovedConcat([AddTo(4, m.d.local)], RunWrites(DupStart(c, 0, kind), DupCount(c, 0, kind), m.d.local), p);
      MovedConcat([AddTo(4, m.d.local)], [], p);
    } else {
      MovedOne(AddTo(0, 0), true, p);
    }
  }

  lemma NoWrites(test: bool, x: bool, y: bool, w: Write)
    requires test ==> x == y
    ensures WriteIf(test && x, w) == WriteIf(test && y, w)
  {
  }

  lemma ChunkWritesOutMoved(s: seq<byte>, p: nat, n: nat, m: Mapping, little: bool)
    requires 4 <= n && p + n <= |s| && ChunkSafeOut(s[p..p + n], little)
    ensures ChunkWritesOut(s, p, m) == Moved(ChunkWritesOut(s[p..p + n], 0, m), p)
  {
    hide Moved, RunWrites, DupStart, DupCount, Field16, Field32, WriteIf, CarriesOwnTsn;
    WindowHeader(s, p, n);
    var c, kind := s[p..p + n], s[p];
    if HasPlainTsn(kind) {
      MovedOne(AddTo(4, if CarriesOwnTsn(kind) then m.d.local else m.d.remote), true, p);
    } else if IsInit(kind) {
      WindowFields(s, p, n, 4);
      MovedOne(AddTo(16, m.d.local), true, p);
      MovedOne(Put(4, m.tagTo), Field32(c, 4) == m.tagFrom, p);
      MovedConcat([AddTo(16, m.d.local)], WriteIf(Field32(c, 4) == m.tagFrom, Put(4, m.tagTo)), p);
    } else if IsSack(kind) {
      SackMoved(s, p, n, kind, m.d.remote);
      MovedOne(AddTo(4, m.d.remote), true, p);
      MovedConcat([AddTo(4, m.d.remote)], RunWrites(DupStart(c, 0, kind), DupCount(c, 0, kind), m.d.remote), p);
    } else {
      MovedOne(AddTo(0, 0), true, p);
    }
  }

  /** Mapping the parameters maps the chunk around them. */
  lemma InsideChunk(s: seq<byte>, p: nat, n: nat, v: seq<byte>)
    requires 4 <= n && p + n <= |s| && |v| == n - 4
    ensures s[p + 4..p + n] == s[p..p + n][4..]
    ensures Splice(s, p + 4, v) == Splice(s, p, s[p..p + n][..4] + v)
  {
  }

  lemma PlainInWindow(s: seq<byte>, p: nat, n: u16, m: Mapping)
    requires 4 <= n && p + n <= |s| && ChunkSafeIn(s[p..p + n])
    requires s[p] != RECONFIG && s[p..p + n][0] == s[p]
    ensures Apply(s, ChunkWritesIn(s, p, n, m)) == Memory(Splice(s, p, ChunkIn(s[p..p + n], m)), Finished)
  {
    hide *;
    var c := s[p..p + n];
    ChunkWritesInMoved(s, p, n, m);
    ChunkWritesInInside(c, 0, n, m);
    SafeInIff(c);
    InsideFits(ChunkWritesIn(c, 0, n, m), n);
    ApplyWindow(s, p, n, ChunkWritesIn(c, 0, n, m));
    ChunkInStores(c, m);
  }

  /** A chunk can be mapped by itself exactly when nothing outside it is written. */
  lemma SafeInIff(c: seq<byte>)
    requires |c| >= 4 && c[0] != RECONFIG
    ensures ChunkSafeIn(c) <==> ChunkInsideIn(c, 0, |c|)
  {
    hide Field16;
  }

  lemma ReconfigInWindow(s: seq<byte>, p: nat, n: u16, d: Diffs)
    requires 8 <= n && p + n <= |s| && ParamsSafeIn(s[p..p + n][4..])
    ensures RawParams(s, p + 4, p + n, d, true) ==
              Memory(Splice(s, p, s[p..p + n][..4] + ParamsIn(s[p..p + n][4..], d)), Finished)
  {
    hide *;
    InsideChunk(s, p, n, ParamsIn(s[p..p + n][4..], d));
    RawParamsInIs(s, p + 4, p + n, d);
  }

  lemma ChunkInWindow(s: seq<byte>, p: nat, n: u16, m: Mapping, little: bool)
    requires 4 <= n && p + n <= |s| && ChunkSafeIn(s[p..p + n])
    ensures RawChunk(s, p, n, m, true, little) == Memory(Splice(s, p, ChunkIn(s[p..p + n], m)), Finished)
  {
    hide Apply, Splice, ChunkWritesIn, ParamsIn, ParamsSafeIn, RawParams, ShiftRun, Shift, ShiftIf, Be16;
    WindowHeader(s, p, n);
    if s[p] == RECONFIG {
      if n >= 8 {
        assert p + 4 + (n as int - 4) % 0x1_0000 == p + n;
        ReconfigInWindow(s, p, n, m.d);
      } else {
        SpliceWhole(s, p, n);
      }
    } else {
      PlainInWindow(s, p, n, m);
    }
  }

  lemma SafeOutIff(c: seq<byte>, little: bool)
    requires |c| >= 4 && c[0] != RECONFIG
    ensures ChunkSafeOut(c, little) <==> CountsReadable(c, 0) && ChunkInsideOut(c, 0, |c|)
  {
    hide Field16, DupStart, DupCount;
  }

  lemma PlainOutWindow(s: seq<byte>, p: nat, n: u16, m: Mapping, little: bool)
    requires 4 <= n && p + n <= |s| && ChunkSafeOut(s[p..p + n], little)
    requires s[p] != RECONFIG && s[p..p + n][0] == s[p]
    ensures var r := ChunkOut(s[p..p + n], m, little);
            r.ok && Apply(s, ChunkWritesOut(s, p, m)) == Memory(Splice(s, p, r.bytes), Finished)
  {
    hide *;
    var c := s[p..p + n];
    SafeOutIff(c, little);
    ChunkWritesOutMoved(s, p, n, m, little);
    ChunkWritesOutInside(c, 0, n, m);
    InsideFits(ChunkWritesOut(c, 0, m), n);
    ApplyWindow(s, p, n, ChunkWritesOut(c, 0, m));
    ChunkOutStores(c, m, little);
  }

  lemma ReconfigOutWindow(s: seq<byte>, p: nat, n: u16, d: Diffs)
    requires 4 <= n && p + n <= |s| && ParamsSafeOut(s[p..p + n][4..])
    ensures var r := ParamsOut(s[p..p + n][4..], d);
            RawParams(s, p + 4, p + n, d, false) ==
              Memory(Splice(s, p, s[p..p + n][..4] + r.bytes), if r.ok then Finished else Failed)
  {
    hide *;
    InsideChunk(s, p, n, ParamsOut(s[p..p + n][4..], d).bytes);
    RawParamsOutIs(s, p + 4, p + n, d);
  }

  lemma CountsInside(s: seq<byte>, p: nat, n: nat)
    requires 4 <= n && p + n <= |s| && s[p..p + n][0] == s[p] && CountsReadable(s[p..p + n], 0)
    ensures CountsReadable(s, p)
  {
  }

  lemma RawReconfigOut(s: seq<byte>, p: nat, n: u16, m: Mapping, little: bool)
    requires 4 <= n && p < |s| && s[p] == RECONFIG
    ensures RawChunk(s, p, n, m, false, little) ==
              if Raw(n, little) > 4 then RawParams(s, p + 4, p + n, m.d, false) else Memory(s, Finished)
  {
    hide RawParams, Raw;
    assert p + 4 + (n as int - 4) % 0x1_0000 == p + n;
  }

  lemma RawPlainOut(s: seq<byte>, p: nat, n: u16, m: Mapping, little: bool)
    requires p < |s| && s[p] != RECONFIG && CountsReadable(s, p)
    ensures RawChunk(s, p, n, m, false, little) == Apply(s, ChunkWritesOut(s, p, m))
  {
    hide Apply, ChunkWritesOut, CountsReadable;
  }

  lemma ReconfigOut(c: seq<byte>, m: Mapping, little: bool)
    requires ChunkSafeOut(c, little) && c[0] == RECONFIG
    ensures Raw(Length(c), little) > 4 ==> ParamsSafeOut(c[4..])
    ensures ChunkOut(c, m, little) ==
              if Raw(Length(c), little) > 4 then Mapped(c[..4] + ParamsOut(c[4..], m.d).bytes, ParamsOut(c[4..], m.d).ok) else Mapped(c, true)
  {
    hide ParamsOut, ParamsSafeOut, Raw, Length;
  }

  lemma ChunkOutWindow(s: seq<byte>, p: nat, n: u16, m: Mapping, little: bool)
    requires 4 <= n && p + n <= |s| && ChunkSafeOut(s[p..p + n], little) && Length(s[p..p + n]) == n
    ensures var r := ChunkOut(s[p..p + n], m, little);
            RawChunk(s, p, n, m, false, little) == Memory(Splice(s, p, r.bytes), if r.ok then Finished else Failed)
  {
    hide *;
    WindowHeader(s, p, n);
    var c := s[p..p + n];
    if s[p] == RECONFIG {
      RawReconfigOut(s, p, n, m, little);
      ReconfigOut(c, m, little);
      if Raw(n, little) > 4 { ReconfigOutWindow(s, p, n, m.d); } else { SpliceWhole(s, p, n); }
    } else {
      SafeOutIff(c, little);
      CountsInside(s, p, n);
      RawPlainOut(s, p, n, m, little);
      PlainOutWindow(s, p, n, m, little);
    }
  }

  // ---------------------------------------------------------------- packets

  /** Inbound: where no item is written outside, the memory after the loop holds the packet
      mapped item by item, and nothing else has changed. */
  lemma {:induction false} RawIsMapIn(s: seq<byte>, p: nat, e: nat, m: Mapping, little: bool)
    requires p <= e <= |s| && SafeIn(s[p..e])
    ensures RawPacket(s, p, e, m, true, little) == Memory(Splice(s, p, MapIn(s[p..e], m)), Finished)
    decreases e - p
  {
    hide RawChunk, Splice, ChunkIn, ChunkSafeIn, Be16, Next, Length;
    var v := s[p..e];
    FirstOf(s, p, e);
    if Stops(v) {
      StopsUnchanged(s, p, e);
    } else {
      var n, k := Length(v), Next(v);
      ChunkInWindow(s, p, n, m, little);
      var x, y := ChunkIn(v[..n], m), MapIn(v[k..], m);
      SpliceSteps(s, p, v, x, k, y);
      RawIsMapIn(Splice(s, p, x), p + k, e, m, little);
    }
  }

  lemma LengthOf(r: seq<byte>)
    requires Whole(r)
    ensures Length(r[..Length(r)]) == Length(r)
  {
  }

  /** A failed chunk ends the walk. */
  lemma SpliceFailed(s: seq<byte>, p: nat, v: seq<byte>, x: seq<byte>)
    requires p + |v| <= |s| && s[p..p + |v|] == v && |x| <= |v|
    ensures Splice(s, p, x) == Splice(s, p, x + v[|x|..])
  {
    assert forall k :: p + |x| <= k < p + |v| ==> s[k] == v[k - p];
  }

  lemma MapOutUnfold(v: seq<byte>, m: Mapping, little: bool)
    requires SafeOut(v, little) && !Stops(v)
    ensures Whole(v) && ChunkSafeOut(v[..Length(v)], little) && SafeOut(v[Next(v)..], little)
    ensures var c, rest := ChunkOut(v[..Length(v)], m, little), MapOut(v[Next(v)..], m, little);
            MapOut(v, m, little) ==
              if c.ok then Mapped(c.bytes + v[Length(v)..Next(v)] + rest.bytes, rest.ok)
              else Mapped(c.bytes + v[Length(v)..], false)
  {
    hide ChunkOut, ChunkSafeOut, Next, Length;
  }

  lemma MapOutStops(v: seq<byte>, m: Mapping, little: bool)
    requires SafeOut(v, little) && Stops(v)
    ensures MapOut(v, m, little) == Mapped(v, v == [])
  {
  }

  /** Outbound: where every chunk and parameter is long enough for the fields of its kind. */
  lemma {:induction false} RawIsMapOut(s: seq<byte>, p: nat, e: nat, m: Mapping, little: bool)
    requires p <= e <= |s| && SafeOut(s[p..e], little)
    ensures var r := MapOut(s[p..e], m, little);
            RawPacket(s, p, e, m, false, little) == Memory(Splice(s, p, r.bytes), if r.ok then Finished else Failed)
    decreases e - p
  {
    hide RawChunk, Splice, ChunkOut, ChunkSafeOut, Be16, Next, Length, MapOut, SafeOut;
    var v := s[p..e];
    FirstOf(s, p, e);
    if Stops(v) {
      MapOutStops(v, m, little);
      StopsUnchanged(s, p, e);
    } else {
      MapOutUnfold(v, m, little);
      var n, k := Length(v), Next(v);
      LengthOf(v);
      ChunkOutWindow(s, p, n, m, little);
      var x := ChunkOut(v[..n], m, little);
      if x.ok {
        SpliceSteps(s, p, v, x.bytes, k, MapOut(v[k..], m, little).bytes);
        RawIsMapOut(Splice(s, p, x.bytes), p + k, e, m, little);
      } else {
        SpliceFailed(s, p, v, x.bytes);
      }
    }
  }
}
