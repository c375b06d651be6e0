/**
 The program's own open_memstream: a buffer that grows as it is written to, with a null byte
 behind the data.
 */
module MemStream {
  import opened Bytes
  import opened Arithmetic

  const INITIAL_BUF_SIZE: nat := 1024

  /** The capacity that mem_stream_grow picks. */
  function NewSize(bufSize: nat, neededBytes: nat): nat {
    if neededBytes <= bufSize then bufSize
    else Max(if bufSize == 0 then INITIAL_BUF_SIZE else 2 * bufSize, neededBytes)
  }

  // ---------------------------------------------------------------- how capacities grow

  function Sum(ns: seq<nat>): nat {
    if ns == [] then 0 else Sum(ns[..|ns| - 1]) + ns[|ns| - 1]
  }

  /** The capacity after writes of the given lengths. */
  function Capacity(lengths: seq<nat>): nat {
    if lengths == [] then 0
    else NewSize(Capacity(lengths[..|lengths| - 1]), Sum(lengths) + 1)
  }

  /** The sum of the capacities that were given up on the way: an upper bound of the bytes that
      reallocation has copied. */
  function Abandoned(lengths: seq<nat>): nat {
    if lengths == [] then 0
    else
      var before := lengths[..|lengths| - 1];
      Abandoned(before) + if Capacity(lengths) != Capacity(before) then Capacity(before) else 0
  }

  /** After any non-empty sequence of writes the capacity holds the data and the null byte and
      is at most the initial capacity or twice the data; and the capacities given up on the
      way add up to no more than the current one, so copying is linear in the data. */
  lemma {:induction false} GrowthIsLinear(lengths: seq<nat>)
    ensures lengths != [] ==> Sum(lengths) < Capacity(lengths) <= Max(1024, 2 * Sum(lengths))
    ensures Abandoned(lengths) <= Capacity(lengths)
    decreases |lengths|
  {
    if lengths != [] {
      GrowthIsLinear(lengths[..|lengths| - 1]);
    }
  }

  // ---------------------------------------------------------------- the stream

  class Stream {
    var buf: array<byte>
    var size: nat
    var bufSize: nat
    var offset: nat
    /** The writes so far. */
    ghost var writes: seq<seq<byte>>
    /** The bytes that growing has copied so far. */
    ghost var copied: nat

    ghost predicate Valid()
      reads this, buf
    {
      && bufSize == buf.Length == Capacity(Lengths(writes))
      && offset == size == |Concat(writes)|
      && (writes != [] ==> offset < bufSize && buf[..offset] == Concat(writes) && buf[offset] == 0)
      && copied <= Abandoned(Lengths(writes))
    }

    /** open_memstream. */
    constructor ()
      ensures Valid() && writes == [] && copied == 0 && fresh(buf)
    {
      buf := new byte[0];
      size, bufSize, offset := 0, 0, 0;
      writes, copied := [], 0;
    }

    /** mem_stream_grow. `fails` says whether realloc fails, should it be called. */
    method Grow(writeBytes: nat, fails: bool) returns (ok: bool)
      requires bufSize == buf.Length && offset <= bufSize
      modifies this`buf, this`bufSize, this`copied
      ensures !ok ==> unchanged(this)
      ensures ok ==> bufSize == buf.Length == NewSize(old(bufSize), offset + writeBytes + 1)
      ensures ok ==> buf[..offset] == old(buf[..offset]) && (buf == old(buf) || fresh(buf))
      ensures copied <= old(copied) + if bufSize != old(bufSize) then old(bufSize) else 0
      ensures ok <==> !(fails && offset + writeBytes + 1 > old(bufSize))
    {
      var neededBytes := offset + writeBytes + 1;
      if neededBytes <= bufSize {
        return true;
      }
      var newSize := 0;
      if bufSize == 0 {
        newSize := INITIAL_BUF_SIZE;
      } else {
        newSize := 2 * bufSize;
      }
      if newSize < neededBytes {
        newSize := neededBytes;
      }
      if fails {
        return false;
      }
      var newBuf := new byte[newSize];
      forall k | 0 <= k < bufSize {
        newBuf[k] := buf[k];
      }
      copied := copied + bufSize;
      buf := newBuf;
      bufSize := newSize;
      return true;
    }

    /** write_memstream. */
    method Write(data: seq<byte>, fails: bool) returns (ok: bool)
      requires Valid()
      modifies this, buf
      ensures Valid() && (buf == old(buf) || fresh(buf))
      ensures ok ==> writes == old(writes) + [data]
      ensures !ok ==> unchanged(this) && unchanged(buf)
      ensures ok ==> size == |Concat(writes)| && buf[..size] == Concat(writes) && buf[size] == 0
      ensures !fails ==> ok
    {
      hide Concat, Lengths, Capacity, Abandoned, NewSize;
      NothingYet(writes);
      ok := Grow(|data|, fails);
      if !ok {
        return;
      }
      OneMore(writes, data);
      NeededFits(old(bufSize), offset + |data| + 1);
      Store(data);
      writes := writes + [data];
    }

    /** The copying in write_memstream. */
    method Store(data: seq<byte>)
      requires offset + |data| < buf.Length
      modifies this`offset, this`size, buf
      ensures offset == size == old(offset) + |data|
      ensures buf[..offset] == old(buf[..offset]) + data && buf[offset] == 0
    {
      ghost var before := buf[..offset];
      forall k | 0 <= k < |data| {
        buf[offset + k] := data[k];
      }
      assert buf[..offset] == before && buf[offset..offset + |data|] == data;
      offset := offset + |data|;
      buf[offset] := 0;
      size := offset;
      assert buf[..offset] == before + data;
    }
  }

  lemma NeededFits(bufSize: nat, neededBytes: nat)
    ensures NewSize(bufSize, neededBytes) >= neededBytes
  {
  }

  function Concat(writes: seq<seq<byte>>): seq<byte> {
    if writes == [] then [] else Concat(writes[..|writes| - 1]) + writes[|writes| - 1]
  }

  function Lengths(writes: seq<seq<byte>>): (r: seq<nat>)
    ensures |r| == |writes|
  {
    seq(|writes|, i requires 0 <= i < |writes| => |writes[i]|)
  }

  lemma {:induction false} SumIsLength(writes: seq<seq<byte>>)
    ensures Sum(Lengths(writes)) == |Concat(writes)|
    decreases |writes|
  {
    if writes != [] {
      var init := writes[..|writes| - 1];
      SumIsLength(init);
      assert Lengths(writes)[..|writes| - 1] == Lengths(init);
    }
  }

  lemma NothingYet(writes: seq<seq<byte>>)
    ensures writes == [] ==> Concat(writes) == []
  {
  }

  /** What one more write does to the specification. */
  lemma OneMore(writes: seq<seq<byte>>, data: seq<byte>)
    ensures var more := writes + [data];
            && Concat(more) == Concat(writes) + data
            && Capacity(Lengths(more)) == NewSize(Capacity(Lengths(writes)), |Concat(writes)| + |data| + 1)
            && Abandoned(Lengths(more)) == Abandoned(Lengths(writes)) +
                 (if Capacity(Lengths(more)) != Capacity(Lengths(writes)) then Capacity(Lengths(writes)) else 0)
  {
    hide NewSize;
    var more := writes + [data];
    assert more[..|more| - 1] == writes;
    assert Lengths(more)[..|more| - 1] == Lengths(writes);
    SumIsLength(more);
  }

  /** Any number of writes, the first at least, with room for all of them: the buffer holds what
      was written, a null byte follows, and capacity and copying are linear in it. */
  method WriteAll(writes: seq<seq<byte>>) returns (buf: seq<byte>, size: nat, capacity: nat, ghost copied: nat)
    ensures writes != [] ==> size == |Concat(writes)| < capacity == |buf|
    ensures writes != [] ==> buf[..size] == Concat(writes) && buf[size] == 0
    ensures writes != [] ==> copied <= capacity <= Max(INITIAL_BUF_SIZE, 2 * size)
  {
    hide Concat, Lengths, Capacity, Abandoned;
    var stream := new Stream();
    var i := 0;
    while i < |writes|
      invariant 0 <= i <= |writes| && stream.Valid() && stream.writes == writes[..i] && fresh(stream) && fresh(stream.buf)
    {
      var ok := stream.Write(writes[i], false);
      assert writes[..i + 1] == writes[..i] + [writes[i]];
      i := i + 1;
    }
    assert writes[..i] == writes;
    GrowthIsLinear(Lengths(writes));
    SumIsLength(writes);
    buf, size, capacity, copied := stream.buf[..], stream.size, stream.bufSize, stream.copied;
  }
}
