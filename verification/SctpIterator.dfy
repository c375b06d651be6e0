/**
 The iterators over SCTP chunks, parameters and error causes. All three walk items of the same
 shape: two bytes of type, the length in two bytes, the value, and padding to a multiple of
 four bytes (section 3.2 of RFC 4960) that may be missing at the end.
 */
module SctpIterator {
  import opened Bytes

  /** An item: its first two bytes and its value. */
  datatype Item = Item(tag: seq<byte>, value: seq<byte>)

  const HEADER_BYTES: nat := 4

  function Padding(length: nat): nat {
    if length % 4 > 0 then 4 - length % 4 else 0
  }

  /** Padding leads to the least multiple of four that holds the item. */
  lemma PaddingIs(length: nat)
    ensures Padding(length) < 4 && (length + Padding(length)) % 4 == 0
    ensures length + Padding(length) == (length + 3) / 4 * 4
  {
  }

  /** Where the walk goes on behind an item; padding that does not fit is skipped. */
  function After(p: nat, length: nat, end: nat): (q: nat)
    requires p + length <= end
    ensures var n := (length + 3) / 4 * 4; q == if p + n > end then end else p + n
  {
    PaddingIs(length);
    if end - (p + length) < Padding(length) then end else p + length + Padding(length)
  }

  /** How a walk ends: at the end of the buffer, at an item that does not fit, or in the
      assertion of the next function on an item shorter than its own header. */
  datatype Ending = AtEnd | TooShort | Partial | Aborts

  datatype Walk = Walk(items: seq<Item>, ending: Ending)

  function ItemAt(s: seq<byte>, p: nat): Item
    requires p + HEADER_BYTES <= |s| && HEADER_BYTES <= Be16(s, p + 2) && p + Be16(s, p + 2) <= |s|
  {
    Item(s[p..p + 2], s[p + 4..p + Be16(s, p + 2)])
  }

  /** The items from p on. */
  function Items(s: seq<byte>, p: nat, end: nat): Walk
    requires p <= end <= |s|
    decreases end - p
  {
    if p == end then Walk([], AtEnd)
    else if p + HEADER_BYTES > end then Walk([], TooShort)
    else
      var length := Be16(s, p + 2);
      if p + length > end then Walk([], Partial)
      else if length < HEADER_BYTES then Walk([], Aborts)
      else
        var rest := Items(s, After(p, length, end), end);
        Walk([ItemAt(s, p)] + rest.items, rest.ending)
  }

  // ---------------------------------------------------------------- the iterator

  datatype Pointer = Null | At(offset: nat)

  class Iterator {
    const bytes: seq<byte>
    var current: Pointer
    var end: nat

    constructor (bytes: seq<byte>)
      ensures this.bytes == bytes && current == Null
    {
      this.bytes := bytes;
      current := Null;
      end := 0;
    }

    ghost predicate Valid()
      reads this
    {
      end <= |bytes| && (current.At? ==> current.offset <= end)
    }

    /** get_current_chunk, get_current_parameter and get_current_cause. An item that is
        returned without error lies inside. */
    method GetCurrent() returns (item: Pointer, error: bool)
      requires Valid() && current.At?
      modifies this`current
      ensures Valid() && item == current && (item.At? ==> item == old(current))
      ensures item.Null? <==> old(current).offset == end
      ensures item.Null? ==> !error
      ensures item.At? ==>
                (error <==> item.offset + HEADER_BYTES > end || item.offset + Be16(bytes, item.offset + 2) > end)
    {
      error := false;
      if current.offset == end {
        current := Null;
      } else if current.offset + HEADER_BYTES > end {
        error := true;
      } else {
        var length := Be16(bytes, current.offset + 2);
        if current.offset + length > end {
          error := true;
        }
      }
      item := current;
    }

    /** sctp_chunks_begin, sctp_parameters_begin and sctp_causes_begin. */
    method Begin(begin: nat, end: nat) returns (item: Pointer, error: bool)
      requires begin <= end <= |bytes|
      modifies this
      ensures Valid() && this.end == end && item == current && (item.At? ==> item == At(begin))
      ensures item.Null? <==> begin == end
      ensures item.Null? ==> !error
      ensures item.At? ==> (error <==> begin + HEADER_BYTES > end || begin + Be16(bytes, begin + 2) > end)
    {
      current := At(begin);
      this.end := end;
      item, error := GetCurrent();
    }

    /** sctp_chunks_next, sctp_parameters_next and sctp_causes_next. What is required is what
        the source asserts: no error is pending and the item holds its own header. The cursor
        advances by at least four bytes and does not pass the end. */
    method Next() returns (item: Pointer, error: bool)
      requires Valid() && current.At? && current.offset + HEADER_BYTES <= end
      requires HEADER_BYTES <= Be16(bytes, current.offset + 2) <= end - current.offset
      modifies this`current
      ensures Valid() && item == current
      ensures var p := old(current).offset;
              var n := (Be16(bytes, p + 2) + 3) / 4 * 4;
              var q := if p + n > end then end else p + n;
              && p + HEADER_BYTES <= q <= end
              && (item.Null? <==> q == end)
              && (item.At? ==> item == At(q) && (error <==> q + HEADER_BYTES > end || q + Be16(bytes, q + 2) > end))
      ensures item.Null? ==> !error
    {
      var length := Be16(bytes, current.offset + 2);
      var padding := length % 4;
      if padding > 0 {
        padding := 4 - padding;
      }
      current := At(current.offset + length);
      if end - current.offset < padding {
        current := At(end);
      } else {
        current := At(current.offset + padding);
      }
      item, error := GetCurrent();
    }
  }

  /** The walk at p, unfolded. */
  lemma ItemsStep(s: seq<byte>, p: nat, end: nat)
    requires p <= end <= |s|
    ensures p == end ==> Items(s, p, end) == Walk([], AtEnd)
    ensures p < end < p + HEADER_BYTES ==> Items(s, p, end) == Walk([], TooShort)
    ensures p + HEADER_BYTES <= end < p + Be16(s, p + 2) ==> Items(s, p, end) == Walk([], Partial)
    ensures p + HEADER_BYTES <= end && p + Be16(s, p + 2) <= end && Be16(s, p + 2) < HEADER_BYTES ==>
              Items(s, p, end) == Walk([], Aborts)
    ensures p + HEADER_BYTES <= end && HEADER_BYTES <= Be16(s, p + 2) <= end - p ==>
              var rest := Items(s, After(p, Be16(s, p + 2), end), end);
              Items(s, p, end) == Walk([ItemAt(s, p)] + rest.items, rest.ending)
  {
    hide Be16;
  }

  /** The loop of the iterators' callers. It visits exactly the items of the walk. */
  method Visit(s: seq<byte>, begin: nat, end: nat) returns (walk: Walk)
    requires begin <= end <= |s|
    ensures walk == Items(s, begin, end)
  {
    hide Items, After, Be16, ItemAt;
    var it := new Iterator(s);
    var item, error := it.Begin(begin, end);
    var items: seq<Item> := [];
    ghost var p := begin;
    while item.At? && !error && Be16(s, item.offset + 2) >= HEADER_BYTES
      invariant it.Valid() && it.end == end && it.bytes == s && item == it.current && fresh(it)
      invariant p <= end && (item.Null? <==> p == end) && (item.Null? ==> !error)
      invariant item.At? ==> item.offset == p && (error <==> p + HEADER_BYTES > end || p + Be16(s, p + 2) > end)
      invariant Prefixed(items, Items(s, p, end)) == Items(s, begin, end)
      decreases end - p
    {
      ItemsStep(s, p, end);
      items := items + [ItemAt(s, item.offset)];
      p := After(p, Be16(s, p + 2), end);
      item, error := it.Next();
    }
    ItemsStep(s, p, end);
    walk := Walk(items,
      if item.Null? then AtEnd
      else if !error then Aborts
      else if item.offset + HEADER_BYTES > end then TooShort else Partial);
  }

  function Prefixed(items: seq<Item>, walk: Walk): Walk {
    Walk(items + walk.items, walk.ending)
  }

  // ---------------------------------------------------------------- serialized lists

  predicate WellFormed(item: Item) {
    |item.tag| == 2 && HEADER_BYTES + |item.value| < 0x1_0000
  }

  function Body(item: Item): (r: seq<byte>)
    requires WellFormed(item)
    ensures |r| == HEADER_BYTES + |item.value|
  {
    item.tag + Be16Bytes(HEADER_BYTES + |item.value|) + item.value
  }

  /** What an item takes: the least multiple of four bytes that holds it. */
  function Padded(item: Item): (n: nat)
    ensures HEADER_BYTES + |item.value| <= n
  {
    (4 + |item.value| + 3) / 4 * 4
  }

  /** Items end to end, each padded with zeros; the last one only with `last` of them. */
  function Serialize(items: seq<Item>, last: nat): seq<byte>
    requires forall i :: 0 <= i < |items| ==> WellFormed(items[i])
  {
    if items == [] then []
    else if |items| == 1 then Body(items[0]) + Zeros(last)
    else Body(items[0]) + Zeros(Padded(items[0]) - |Body(items[0])|) + Serialize(items[1..], last)
  }

  lemma BodyRead(s: seq<byte>, p: nat, item: Item)
    requires WellFormed(item) && p + |Body(item)| <= |s| && s[p..p + |Body(item)|] == Body(item)
    ensures Be16(s, p + 2) == |Body(item)| && ItemAt(s, p) == item
  {
    var b := Body(item);
    assert b[..2] == item.tag && b[2..4] == Be16Bytes(|b|) && b[4..] == item.value;
    var w := s[p..p + |b|];
    assert s[p + 2] == w[2] && s[p + 3] == w[3];
    assert s[p + 2] == b[2..4][0] && s[p + 3] == b[2..4][1];
    assert s[p..p + 2] == b[..2];
    assert s[p + 4..p + |b|] == b[4..];
  }

  /** What is behind the first item of a serialized list. */
  lemma SerializedSplit(s: seq<byte>, p: nat, items: seq<Item>, last: nat)
    requires p <= |s| && items != [] && forall i :: 0 <= i < |items| ==> WellFormed(items[i])
    requires last <= Padded(items[|items| - 1]) - |Body(items[|items| - 1])|
    requires s[p..] == Serialize(items, last)
    ensures var n := |Body(items[0])|;
            && p + n <= |s| && s[p..p + n] == Body(items[0]) && p < After(p, n, |s|) <= |s|
            && s[After(p, n, |s|)..] == Serialize(items[1..], last)
  {
    hide Body;
    var b := Body(items[0]);
    PaddingIs(|b|);
    assert s[p..][..|b|] == b;
    if |items| > 1 {
      assert s[p..][Padded(items[0])..] == Serialize(items[1..], last);
    }
  }

  /** Walking a serialized list yields exactly the list and then the end, without error,
      whether the padding of the last item is there, in part or not at all. */
  lemma {:induction false} SerializedWalk(s: seq<byte>, p: nat, items: seq<Item>, last: nat)
    requires p <= |s| && forall i :: 0 <= i < |items| ==> WellFormed(items[i])
    requires items != [] ==> last <= Padded(items[|items| - 1]) - |Body(items[|items| - 1])|
    requires s[p..] == Serialize(items, last)
    ensures Items(s, p, |s|) == Walk(items, AtEnd)
    decreases |items|
  {
    hide Items, Serialize, Body, ItemAt, Be16, Padding, Padded, After;
    ItemsStep(s, p, |s|);
    if items == [] {
      NothingSerialized(s, p, last);
    } else {
      var n := |Body(items[0])|;
      SerializedSplit(s, p, items, last);
      BodyRead(s, p, items[0]);
      SerializedWalk(s, After(p, n, |s|), items[1..], last);
      assert items == [items[0]] + items[1..];
    }
  }

  lemma NothingSerialized(s: seq<byte>, p: nat, last: nat)
    requires p <= |s| && s[p..] == Serialize([], last)
    ensures p == |s|
  {
  }

  /** How many bytes the items take without padding. */
  function BodyBytes(items: seq<Item>): nat {
    if items == [] then 0 else HEADER_BYTES + |items[0].value| + BodyBytes(items[1..])
  }

  /** Every item that a walk yields is complete and has its own bytes of the buffer: together
      they take no more than was walked over. */
  lemma {:induction false} ItemsInside(s: seq<byte>, p: nat, end: nat)
    requires p <= end <= |s|
    ensures BodyBytes(Items(s, p, end).items) <= end - p
    ensures forall i :: 0 <= i < |Items(s, p, end).items| ==> WellFormed(Items(s, p, end).items[i])
    decreases end - p
  {
    ItemsStep(s, p, end);
    if p + HEADER_BYTES <= end && HEADER_BYTES <= Be16(s, p + 2) <= end - p {
      var q := After(p, Be16(s, p + 2), end);
      ItemsInside(s, q, end);
      assert Items(s, p, end).items[1..] == Items(s, q, end).items;
    }
  }

  /** How many bytes the items take with padding. */
  function PaddedBytes(items: seq<Item>): nat {
    if items == [] then 0 else Padded(items[0]) + PaddedBytes(items[1..])
  }

  lemma {:induction false} PaddedAligned(items: seq<Item>)
    ensures PaddedBytes(items) % 4 == 0
    decreases |items|
  {
    if items != [] { PaddedAligned(items[1..]); }
  }

  /** The item is at q, and ends before the end. */
  predicate IsAt(s: seq<byte>, q: nat, end: nat, item: Item) {
    && q + 4 + |item.value| <= end <= |s| && item.tag == s[q..q + 2]
    && Be16(s, q + 2) == 4 + |item.value| && item.value == s[q + 4..q + 4 + |item.value|]
  }

  lemma FirstItem(s: seq<byte>, p: nat, end: nat)
    requires p <= end <= |s| && Items(s, p, end).items != []
    ensures var walk, n := Items(s, p, end), Be16(s, p + 2);
            && IsAt(s, p, end, walk.items[0]) && n == 4 + |walk.items[0].value| && p + n <= end
            && walk.items[1..] == Items(s, After(p, n, end), end).items
  {
    hide After, Be16;
    ItemsStep(s, p, end);
  }

  /** Where the items of a walk are: each one starts a multiple of four bytes behind the first one,
      right behind the padding of the item before it, and ends inside. */
  lemma {:induction false} ItemsPlaced(s: seq<byte>, p: nat, end: nat, k: nat)
    requires p <= end <= |s| && k < |Items(s, p, end).items|
    ensures var items := Items(s, p, end).items;
            var q := p + PaddedBytes(items[..k]);
            (q - p) % 4 == 0 && IsAt(s, q, end, items[k])
    decreases k
  {
    hide Items, Padded, IsAt, Be16;
    FirstItem(s, p, end);
    var items, n := Items(s, p, end).items, Be16(s, p + 2);
    PaddedAligned(items[..k]);
    if k > 0 {
      var q := After(p, n, end);
      NothingAtEnd(s, q, end);
      PaddedIs(items[0]);
      PaddingIs(n);
      ItemsPlaced(s, q, end, k - 1);
      assert items[..k][1..] == items[1..][..k - 1];
    }
  }

  lemma PaddedIs(item: Item)
    ensures Padded(item) == (HEADER_BYTES + |item.value| + 3) / 4 * 4
  {
  }

  lemma NothingAtEnd(s: seq<byte>, p: nat, end: nat)
    requires p <= end <= |s| && Items(s, p, end).items != []
    ensures p < end
  {
  }
}
