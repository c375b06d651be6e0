/**
 The growing chained hash map: an array of buckets, each the head of a linked list of nodes.
 Setting a key relinks nodes in place when the map grows.

 The map is specified by the mathematical map from keys to values that it stands for.
 Keys and values are 32-bit words.
 */
module HashMap {
  import opened Bytes
  import opened Arithmetic
  import opened Murmur
  import opened Counting

  // ---------------------------------------------------------------- bucket numbers

  const MAX_BUCKETS: nat := 0x4000_0000

  lemma Pow2Thirty()
    ensures Pow2(30) == MAX_BUCKETS
  {
    assert Pow2(10) == 0x400;
    assert Pow2(20) == 0x10_0000;
  }

  /** The bitwise conjunction of two numbers. */
  function BitAnd(a: nat, b: nat): nat {
    if a == 0 || b == 0 then 0
    else 2 * BitAnd(a / 2, b / 2) + (if a % 2 == 1 && b % 2 == 1 then 1 else 0)
  }

  /** Masking with a power of two less one is the remainder. */
  lemma {:induction false} MaskIsRemainder(a: nat, e: nat)
    ensures BitAnd(a, Pow2(e) - 1) == a % Pow2(e)
    decreases e
  {
    hide BitAnd;
    if e == 0 || a == 0 {
      MaskNothing(a, Pow2(e));
    } else {
      var p := Pow2(e - 1);
      MaskIsRemainder(a / 2, e - 1);
      MaskStep(a, p);
    }
  }

  lemma MaskNothing(a: nat, n: nat)
    requires n > 0 && (a == 0 || n == 1)
    ensures BitAnd(a, n - 1) == 0 == a % n
  {
    if a == 0 { QuotientRemainder(a, n, 0, 0); }
  }

  lemma MaskStep(a: nat, p: nat)
    requires a > 0 && p > 0
    requires BitAnd(a / 2, p - 1) == a / 2 % p
    ensures BitAnd(a, 2 * p - 1) == a % (2 * p)
  {
    var m := 2 * p - 1;
    assert m / 2 == p - 1 && m % 2 == 1;
    RemainderOfHalf(a, p);
  }

  lemma RemainderOfHalf(a: nat, p: nat)
    requires p > 0
    ensures a % (2 * p) == 2 * (a / 2 % p) + a % 2
  {
    var q, r := a / 2 / p, a / 2 % p;
    assert a / 2 == q * p + r;
    var s := 2 * r + a % 2;
    assert a == q * (2 * p) + s && 0 <= s < 2 * p;
    QuotientRemainder(a, 2 * p, q, s);
  }

  lemma QuotientRemainder(a: nat, n: nat, q: nat, s: nat)
    requires a == q * n + s && s < n
    ensures a % n == s
  {
    var d: int := a / n - q;
    assert d * n == s - a % n;
    assert d >= 1 ==> d * n >= n;
    assert d <= -1 ==> d * n + n <= 0;
  }

  /** hash_bucket_num. */
  function BucketOf(key: u32, mask: nat): nat {
    BitAnd(HashKey(key as bv32) as int, mask)
  }

  lemma BucketIsRemainder(key: u32, e: nat)
    ensures BucketOf(key, Pow2(e) - 1) == HashKey(key as bv32) as int % Pow2(e) < Pow2(e)
  {
    hide HashKey;
    MaskIsRemainder(HashKey(key as bv32) as int, e);
  }

  /** hash_map_pick_bucket_count: the smallest power of two that is at least the number of
      keys, but no more than the cap. */
  method PickBucketCount(numKeys: nat) returns (buckets: nat, ghost e: nat)
    ensures buckets == Pow2(e) <= MAX_BUCKETS
    ensures numKeys <= buckets || buckets == MAX_BUCKETS
    ensures forall d: nat :: Pow2(d) < buckets ==> Pow2(d) < numKeys
  {
    buckets, e := 1, 0;
    Pow2Thirty();
    while buckets < numKeys && buckets < MAX_BUCKETS
      invariant buckets == Pow2(e) <= MAX_BUCKETS
      invariant forall d: nat :: Pow2(d) < buckets ==> Pow2(d) < numKeys
      decreases MAX_BUCKETS - buckets
    {
      BelowCap(e);
      forall d: nat | Pow2(d) < 2 * buckets
        ensures Pow2(d) < numKeys
      {
        if d > e { Pow2Monotone(e, d); } else if d < e { Pow2Monotone(d, e); }
      }
      buckets, e := 2 * buckets, e + 1;
    }
  }

  lemma BelowCap(e: nat)
    requires Pow2(e) < MAX_BUCKETS
    ensures Pow2(e + 1) <= MAX_BUCKETS
  {
    Pow2Thirty();
    if e >= 30 {
      if e > 30 { Pow2Monotone(30, e); }
    } else if e < 29 {
      Pow2Monotone(e + 1, 30);
    }
  }

  // ---------------------------------------------------------------- the map

  class HashNode {
    const key: u32
    var value: u32
    var next: HashNode?

    constructor (key: u32, value: u32)
      ensures this.key == key && this.value == value && next == null
    {
      this.key := key;
      this.value := value;
      next := null;
    }
  }

  /** The i-th node of a list, or null behind its end. */
  function At(list: seq<HashNode>, i: nat): HashNode? {
    if i < |list| then list[i] else null
  }

  /** The list that starts at head, followed through the next pointers. */
  ghost predicate Linked(head: HashNode?, list: seq<HashNode>)
    reads list`next
  {
    && head == At(list, 0)
    && forall i :: 0 <= i < |list| ==> list[i].next == At(list, i + 1)
  }

  function KeysOf(list: seq<HashNode>): (r: seq<u32>)
    ensures |r| == |list|
    ensures forall i :: 0 <= i < |list| ==> r[i] == list[i].key
  {
    seq(|list|, i requires 0 <= i < |list| => list[i].key)
  }

  /** Every list holds exactly the nodes whose keys hash to its bucket, and no node twice. */
  ghost predicate Placed(nodes: map<u32, HashNode>, chains: seq<seq<HashNode>>, mask: nat) {
    && (forall k :: k in nodes ==> nodes[k].key == k && Listed(nodes[k], chains, mask))
    && (forall b, i :: 0 <= b < |chains| && 0 <= i < |chains[b]| ==> Home(nodes, chains[b][i], b, mask))
    && (forall b :: 0 <= b < |chains| ==> NoneTwice(chains[b]))
  }

  ghost predicate Listed(node: HashNode, chains: seq<seq<HashNode>>, mask: nat) {
    BucketOf(node.key, mask) < |chains| && node in chains[BucketOf(node.key, mask)]
  }

  ghost predicate Home(nodes: map<u32, HashNode>, node: HashNode, b: nat, mask: nat) {
    node.key in nodes && nodes[node.key] == node && BucketOf(node.key, mask) == b
  }

  ghost predicate NoneTwice(list: seq<HashNode>) {
    forall i, j :: 0 <= i < j < |list| ==> list[i] != list[j]
  }

  lemma PlacedInFront(nodes: map<u32, HashNode>, chains: seq<seq<HashNode>>, mask: nat, node: HashNode)
    requires Placed(nodes, chains, mask) && node.key !in nodes && BucketOf(node.key, mask) < |chains|
    ensures var b := BucketOf(node.key, mask);
            Placed(nodes[node.key := node], chains[b := [node] + chains[b]], mask)
  {
    hide BucketOf;
    var b := BucketOf(node.key, mask);
    var after, to := nodes[node.key := node], chains[b := [node] + chains[b]];
    forall k | k in after
      ensures after[k].key == k && Listed(after[k], to, mask)
    {
      if k != node.key {
        assert Listed(nodes[k], chains, mask);
      }
    }
    forall c, i | 0 <= c < |to| && 0 <= i < |to[c]|
      ensures Home(after, to[c][i], c, mask)
    {
      if c != b {
        assert Home(nodes, chains[c][i], c, mask);
      } else if i > 0 {
        assert Home(nodes, chains[c][i - 1], c, mask);
      }
    }
    forall c | 0 <= c < |to|
      ensures NoneTwice(to[c])
    {
      if c == b {
        assert forall i :: 0 <= i < |chains[b]| ==> Home(nodes, chains[b][i], b, mask);
      }
    }
  }

  /** The keys of each list. */
  ghost function KeyLists(chains: seq<seq<HashNode>>): (r: seq<seq<u32>>)
    ensures |r| == |chains|
    ensures forall b :: 0 <= b < |chains| ==> r[b] == KeysOf(chains[b])
  {
    seq(|chains|, b requires 0 <= b < |chains| => KeysOf(chains[b]))
  }

  lemma KeyOfList(nodes: map<u32, HashNode>, chains: seq<seq<HashNode>>, mask: nat, b: nat, i: nat)
    requires Placed(nodes, chains, mask) && b < |chains| && i < |KeyLists(chains)[b]|
    ensures var k := KeyLists(chains)[b][i];
            k in nodes && nodes[k] == chains[b][i] && BucketOf(k, mask) == b
  {
    hide BucketOf;
    assert Home(nodes, chains[b][i], b, mask);
  }

  lemma ElementsAreKeys(nodes: map<u32, HashNode>, chains: seq<seq<HashNode>>, mask: nat)
    requires Placed(nodes, chains, mask)
    ensures AllDistinct(KeyLists(chains)) && Elements(KeyLists(chains)) == nodes.Keys
  {
    hide BucketOf;
    var lists := KeyLists(chains);
    forall b, i | 0 <= b < |lists| && 0 <= i < |lists[b]|
      ensures lists[b][i] in nodes && nodes[lists[b][i]] == chains[b][i] && BucketOf(lists[b][i], mask) == b
    {
      KeyOfList(nodes, chains, mask, b, i);
    }
    forall b | 0 <= b < |lists|
      ensures Distinct(lists[b])
    {
      assert NoneTwice(chains[b]);
    }
    forall k
      ensures k in Elements(lists) <==> k in nodes
    {
      InSomeList(lists, k);
      if k in nodes {
        assert Listed(nodes[k], chains, mask);
        var b := BucketOf(k, mask);
        var i :| 0 <= i < |chains[b]| && chains[b][i] == nodes[k];
        assert lists[b][i] == k;
      }
    }
  }

  class HashMap {
    var buckets: array<HashNode?>
    var numBuckets: nat
    var bucketMask: nat
    var numKeys: nat
    /** The lists that the buckets start, the node of each key, and the logarithm of the
        number of buckets. */
    ghost var chains: seq<seq<HashNode>>
    ghost var nodes: map<u32, HashNode>
    ghost var exponent: nat

    ghost predicate Shape()
      reads this`buckets, this`numBuckets, this`bucketMask, this`chains, this`exponent
    {
      && buckets.Length == numBuckets == |chains| == Pow2(exponent)
      && bucketMask == numBuckets - 1
      && numBuckets <= MAX_BUCKETS
    }

    /** The buckets are the heads of the lists. */
    ghost predicate Structure()
      reads this`buckets, this`numBuckets, this`bucketMask, this`chains, this`nodes, this`exponent
      reads buckets, nodes.Values`next
    {
      && Shape()
      && Placed(nodes, chains, bucketMask)
      && (forall b :: 0 <= b < |chains| ==> InNodes(chains[b]) && Linked(buckets[b], chains[b]))
    }

    /** Every node of the list is a node of the map. */
    ghost predicate InNodes(list: seq<HashNode>)
      reads this`nodes
    {
      forall i :: 0 <= i < |list| ==> list[i] in nodes.Values
    }

    ghost predicate Valid()
      reads this, buckets, nodes.Values
    {
      && Structure()
      && numKeys == |nodes|
      && (numKeys <= numBuckets || numBuckets == MAX_BUCKETS)
    }

    ghost function Repr(): set<object>
      reads this
    {
      {this, buckets} + nodes.Values
    }

    /** The mathematical map that the hash map stands for. */
    ghost function Contents(): map<u32, u32>
      reads this, nodes.Values
    {
      map k | k in nodes :: nodes[k].value
    }

    /** hash_map_new. */
    constructor (numKeys: nat)
      ensures Valid() && Contents() == map[] && fresh(Repr())
      ensures numKeys <= numBuckets || numBuckets == MAX_BUCKETS
    {
      hide BucketOf, Placed;
      var n, e := PickBucketCount(numKeys);
      this.numBuckets := n;
      this.bucketMask := n - 1;
      this.buckets := new HashNode?[n](_ => null);
      this.numKeys := 0;
      this.exponent := e;
      this.nodes := map[];
      this.chains := seq(n, _ => []);
      new;
      NothingPlaced(chains, bucketMask);
    }

    /** hash_map_link: put a node in front of the list of its bucket. */
    method Link(node: HashNode)
      requires Structure() && node.key !in nodes
      modifies this`chains, this`nodes, buckets, node`next
      ensures Structure() && nodes == old(nodes)[node.key := node]
    {
      hide BucketOf, Placed;
      BucketIsRemainder(node.key, exponent);
      PlacedInFront(nodes, chains, bucketMask, node);
      Apart(node);
      var b := BucketOf(node.key, bucketMask);
      node.next := buckets[b];
      buckets[b] := node;
      chains := chains[b := [node] + chains[b]];
      nodes := nodes[node.key := node];
      ghost var list := old(chains[b]);
      assert chains[b] == [node] + list && Linked(node.next, list);
      LinkedInFront(node, list);
      forall c | 0 <= c < |chains|
        ensures InNodes(chains[c]) && Linked(buckets[c], chains[c])
      {
        ListsHoldNodes(c);
        if c != b {
          assert old(Linked(buckets[c], chains[c]) && InNodes(chains[c]));
          assert chains[c] == old(chains[c]) && node !in chains[c];
        }
      }
    }

    /** The nodes of the list from the i-th on are still linked, and not in the map. */
    ghost predicate Pending(list: seq<HashNode>, i: nat, moved: set<HashNode>)
      reads this, moved
    {
      forall j :: i <= j < |list| ==> list[j] in moved && list[j].next == At(list, j + 1) && list[j].key !in nodes
    }

    /** One turn of the inner loop of hash_map_grow. */
    method MoveNode(node: HashNode, ghost list: seq<HashNode>, ghost i: nat, ghost moved: set<HashNode>) returns (next: HashNode?)
      requires Structure() && KeysDiffer(list) && Pending(list, i, moved) && i < |list| && node == list[i]
      modifies this`chains, this`nodes, buckets, node`next
      ensures Structure() && Pending(list, i + 1, moved) && next == At(list, i + 1)
      ensures nodes == old(nodes)[node.key := node]
    {
      hide Structure;
      next := node.next;
      Link(node);
    }

    /** The inner loop of hash_map_grow: relink the nodes of one old list. */
    method MoveList(head: HashNode?, ghost list: seq<HashNode>, ghost moved: set<HashNode>)
      requires Structure() && KeysDiffer(list) && head == At(list, 0) && Pending(list, 0, moved)
      modifies this`chains, this`nodes, buckets, moved`next
      ensures Structure() && Extended(old(nodes), nodes, list, |list|)
    {
      ghost var before := nodes;
      hide Structure, Extended, Pending, KeysDiffer, BucketOf, Placed, Linked;
      NoneExtended(before, list);
      var node := head;
      ghost var i := 0;
      while node != null
        invariant 0 <= i <= |list| && node == At(list, i)
        invariant Structure() && Pending(list, i, moved) && Extended(before, nodes, list, i)
        invariant buckets == old(buckets)
        decreases |list| - i
      {
        StillPending(list, i, moved);
        ExtendedNext(before, nodes, list, i);
        node := MoveNode(node, list, i, moved);
        i := i + 1;
      }
    }

    lemma StillPending(list: seq<HashNode>, i: nat, moved: set<HashNode>)
      requires Pending(list, i, moved) && i < |list|
      ensures list[i].key !in nodes && list[i] in moved
    {
    }

    /** The beginning of hash_map_grow: twice the buckets, all of them empty. */
    method DoubleBuckets()
      requires Shape() && numBuckets < MAX_BUCKETS
      modifies this`buckets, this`numBuckets, this`bucketMask, this`chains, this`nodes, this`exponent
      ensures Structure() && nodes == map[] && fresh(buckets) && numBuckets == 2 * old(numBuckets)
    {
      hide BucketOf, Placed;
      BelowCap(exponent);
      numBuckets := numBuckets * 2;
      bucketMask := numBuckets - 1;
      buckets := new HashNode?[numBuckets](_ => null);
      exponent, nodes, chains := exponent + 1, map[], seq(numBuckets, _ => []);
      NothingPlaced(chains, bucketMask);
    }

    /** hash_map_grow: twice the buckets, the same nodes. */
    method Grow()
      requires Structure() && numBuckets < MAX_BUCKETS
      modifies this`buckets, this`numBuckets, this`bucketMask, this`chains, this`nodes, this`exponent, nodes.Values`next
      ensures Structure() && nodes == old(nodes) && fresh(buckets)
      ensures numBuckets == 2 * old(numBuckets)
    {
      ghost var all, was, mask := nodes, chains, bucketMask;
      hide BucketOf, Placed, Structure, Relinked, Waiting, Shape;
      AllWaiting();
      var oldBuckets, oldNumBuckets := buckets, numBuckets;
      DoubleBuckets();
      NoneRelinked(all, was, mask);
      var b := 0;
      while b < oldNumBuckets
        invariant 0 <= b <= oldNumBuckets
        invariant Structure() && fresh(buckets) && numBuckets == 2 * old(numBuckets)
        invariant Relinked(all, nodes, was, mask, b)
        invariant Waiting(oldBuckets, was, b, all.Values)
      {
        MoveBucket(oldBuckets, all, was, mask, b);
        b := b + 1;
      }
      AllRelinked(all, nodes, was, mask);
    }

    /** One turn of the outer loop of hash_map_grow. */
    method MoveBucket(oldBuckets: array<HashNode?>, ghost all: map<u32, HashNode>, ghost was: seq<seq<HashNode>>, ghost mask: nat, b: nat)
      requires Structure() && Placed(all, was, mask) && b < |was| == oldBuckets.Length && oldBuckets != buckets
      requires Relinked(all, nodes, was, mask, b) && Waiting(oldBuckets, was, b, all.Values)
      modifies this`chains, this`nodes, buckets, all.Values`next
      ensures Structure() && Relinked(all, nodes, was, mask, b + 1) && Waiting(oldBuckets, was, b + 1, all.Values)
    {
      hide BucketOf, Placed, Structure, Relinked;
      ListApart(all, nodes, was, mask, b);
      ghost var before := nodes;
      MoveList(oldBuckets[b], was[b], set n | n in was[b]);
      KeysMatch();
      RelinkedNext(all, before, nodes, was, mask, b);
    }

    /** The old lists from the b-th on are still linked. */
    ghost predicate Waiting(heads: array<HashNode?>, lists: seq<seq<HashNode>>, b: nat, all: set<HashNode>)
      reads heads, all
    {
      && |lists| == heads.Length
      && (forall c, i :: b <= c < |lists| && 0 <= i < |lists[c]| ==> lists[c][i] in all)
      && (forall c :: b <= c < |lists| ==> Linked(heads[c], lists[c]))
    }

    lemma AllWaiting()
      requires Structure()
      ensures Placed(nodes, chains, bucketMask) && Waiting(buckets, chains, 0, nodes.Values)
      ensures 0 < |chains| == numBuckets == buckets.Length && Shape()
    {
      hide BucketOf, Placed;
    }

    lemma KeysMatch()
      requires Structure()
      ensures forall k :: k in nodes ==> nodes[k].key == k
    {
    }

    lemma ListsHoldNodes(b: nat)
      requires Placed(nodes, chains, bucketMask) && b < |chains|
      ensures InNodes(chains[b])
    {
      hide BucketOf;
      forall i | 0 <= i < |chains[b]|
        ensures chains[b][i] in nodes.Values
      {
        assert Home(nodes, chains[b][i], b, bucketMask);
      }
    }

    /** The beginning of hash_map_insert: grow if there are as many keys as buckets. */
    method MakeRoom()
      requires Valid()
      modifies this`buckets, this`numBuckets, this`bucketMask, this`chains, this`nodes, this`exponent, nodes.Values`next
      ensures Structure() && nodes == old(nodes) && (buckets == old(buckets) || fresh(buckets))
      ensures Contents() == old(Contents())
      ensures numKeys < numBuckets || numBuckets == MAX_BUCKETS
    {
      hide BucketOf, Placed, Structure, Linked;
      AllWaiting();
      if numKeys >= numBuckets && numBuckets < MAX_BUCKETS {
        Grow();
      }
    }

    /** The end of hash_map_insert: a new node. */
    method AddNode(key: u32, value: u32)
      requires Structure() && key !in nodes
      modifies this`numKeys, this`chains, this`nodes, buckets
      ensures Structure() && numKeys == old(numKeys) + 1 && |nodes| == old(|nodes|) + 1
      ensures Contents() == old(Contents())[key := value]
      ensures fresh(nodes.Values - old(nodes.Values))
    {
      hide BucketOf, Placed, Structure, Linked;
      numKeys := numKeys + 1;
      var node := new HashNode(key, value);
      Link(node);
    }

    /** hash_map_insert. */
    method Insert(key: u32, value: u32)
      requires Valid() && key !in nodes
      modifies this, buckets, nodes.Values`next
      ensures Valid() && Contents() == old(Contents())[key := value]
      ensures fresh(Repr() - old(Repr()))
    {
      hide BucketOf, Placed, Structure, Linked, Contents;
      MakeRoom();
      AddNode(key, value);
    }

    method Assign(node: HashNode, value: u32)
      requires Valid() && node.key in nodes && nodes[node.key] == node
      requires forall k :: k in nodes && nodes[k] == node ==> k == node.key
      modifies node`value
      ensures Valid() && Contents() == old(Contents())[node.key := value]
    {
      hide BucketOf, Placed, Structure, Linked;
      node.value := value;
    }

    /** The walk along a list that hash_map_set and hash_map_get make. */
    method Find(key: u32) returns (node: HashNode?)
      requires Valid()
      ensures node == null <==> key !in nodes
      ensures node != null ==> node.key == key && nodes[key] == node
      ensures node != null ==> forall k :: k in nodes && nodes[k] == node ==> k == key
    {
      hide BucketOf, Placed, Linked, Structure;
      InRange(key);
      var b := BucketOf(key, bucketMask);
      ghost var list, i := chains[b], 0;
      node := buckets[b];
      Start(b);
      while node != null
        invariant 0 <= i <= |list| && node == At(list, i)
        invariant forall j :: 0 <= j < i ==> list[j].key != key
        decreases |list| - i
      {
        if node.key == key {
          Found(b, i);
          return;
        }
        Advance(b, i);
        node, i := node.next, i + 1;
      }
      Missing(key);
    }

    /** hash_map_set. */
    method Set(key: u32, value: u32)
      requires Valid()
      modifies Repr()
      ensures Valid() && Contents() == old(Contents())[key := value]
      ensures fresh(Repr() - old(Repr()))
    {
      hide BucketOf, Placed, Linked, Structure, Contents, Valid;
      var node := Find(key);
      if node != null {
        Assign(node, value);
      } else {
        Insert(key, value);
      }
    }

    /** hash_map_get. */
    method Get(key: u32) returns (found: bool, value: u32)
      requires Valid()
      ensures found <==> key in Contents()
      ensures found ==> value == Contents()[key]
    {
      hide BucketOf, Placed, Linked, Structure;
      var node := Find(key);
      if node != null {
        return true, node.value;
      }
      return false, 0;
    }

    lemma InRange(key: u32)
      requires Structure()
      ensures BucketOf(key, bucketMask) < |chains| == buckets.Length
    {
      hide BucketOf;
      BucketIsRemainder(key, exponent);
    }

    lemma Start(b: nat)
      requires Structure() && b < |chains|
      ensures buckets[b] == At(chains[b], 0)
    {
    }

    lemma Advance(b: nat, i: nat)
      requires Structure() && b < |chains| && i < |chains[b]|
      ensures chains[b][i].next == At(chains[b], i + 1)
    {
      hide Placed;
    }

    lemma Found(b: nat, i: nat)
      requires Structure() && b < |chains| && i < |chains[b]|
      ensures chains[b][i].key in nodes && nodes[chains[b][i].key] == chains[b][i]
      ensures forall k :: k in nodes && nodes[k] == chains[b][i] ==> k == chains[b][i].key
    {
      hide BucketOf;
      assert Home(nodes, chains[b][i], b, bucketMask);
    }

    /** A key that is not in the list of its bucket is not in the map. */
    lemma Missing(key: u32)
      requires Structure()
      requires var b := BucketOf(key, bucketMask); b < |chains| && forall j :: 0 <= j < |chains[b]| ==> chains[b][j].key != key
      ensures key !in nodes
    {
      hide BucketOf;
      assert key in nodes ==> Listed(nodes[key], chains, bucketMask);
    }

    /** No key occurs twice, in one list or in two, every key sits in the list of its hash
        modulo the number of buckets, and numKeys is the number of nodes. */
    lemma CountsNodes()
      requires Valid()
      ensures var lists := KeyLists(chains);
              && AllDistinct(lists) && TotalLength(lists) == numKeys && |lists| == numBuckets
              && forall b, i :: 0 <= b < numBuckets && 0 <= i < |lists[b]| ==>
                   b == HashKey(lists[b][i] as bv32) as int % numBuckets
    {
      hide BucketOf, HashKey, Placed, AllDistinct, Elements, TotalLength, Linked;
      var lists := KeyLists(chains);
      ElementsAreKeys(nodes, chains, bucketMask);
      CountAll(lists);
      forall b, i | 0 <= b < numBuckets && 0 <= i < |lists[b]|
        ensures b == HashKey(lists[b][i] as bv32) as int % numBuckets
      {
        KeyOfList(nodes, chains, bucketMask, b, i);
        BucketIsRemainder(lists[b][i], exponent);
      }
    }

    lemma Apart(node: HashNode)
      requires Placed(nodes, chains, bucketMask) && node.key !in nodes
      ensures node !in nodes.Values
    {
    }
  }

  ghost predicate KeysDiffer(list: seq<HashNode>) {
    forall i, j :: 0 <= i < j < |list| ==> list[i].key != list[j].key
  }

  /** The first n nodes of a list have been added to the map. */
  ghost predicate Extended(before: map<u32, HashNode>, after: map<u32, HashNode>, list: seq<HashNode>, n: nat)
    requires n <= |list|
  {
    && (forall k :: k in before ==> k in after && after[k] == before[k])
    && (forall i :: 0 <= i < n ==> list[i].key in after && after[list[i].key] == list[i])
    && (forall k :: k in after && k !in before ==> after[k] in list)
  }

  lemma NoneExtended(before: map<u32, HashNode>, list: seq<HashNode>)
    ensures Extended(before, before, list, 0)
  {
  }

  lemma ExtendedNext(before: map<u32, HashNode>, after: map<u32, HashNode>, list: seq<HashNode>, i: nat)
    requires i < |list| && Extended(before, after, list, i) && list[i].key !in after
    ensures Extended(before, after[list[i].key := list[i]], list, i + 1)
  {
  }

  /** The nodes of the first b lists have been linked again, and no others. */
  ghost predicate Relinked(all: map<u32, HashNode>, some: map<u32, HashNode>, lists: seq<seq<HashNode>>, mask: nat, b: nat)
    requires b <= |lists|
  {
    && (forall k :: k in some ==> k in all && all[k] == some[k] && BucketOf(k, mask) < b)
    && (forall c, i :: 0 <= c < b && 0 <= i < |lists[c]| ==> lists[c][i].key in some)
  }

  lemma NothingPlaced(chains: seq<seq<HashNode>>, mask: nat)
    requires forall b :: 0 <= b < |chains| ==> chains[b] == []
    ensures Placed(map[], chains, mask)
  {
    hide BucketOf;
  }

  lemma NoneRelinked(all: map<u32, HashNode>, lists: seq<seq<HashNode>>, mask: nat)
    ensures Relinked(all, map[], lists, mask, 0)
  {
  }

  /** What is known of the next list to be moved. */
  lemma ListApart(all: map<u32, HashNode>, some: map<u32, HashNode>, lists: seq<seq<HashNode>>, mask: nat, b: nat)
    requires b < |lists| && Placed(all, lists, mask) && Relinked(all, some, lists, mask, b)
    ensures KeysDiffer(lists[b])
    ensures forall i :: 0 <= i < |lists[b]| ==> lists[b][i].key !in some
    ensures forall c, i, j :: b < c < |lists| && 0 <= i < |lists[c]| && 0 <= j < |lists[b]| ==> lists[c][i] != lists[b][j]
    ensures forall i :: 0 <= i < |lists[b]| ==> lists[b][i] in all.Values
  {
    hide BucketOf;
    var list := lists[b];
    assert forall i :: 0 <= i < |list| ==> Home(all, list[i], b, mask);
    forall c, i, j | b < c < |lists| && 0 <= i < |lists[c]| && 0 <= j < |lists[b]|
      ensures lists[c][i] != lists[b][j]
    {
      assert Home(all, lists[c][i], c, mask);
    }
    assert NoneTwice(list);
    forall i, j | 0 <= i < j < |list|
      ensures list[i].key != list[j].key
    {
      assert Home(all, list[i], b, mask) && Home(all, list[j], b, mask);
    }
  }

  lemma RelinkedNext(all: map<u32, HashNode>, before: map<u32, HashNode>, after: map<u32, HashNode>,
                     lists: seq<seq<HashNode>>, mask: nat, b: nat)
    requires b < |lists| && Placed(all, lists, mask) && Relinked(all, before, lists, mask, b)
    requires Extended(before, after, lists[b], |lists[b]|) && forall k :: k in after ==> after[k].key == k
    ensures Relinked(all, after, lists, mask, b + 1)
  {
    hide BucketOf;
    forall k | k in after
      ensures k in all && all[k] == after[k] && BucketOf(k, mask) < b + 1
    {
      if k !in before {
        var i :| 0 <= i < |lists[b]| && lists[b][i] == after[k];
        assert Home(all, lists[b][i], b, mask);
      }
    }
    forall c, i | 0 <= c < b + 1 && 0 <= i < |lists[c]|
      ensures lists[c][i].key in after
    {
      if c < b { assert lists[c][i].key in before; }
    }
  }

  lemma AllRelinked(all: map<u32, HashNode>, some: map<u32, HashNode>, lists: seq<seq<HashNode>>, mask: nat)
    requires Placed(all, lists, mask) && Relinked(all, some, lists, mask, |lists|)
    ensures some == all
  {
    hide BucketOf;
    forall k | k in all
      ensures k in some
    {
      assert Listed(all[k], lists, mask);
      var b := BucketOf(k, mask);
      var i :| 0 <= i < |lists[b]| && lists[b][i] == all[k];
    }
  }

  lemma LinkedInFront(node: HashNode, list: seq<HashNode>)
    requires Linked(node.next, list)
    ensures Linked(node, [node] + list)
  {
    var longer := [node] + list;
    forall i | 0 < i < |longer|
      ensures longer[i].next == At(longer, i + 1)
    {
      assert list[i - 1].next == At(list, i);
    }
  }

  // ---------------------------------------------------------------- every sequence of calls

  datatype Call = Set(key: u32, value: u32) | Get(key: u32)

  datatype Answer = Done | Found(value: u32) | NotFound

  /** The mathematical map after a sequence of calls. */
  function After(calls: seq<Call>): map<u32, u32> {
    if calls == [] then map[] else
    var m := After(calls[..|calls| - 1]);
    match calls[|calls| - 1]
    case Set(key, value) => m[key := value]
    case Get(_) => m
  }

  /** The i-th call is the latest that sets the key. */
  predicate LatestSet(calls: seq<Call>, key: u32, i: int) {
    && 0 <= i < |calls| && calls[i].Set? && calls[i].key == key
    && forall j :: i < j < |calls| && calls[j].Set? ==> calls[j].key != key
  }

  predicate NeverSet(calls: seq<Call>, key: u32) {
    forall i :: 0 <= i < |calls| && calls[i].Set? ==> calls[i].key != key
  }

  /** What a Get is to answer after some calls. */
  ghost predicate Right(calls: seq<Call>, key: u32, answer: Answer) {
    match answer
    case Done => false
    case Found(value) => exists i :: LatestSet(calls, key, i) && calls[i].value == value
    case NotFound => NeverSet(calls, key)
  }

  lemma {:induction false} AfterIsLatest(calls: seq<Call>, key: u32)
    ensures Right(calls, key, if key in After(calls) then Found(After(calls)[key]) else NotFound)
    decreases |calls|
  {
    if calls != [] {
      var n := |calls| - 1;
      var last, init := calls[n], calls[..n];
      AfterIsLatest(init, key);
      if last.Set? && last.key == key {
        assert LatestSet(calls, key, n);
      } else if key in After(init) {
        var i :| LatestSet(init, key, i) && init[i].value == After(init)[key];
        assert LatestSet(calls, key, i);
      }
    }
  }

  /** Every sequence of calls on a new map, growth included: each Get finds the value of the
      latest Set of its key, and finds nothing exactly when there is none. */
  method Replay(numKeys: nat, calls: seq<Call>) returns (answers: seq<Answer>)
    ensures |answers| == |calls|
    ensures forall i :: 0 <= i < |calls| && calls[i].Get? ==> Right(calls[..i], calls[i].key, answers[i])
  {
    hide HashMap.Valid, HashMap.Contents, Right, After;
    var m := new HashMap(numKeys);
    AfterNone();
    answers := [];
    while |answers| < |calls|
      invariant |answers| <= |calls|
      invariant m.Valid() && m.Contents() == After(calls[..|answers|]) && fresh(m.Repr())
      invariant forall i :: 0 <= i < |answers| && calls[i].Get? ==> Right(calls[..i], calls[i].key, answers[i])
    {
      var n := |answers|;
      AfterNext(calls, n);
      match calls[n]
      case Set(key, value) =>
        m.Set(key, value);
        answers := answers + [Done];
      case Get(key) =>
        AfterIsLatest(calls[..n], key);
        var found, value := m.Get(key);
        answers := answers + [if found then Found(value) else NotFound];
    }
  }

  lemma AfterNone()
    ensures After([]) == map[]
  {
  }

  lemma AfterNext(calls: seq<Call>, n: nat)
    requires n < |calls|
    ensures calls[n].Set? ==> After(calls[..n + 1]) == After(calls[..n])[calls[n].key := calls[n].value]
    ensures calls[n].Get? ==> After(calls[..n + 1]) == After(calls[..n])
  {
    assert calls[..n + 1][..n] == calls[..n];
  }
}
