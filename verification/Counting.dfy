/** Counting the elements of sequences of sequences. */
module Counting {

  function TotalLength<T>(lists: seq<seq<T>>): nat {
    if lists == [] then 0 else TotalLength(lists[..|lists| - 1]) + |lists[|lists| - 1]|
  }

  ghost function Elements<T(!new)>(lists: seq<seq<T>>): set<T> {
    if lists == [] then {} else Elements(lists[..|lists| - 1]) + ElementsOf(lists[|lists| - 1])
  }

  ghost function ElementsOf<T(!new)>(list: seq<T>): set<T> {
    set x | x in list
  }

  /** No element occurs twice, in one list or in two. */
  ghost predicate AllDistinct<T(!new)>(lists: seq<seq<T>>) {
    && (forall b :: 0 <= b < |lists| ==> Distinct(lists[b]))
    && (forall b, c, x :: 0 <= b < c < |lists| && x in lists[b] ==> x !in lists[c])
  }

  ghost predicate Distinct<T(!new)>(list: seq<T>) {
    forall i, j :: 0 <= i < j < |list| ==> list[i] != list[j]
  }

  lemma {:induction false} InSomeList<T(!new)>(lists: seq<seq<T>>, x: T)
    ensures x in Elements(lists) <==> exists b :: 0 <= b < |lists| && x in lists[b]
    decreases |lists|
  {
    if lists != [] {
      var n := |lists| - 1;
      InSomeList(lists[..n], x);
      if b :| 0 <= b < n && x in lists[b] { assert lists[..n][b] == lists[b]; }
    }
  }

  lemma {:induction false} CountOne<T(!new)>(list: seq<T>)
    requires Distinct(list)
    ensures |ElementsOf(list)| == |list|
    decreases |list|
  {
    if list != [] {
      var n := |list| - 1;
      CountOne(list[..n]);
      assert ElementsOf(list) == ElementsOf(list[..n]) + {list[n]};
    }
  }

  lemma {:induction false} CountAll<T(!new)>(lists: seq<seq<T>>)
    requires AllDistinct(lists)
    ensures |Elements(lists)| == TotalLength(lists)
    decreases |lists|
  {
    if lists != [] {
      var n := |lists| - 1;
      var init := lists[..n];
      CountAll(init);
      CountOne(lists[n]);
      forall x | x in Elements(init)
        ensures x !in lists[n]
      {
        InSomeList(init, x);
        var b :| 0 <= b < |init| && x in init[b];
        assert x in lists[b];
      }
      assert Elements(init) !! ElementsOf(lists[n]);
    }
  }
}
