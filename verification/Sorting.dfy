/** Sorting by a total order given as a function, as `sort_by` does it: a stable insertion. */
module Sorting {
  ghost predicate Total<T(!new)>(atMost: (T, T) -> bool)
  {
    && (forall a, b :: atMost(a, b) || atMost(b, a))
    && (forall a, b, c :: atMost(a, b) && atMost(b, c) ==> atMost(a, c))
  }

  ghost predicate InOrder<T>(s: seq<T>, atMost: (T, T) -> bool)
  {
    forall i, j | 0 <= i < j < |s| :: atMost(s[i], s[j])
  }

  function Place<T>(x: T, s: seq<T>, atMost: (T, T) -> bool): seq<T>
    decreases |s|
  {
    if s == [] || atMost(x, s[0]) then [x] + s else [s[0]] + Place(x, s[1..], atMost)
  }

  function Sort<T>(s: seq<T>, atMost: (T, T) -> bool): seq<T>
    decreases |s|
  {
    if s == [] then [] else Place(s[0], Sort(s[1..], atMost), atMost)
  }

  lemma {:induction false} PlaceElements<T>(x: T, s: seq<T>, atMost: (T, T) -> bool)
    ensures multiset(Place(x, s, atMost)) == multiset(s) + multiset{x}
    decreases |s|
  {
    if s != [] && !atMost(x, s[0]) {
      PlaceElements(x, s[1..], atMost);
      assert s == [s[0]] + s[1..];
    }
  }

  lemma ConsInOrder<T>(x: T, s: seq<T>, atMost: (T, T) -> bool)
    requires InOrder(s, atMost) && forall r | r in s :: atMost(x, r)
    ensures InOrder([x] + s, atMost)
  {
  }

  lemma HeadIsLeast<T>(s: seq<T>, atMost: (T, T) -> bool)
    requires InOrder(s, atMost) && s != []
    ensures InOrder(s[1..], atMost) && forall r | r in s[1..] :: atMost(s[0], r)
  {
  }

  lemma {:induction false} PlaceInOrder<T(!new)>(x: T, s: seq<T>, atMost: (T, T) -> bool)
    requires Total(atMost) && InOrder(s, atMost)
    ensures InOrder(Place(x, s, atMost), atMost)
    decreases |s|
  {
    if s != [] {
      HeadIsLeast(s, atMost);
      if atMost(x, s[0]) {
        assert s == [s[0]] + s[1..];
        ConsInOrder(x, s, atMost);
      } else {
        PlaceInOrder(x, s[1..], atMost);
        PlaceElements(x, s[1..], atMost);
        SameElements(Place(x, s[1..], atMost), s[1..] + [x]);
        ConsInOrder(s[0], Place(x, s[1..], atMost), atMost);
      }
    }
  }

  lemma SameElements<T>(s: seq<T>, t: seq<T>)
    requires multiset(s) == multiset(t)
    ensures |s| == |t|
    ensures forall x :: x in s <==> x in t
  {
    assert |multiset(s)| == |multiset(t)|;
    forall x
      ensures x in s <==> x in t
    {
      assert x in s <==> x in multiset(s);
      assert x in t <==> x in multiset(t);
    }
  }

  /** The same elements, in order. */
  lemma {:induction false} SortSpec<T(!new)>(s: seq<T>, atMost: (T, T) -> bool)
    requires Total(atMost)
    ensures InOrder(Sort(s, atMost), atMost)
    ensures multiset(Sort(s, atMost)) == multiset(s)
    ensures forall x :: x in Sort(s, atMost) <==> x in s
    ensures |Sort(s, atMost)| == |s|
    decreases |s|
  {
    if s != [] {
      SortSpec(s[1..], atMost);
      PlaceElements(s[0], Sort(s[1..], atMost), atMost);
      PlaceInOrder(s[0], Sort(s[1..], atMost), atMost);
      assert s == [s[0]] + s[1..];
    }
    SameElements(Sort(s, atMost), s);
  }

  function Descending(): (nat, nat) -> bool
  {
    (a: nat, b: nat) => b <= a
  }
}
