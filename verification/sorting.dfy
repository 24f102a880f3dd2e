/** Python's sorted(set(...)) on integers, ascending and descending. */
module Sorting {

  predicate StrictlyAscending(xs: seq<int>)
  {
    forall i, j :: 0 <= i < j < |xs| ==> xs[i] < xs[j]
  }

  predicate StrictlyDescending(xs: seq<int>)
  {
    forall i, j :: 0 <= i < j < |xs| ==> xs[i] > xs[j]
  }

  function Elems(xs: seq<int>): set<int>
  {
    set x | x in xs
  }

  lemma PickOne(s: set<int>) returns (y: int)
    requires s != {}
    ensures y in s
  {
    // s != {} alone does not give the solver a witness: name the empty case.
    if forall x :: x !in s { assert false; }
    y :| y in s;
  }

  /** A least element of a non-empty finite set, found by removing elements one at a time. */
  lemma {:induction false} LeastOf(s: set<int>) returns (m: int)
    requires s != {}
    ensures m in s && forall x :: x in s ==> m <= x
  {
    var y := PickOne(s);
    if s == {y} {
      m := y;
    } else {
      var m' := LeastOf(s - {y});
      m := if y < m' then y else m';
      forall x | x in s ensures m <= x {
        if x != y { assert x in s - {y}; }
      }
    }
  }

  lemma MinExists(s: set<int>)
    requires s != {}
    ensures exists m :: m in s && forall x :: x in s ==> m <= x
  {
    var m := LeastOf(s);
  }

  /** The least element of a non-empty finite set. */
  function Min(s: set<int>): (m: int)
    requires s != {}
    ensures m in s && forall x :: x in s ==> m <= x
  {
    MinExists(s);
    var m :| m in s && forall x :: x in s ==> m <= x;
    m
  }

  /** The least element of s followed by the rest of s sorted is s sorted. */
  lemma ConsMin(s: set<int>, m: int, rest: seq<int>)
    requires m in s && forall x :: x in s ==> m <= x
    requires StrictlyAscending(rest) && Elems(rest) == s - {m} && |rest| == |s - {m}|
    ensures StrictlyAscending([m] + rest)
    ensures Elems([m] + rest) == s
    ensures |[m] + rest| == |s|
  {
    var r := [m] + rest;
    forall i, j | 0 <= i < j < |r| ensures r[i] < r[j] {
      if i == 0 { assert r[j] == rest[j - 1] && rest[j - 1] in Elems(rest); }
    }
    assert Elems(r) == {m} + Elems(rest);
    assert s == {m} + (s - {m});
  }

  /** sorted(s): the elements of s in strictly ascending order. */
  function SortedSet(s: set<int>): (r: seq<int>)
    ensures StrictlyAscending(r)
    ensures Elems(r) == s
    ensures |r| == |s|
    decreases s
  {
    if s == {} then []
    else
      var m := Min(s);
      var rest := SortedSet(s - {m});
      ConsMin(s, m, rest);
      [m] + rest
  }

  function Reversed(xs: seq<int>): (r: seq<int>)
    ensures |r| == |xs|
    ensures forall i :: 0 <= i < |xs| ==> r[i] == xs[|xs| - 1 - i]
  {
    if xs == [] then [] else Reversed(xs[1..]) + [xs[0]]
  }

  /** Reversing keeps the elements and turns ascending into descending. */
  lemma ReversedElems(xs: seq<int>)
    ensures Elems(Reversed(xs)) == Elems(xs)
    ensures StrictlyAscending(xs) ==> StrictlyDescending(Reversed(xs))
  {
    var r := Reversed(xs);
    forall x | x in r ensures x in xs {
      var i :| 0 <= i < |r| && r[i] == x;
      assert xs[|xs| - 1 - i] == x;
    }
    forall x | x in xs ensures x in r {
      var i :| 0 <= i < |xs| && xs[i] == x;
      assert r[|xs| - 1 - i] == x;
    }
    if StrictlyAscending(xs) {
      forall i, j | 0 <= i < j < |r| ensures r[i] > r[j] {
        assert r[i] == xs[|xs| - 1 - i] && r[j] == xs[|xs| - 1 - j];
      }
    }
  }

  /** sorted(s, reverse=True): the elements of s in strictly descending order. */
  function SortedSetDescending(s: set<int>): (r: seq<int>)
    ensures StrictlyDescending(r)
    ensures Elems(r) == s
    ensures |r| == |s|
  {
    var up := SortedSet(s);
    ReversedElems(up);
    Reversed(up)
  }

  /** A strictly ascending sequence lists |xs| distinct values. */
  lemma {:induction false} AscendingCard(xs: seq<int>)
    requires StrictlyAscending(xs)
    ensures |Elems(xs)| == |xs|
  {
    if xs != [] {
      AscendingCard(xs[1..]);
      assert Elems(xs) == {xs[0]} + Elems(xs[1..]);
      assert xs[0] !in Elems(xs[1..]);
    }
  }

  /**
   * In sorted(s), the element at position n is the n-th smallest: exactly n
   * elements of s lie below it.
   */
  lemma RankInSortedSet(s: set<int>, n: nat)
    requires n < |s|
    ensures |set x | x in s && x < SortedSet(s)[n]| == n
  {
    var r := SortedSet(s);
    var below := set x | x in s && x < r[n];
    assert below == Elems(r[..n]) by {
      forall x | x in below ensures x in Elems(r[..n]) {
        var i :| 0 <= i < |r| && r[i] == x;
        assert i < n;
      }
    }
    AscendingCard(r[..n]);
  }

  /** A three-element set sorted descending: its second element is the middle one. */
  lemma SecondOfThree(s: set<int>) returns (lo: int, hi: int)
    requires |s| == 3
    ensures s == {lo, SortedSetDescending(s)[1], hi}
    ensures lo < SortedSetDescending(s)[1] < hi
  {
    var r := SortedSetDescending(s);
    ThreeElems(r);
    hi, lo := r[0], r[2];
  }

  lemma ThreeElems(r: seq<int>)
    requires |r| == 3
    ensures Elems(r) == {r[0], r[1], r[2]}
  {
    assert r == [r[0], r[1], r[2]];
  }

}
