/** Filtering, searching and counting in sequences. */
module Sequences {
  function Elements<T>(s: seq<T>): (e: set<T>) {
    set x | x in s
  }

  /** `iter().filter(p)`. */
  function Filter<T(!new)>(s: seq<T>, p: T -> bool): (r: seq<T>)
    ensures |r| <= |s|
    ensures forall x :: x in r <==> x in s && p(x)
  {
    if s == [] then []
    else
      assert s == [s[0]] + s[1..];
      (if p(s[0]) then [s[0]] else []) + Filter(s[1..], p)
  }

  lemma FilterNothing<T(!new)>(p: T -> bool)
    ensures Filter([], p) == []
  {
  }

  lemma {:induction false} FilterJoin<T(!new)>(a: seq<T>, b: seq<T>, p: T -> bool)
    ensures Filter(a + b, p) == Filter(a, p) + Filter(b, p)
  {
    if a == [] {
      assert a + b == b;
    } else {
      assert (a + b)[1..] == a[1..] + b && (a + b)[0] == a[0];
      FilterJoin(a[1..], b, p);
      var head := if p(a[0]) then [a[0]] else [];
      assert head + (Filter(a[1..], p) + Filter(b, p)) == head + Filter(a[1..], p) + Filter(b, p);
    }
  }

  lemma FilterOneMore<T(!new)>(s: seq<T>, x: T, p: T -> bool)
    ensures Filter(s + [x], p) == Filter(s, p) + if p(x) then [x] else []
  {
    FilterJoin(s, [x], p);
    assert [x][1..] == [];
  }

  lemma {:induction false} FilterCounts<T(!new)>(s: seq<T>, p: T -> bool, x: T)
    ensures multiset(Filter(s, p))[x] == if p(x) then multiset(s)[x] else 0
  {
    if s != [] {
      assert s == [s[0]] + s[1..];
      FilterCounts(s[1..], p, x);
    }
  }

  /** Filtering a permutation gives a permutation. */
  lemma FilterPermutes<T(!new)>(a: seq<T>, b: seq<T>, p: T -> bool)
    requires multiset(a) == multiset(b)
    ensures multiset(Filter(a, p)) == multiset(Filter(b, p))
    ensures |Filter(a, p)| == |Filter(b, p)|
  {
    forall x
      ensures multiset(Filter(a, p))[x] == multiset(Filter(b, p))[x]
    {
      FilterCounts(a, p, x);
      FilterCounts(b, p, x);
    }
    assert |multiset(Filter(a, p))| == |Filter(a, p)| && |multiset(Filter(b, p))| == |Filter(b, p)|;
  }

  /** Where in a sequence p and q hold. */
  function Places<T(!new)>(s: seq<T>, p: T -> bool, q: T -> bool): (places: set<int>) {
    set i | 0 <= i < |s| && p(s[i]) && q(s[i])
  }

  lemma FilterTwiceOneMore<T(!new)>(s: seq<T>, x: T, p: T -> bool, q: T -> bool)
    ensures Filter(Filter(s + [x], p), q) == Filter(Filter(s, p), q) + if p(x) && q(x) then [x] else []
  {
    hide Filter;
    FilterOneMore(s, x, p);
    FilterOneMore(Filter(s, p), x, q);
    if !p(x) {
      assert Filter(s + [x], p) == Filter(s, p);
    }
  }

  lemma PlacesOneMore<T(!new)>(s: seq<T>, x: T, p: T -> bool, q: T -> bool)
    ensures Places(s + [x], p, q) == Places(s, p, q) + if p(x) && q(x) then {|s|} else {}
    ensures |s| !in Places(s, p, q)
  {
  }

  /** Filtering twice keeps as many elements as there are such places. */
  lemma {:induction false} FilterTwiceCounts<T(!new)>(s: seq<T>, p: T -> bool, q: T -> bool)
    ensures |Filter(Filter(s, p), q)| == |Places(s, p, q)|
  {
    hide Filter, Places;
    if s == [] {
      NoPlaces(p, q);
    } else {
      var front, last := s[..|s| - 1], s[|s| - 1];
      assert s == front + [last];
      FilterTwiceCounts(front, p, q);
      FilterTwiceOneMore(front, last, p, q);
      PlacesOneMore(front, last, p, q);
    }
  }

  lemma NoPlaces<T(!new)>(p: T -> bool, q: T -> bool)
    ensures Filter(Filter([], p), q) == [] && Places([], p, q) == {}
  {
  }

  lemma FilterCountsPlaces<T(!new)>(s: seq<T>, p: T -> bool)
    ensures |Filter(s, p)| == |Places(s, p, p)|
  {
    FilterTwiceCounts(s, p, p);
    FilterEverything(Filter(s, p), p);
  }

  lemma {:induction false} FilterEverything<T(!new)>(s: seq<T>, all: T -> bool)
    requires forall x :: x in s ==> all(x)
    ensures Filter(s, all) == s
  {
    if s != [] {
      assert s == [s[0]] + s[1..];
      FilterEverything(s[1..], all);
    }
  }

  /** How far it is to the first c. */
  function UpTo(s: string, c: char): (n: nat)
    ensures n <= |s| && (n < |s| ==> s[n] == c) && forall i :: 0 <= i < n ==> s[i] != c
  {
    if s == [] || s[0] == c then 0 else 1 + UpTo(s[1..], c)
  }

  lemma {:induction false} UpToIs(value: string, c: char, rest: string)
    requires c !in value && (rest == [] || rest[0] == c)
    ensures UpTo(value + rest, c) == |value|
  {
    if value == [] {
      assert value + rest == rest;
    } else {
      UpToIs(value[1..], c, rest);
      assert (value + rest)[1..] == value[1..] + rest;
    }
  }
}
