/**
 * Sorted, duplicate-free listings of sets of strings: what Python's `sorted`
 * returns for a set, and the `[:n]` slice the request builder applies to it.
 */
module Sorting {
  import opened Text

  /** Every element comes strictly before every later one (hence no duplicates). */
  predicate StrictlySorted(xs: seq<string>)
  {
    forall i, j :: 0 <= i < j < |xs| ==> Less(xs[i], xs[j])
  }

  function Elems(xs: seq<string>): set<string>
  {
    set x | x in xs
  }

  /** `xs` is `sorted(s)`: the elements of `s`, each once, in ascending order. */
  ghost predicate IsListing(xs: seq<string>, s: set<string>)
  {
    StrictlySorted(xs) && Elems(xs) == s
  }

  lemma ElemsCons(x: string, xs: seq<string>)
    ensures Elems([x] + xs) == {x} + Elems(xs)
  {
    assert forall y :: y in [x] + xs <==> y == x || y in xs;
  }

  /** The head of a strictly sorted list comes before everything after it. */
  lemma HeadIsLeast(xs: seq<string>)
    requires StrictlySorted(xs) && xs != []
    ensures forall y :: y in xs[1..] ==> Less(xs[0], y)
  {
    forall y | y in xs[1..]
      ensures Less(xs[0], y)
    {
      var j :| 0 <= j < |xs[1..]| && xs[1..][j] == y;
      assert xs[j + 1] == y;
    }
  }

  /** Putting a string in front of a strictly sorted list of larger strings keeps it strictly sorted. */
  lemma PrependSmaller(x: string, xs: seq<string>)
    requires StrictlySorted(xs)
    requires forall y :: y in xs ==> Less(x, y)
    ensures StrictlySorted([x] + xs)
  {
    var r := [x] + xs;
    forall i, j | 0 <= i < j < |r|
      ensures Less(r[i], r[j])
    {
      assert r[j] == xs[j - 1];
      if i > 0 {
        assert r[i] == xs[i - 1];
      }
    }
  }

  /** Adds `x` to a sorted listing, keeping it sorted and duplicate-free. */
  function Insert(xs: seq<string>, x: string): (r: seq<string>)
    requires StrictlySorted(xs)
    ensures StrictlySorted(r)
    ensures Elems(r) == Elems(xs) + {x}
  {
    if xs == [] then [x]
    else if x == xs[0] then xs
    else
      assert xs == [xs[0]] + xs[1..];
      ElemsCons(xs[0], xs[1..]);
      HeadIsLeast(xs);
      if Less(x, xs[0]) then
        assert forall y :: y in xs ==> Less(x, y) by {
          forall y | y in xs
            ensures Less(x, y)
          {
            if y != xs[0] {
              LessTransitive(x, xs[0], y);
            }
          }
        }
        PrependSmaller(x, xs);
        ElemsCons(x, xs);
        [x] + xs
      else
        LessTotal(x, xs[0]);
        var rest := Insert(xs[1..], x);
        assert forall y :: y in rest ==> Less(xs[0], y) by {
          forall y | y in rest
            ensures Less(xs[0], y)
          {
            assert y in Elems(rest);
            if y != x {
              assert y in Elems(xs[1..]);
            }
          }
        }
        PrependSmaller(xs[0], rest);
        ElemsCons(xs[0], rest);
        [xs[0]] + rest
  }

  /** The sorted, duplicate-free listing of the elements of `xs`. */
  function InsertAll(xs: seq<string>): (r: seq<string>)
    ensures StrictlySorted(r)
    ensures Elems(r) == Elems(xs)
  {
    if xs == [] then []
    else
      var n := |xs| - 1;
      assert xs == xs[..n] + [xs[n]];
      Insert(InsertAll(xs[..n]), xs[n])
  }

  /** A strictly sorted sequence has no duplicates, so its length is its number of elements. */
  lemma {:induction false} SortedLength(xs: seq<string>)
    requires StrictlySorted(xs)
    ensures |Elems(xs)| == |xs|
  {
    if xs != [] {
      SortedLength(xs[1..]);
      assert xs == [xs[0]] + xs[1..];
      assert Elems(xs) == {xs[0]} + Elems(xs[1..]);
      assert xs[0] !in Elems(xs[1..]) by {
        if xs[0] in Elems(xs[1..]) {
          var j :| 0 <= j < |xs[1..]| && xs[1..][j] == xs[0];
          assert Less(xs[0], xs[j + 1]);
          LessIrreflexive(xs[0]);
        }
      }
    }
  }

  /** A set has at most one sorted listing. */
  lemma {:induction false} ListingUnique(a: seq<string>, b: seq<string>)
    requires StrictlySorted(a) && StrictlySorted(b)
    requires Elems(a) == Elems(b)
    ensures a == b
  {
    if a == [] {
      SortedLength(b);
    } else {
      assert a[0] in Elems(b);
      assert b != [] && b[0] in Elems(a);
      assert a == [a[0]] + a[1..] && b == [b[0]] + b[1..];
      ElemsCons(a[0], a[1..]);
      ElemsCons(b[0], b[1..]);
      HeadIsLeast(a);
      HeadIsLeast(b);
      LessAsymmetric(a[0], b[0]);
      LessIrreflexive(a[0]);
      assert a[0] == b[0];
      assert Elems(a[1..]) == Elems(b[1..]);
      assert StrictlySorted(a[1..]) && StrictlySorted(b[1..]);
      ListingUnique(a[1..], b[1..]);
    }
  }

  /** Every finite set of strings has a sorted listing. */
  lemma {:induction false} ListingExists(s: set<string>)
    ensures exists xs :: IsListing(xs, s)
    decreases s
  {
    if s == {} {
      assert IsListing([], s);
    } else {
      var x :| x in s;
      ListingExists(s - {x});
      var xs :| IsListing(xs, s - {x});
      assert IsListing(Insert(xs, x), s);
    }
  }

  /** `sorted(s)` for a set `s`: its unique sorted listing. */
  ghost function SortedOf(s: set<string>): (r: seq<string>)
    ensures StrictlySorted(r)
    ensures Elems(r) == s
    ensures |r| == |s|
  {
    ListingExists(s);
    var xs :| IsListing(xs, s);
    SortedLength(xs);
    xs
  }

  /**
   * `sorted(s)` computed by repeatedly taking an arbitrary element of what is
   * left of `s` and inserting it into the listing built so far.
   */
  method SortedListing(s: set<string>) returns (r: seq<string>)
    ensures r == SortedOf(s)
    ensures StrictlySorted(r) && Elems(r) == s
  {
    r := [];
    var rest := s;
    while rest != {}
      invariant StrictlySorted(r)
      invariant Elems(r) + rest == s
      decreases rest
    {
      var x :| x in rest;
      r := Insert(r, x);
      rest := rest - {x};
    }
    ListingUnique(r, SortedOf(s));
  }

  /** `xs[:n]`: the first `n` elements of `xs`, or all of them when there are fewer. */
  function Take(xs: seq<string>, n: nat): (r: seq<string>)
    ensures |r| == if |xs| < n then |xs| else n
    ensures r <= xs
  {
    if |xs| < n then xs else xs[..n]
  }

  /**
   * Truncating a sorted listing keeps its smallest elements: everything cut off
   * comes after everything kept, and the kept part is still strictly sorted.
   */
  lemma {:induction false} TakeKeepsSmallest(xs: seq<string>, n: nat)
    requires StrictlySorted(xs)
    ensures StrictlySorted(Take(xs, n))
    ensures Elems(Take(xs, n)) <= Elems(xs)
    ensures forall x, y :: x in Elems(xs) && x !in Elems(Take(xs, n)) && y in Elems(Take(xs, n)) ==> Less(y, x)
  {
    var t := Take(xs, n);
    forall x, y | x in Elems(xs) && x !in Elems(t) && y in Elems(t)
      ensures Less(y, x)
    {
      var i :| 0 <= i < |xs| && xs[i] == x;
      var j :| 0 <= j < |t| && t[j] == y;
      assert xs[j] == y;
      assert |t| <= i;
    }
  }
}
