/** Queries and array updates over the document store, independent of the
    kind of document: `find(filter).sort({createdAt: ±1})`, `countDocuments`,
    `$addToSet`, `$pull` and `Array.prototype.filter`. */
module Listing {
  import opened Base

  /** True when `r` lists, each with its id and once, exactly the documents of
      `m` below id `n` that satisfy `keep`. */
  ghost predicate Selects<T>(r: seq<(Id, T)>, m: map<Id, T>, keep: T -> bool, n: nat) {
    && (forall i | 0 <= i < |r| :: r[i].0 < n && r[i].0 in m && r[i].1 == m[r[i].0] && keep(r[i].1))
    && (forall k | k in m && k < n && keep(m[k]) :: (k, m[k]) in r)
  }

  /** The documents with id below `n` that satisfy `keep`, oldest first. */
  function Ascending<T>(m: map<Id, T>, keep: T -> bool, n: nat): (r: seq<(Id, T)>)
    ensures Selects(r, m, keep, n)
    ensures forall i, j | 0 <= i < j < |r| :: r[i].0 < r[j].0
  {
    if n == 0 then []
    else
      var rest := Ascending(m, keep, n - 1);
      if n - 1 in m && keep(m[n - 1]) then rest + [(n - 1, m[n - 1])] else rest
  }

  /** The documents with id below `n` that satisfy `keep`, newest first. */
  function Descending<T>(m: map<Id, T>, keep: T -> bool, n: nat): (r: seq<(Id, T)>)
    ensures Selects(r, m, keep, n)
    ensures forall i, j | 0 <= i < j < |r| :: r[i].0 > r[j].0
  {
    if n == 0 then []
    else
      var rest := Descending(m, keep, n - 1);
      if n - 1 in m && keep(m[n - 1]) then [(n - 1, m[n - 1])] + rest else rest
  }

  function Reverse<T>(xs: seq<T>): (r: seq<T>)
    ensures |r| == |xs|
    ensures forall i | 0 <= i < |xs| :: r[i] == xs[|xs| - 1 - i]
  {
    if xs == [] then [] else Reverse(xs[1..]) + [xs[0]]
  }

  /** Newest first is oldest first read backwards. */
  lemma {:induction false} DescendingIsReversed<T>(m: map<Id, T>, keep: T -> bool, n: nat)
    ensures Descending(m, keep, n) == Reverse(Ascending(m, keep, n))
  {
    if n > 0 {
      DescendingIsReversed(m, keep, n - 1);
      var a := Ascending(m, keep, n - 1);
      if n - 1 in m && keep(m[n - 1]) {
        ReverseAppend(a, (n - 1, m[n - 1]));
      }
    }
  }

  /** Reversing a list with one more value at the end puts that value first. */
  lemma ReverseAppend<T>(xs: seq<T>, x: T)
    ensures Reverse(xs + [x]) == [x] + Reverse(xs)
  {
    var l, r := Reverse(xs + [x]), [x] + Reverse(xs);
    assert |l| == |r|;
    forall i | 0 <= i < |l|
      ensures l[i] == r[i]
    {
      if i > 0 {
        assert l[i] == (xs + [x])[|xs| - i];
      }
    }
  }

  /** The ids of the documents that satisfy `keep`. */
  function Matching<T>(m: map<Id, T>, keep: T -> bool): (r: set<Id>)
    ensures forall k :: k in r <==> k in m && keep(m[k])
  {
    set k | k in m && keep(m[k])
  }

  /** `countDocuments(filter)`. */
  function Count<T>(m: map<Id, T>, keep: T -> bool): nat {
    |Matching(m, keep)|
  }

  /** The ids below `n` of the documents that satisfy `keep`. */
  function MatchingBelow<T>(m: map<Id, T>, keep: T -> bool, n: nat): set<Id> {
    set k | k in m && k < n && keep(m[k])
  }

  /** When every id is below `n`, the listing has exactly as many entries as
      `countDocuments` reports. */
  lemma CountIsListingLength<T>(m: map<Id, T>, keep: T -> bool, n: nat)
    requires forall k | k in m :: k < n
    ensures |Ascending(m, keep, n)| == Count(m, keep)
  {
    AscendingLength(m, keep, n);
    assert Matching(m, keep) == MatchingBelow(m, keep, n);
  }

  /** The number of matching documents below `n`, counted one id at a time. */
  function Tally<T>(m: map<Id, T>, keep: T -> bool, n: nat): nat {
    if n == 0 then 0
    else Tally(m, keep, n - 1) + if n - 1 in m && keep(m[n - 1]) then 1 else 0
  }

  lemma AscendingLength<T>(m: map<Id, T>, keep: T -> bool, n: nat)
    ensures |Ascending(m, keep, n)| == |MatchingBelow(m, keep, n)|
  {
    AscendingTally(m, keep, n);
    MatchingBelowTally(m, keep, n);
  }

  lemma {:induction false} AscendingTally<T>(m: map<Id, T>, keep: T -> bool, n: nat)
    ensures |Ascending(m, keep, n)| == Tally(m, keep, n)
  {
    if n > 0 {
      AscendingTally(m, keep, n - 1);
    }
  }

  lemma {:induction false} MatchingBelowTally<T>(m: map<Id, T>, keep: T -> bool, n: nat)
    ensures |MatchingBelow(m, keep, n)| == Tally(m, keep, n)
  {
    if n > 0 {
      MatchingBelowTally(m, keep, n - 1);
      var below := MatchingBelow(m, keep, n - 1);
      if n - 1 in m && keep(m[n - 1]) {
        assert MatchingBelow(m, keep, n) == below + {n - 1};
      } else {
        assert MatchingBelow(m, keep, n) == below;
      }
    }
  }

  /** No value occurs twice. */
  predicate Distinct<T(==)>(xs: seq<T>) {
    forall i, j | 0 <= i < j < |xs| :: xs[i] != xs[j]
  }

  /** `$addToSet`: append `x` unless it is already present. */
  function AddToSet<T(==)>(xs: seq<T>, x: T): (r: seq<T>)
    ensures x in r && forall y | y in r :: y in xs || y == x
    ensures |xs| <= |r| <= |xs| + 1 && r[..|xs|] == xs
    ensures Distinct(xs) ==> Distinct(r)
    ensures x in xs ==> r == xs
  {
    if x in xs then xs else xs + [x]
  }

  /** Adding a value that is already present changes nothing; in particular
      adding the same value twice is the same as adding it once. */
  lemma AddToSetIdempotent<T>(xs: seq<T>, x: T)
    ensures AddToSet(AddToSet(xs, x), x) == AddToSet(xs, x)
  {
  }

  /** `r` is obtained from `xs` by leaving out some of its elements, so the
      elements it keeps stay in their order. */
  predicate Subsequence<T(==)>(r: seq<T>, xs: seq<T>)
    decreases |xs|
  {
    r == [] || (xs != [] && ((r[0] == xs[0] && Subsequence(r[1..], xs[1..])) || Subsequence(r, xs[1..])))
  }

  /** `$pull` and `filter(y => y != x)`: drop every occurrence of `x` and keep
      the other values with their multiplicities and, by `PullKeepsOrder`,
      in their order. */
  function Pull<T(==)>(xs: seq<T>, x: T): (r: seq<T>)
    ensures multiset(r) == multiset(xs)[x := 0]
    ensures x !in xs ==> r == xs
  {
    if xs == [] then []
    else
      var rest := Pull(xs[1..], x);
      assert xs == [xs[0]] + xs[1..];
      if xs[0] == x then rest else [xs[0]] + rest
  }

  /** A pull only leaves values out, so the values it keeps stay in order. */
  lemma {:induction false} PullKeepsOrder<T>(xs: seq<T>, x: T)
    ensures Subsequence(Pull(xs, x), xs)
  {
    if xs != [] {
      PullKeepsOrder(xs[1..], x);
      var rest := Pull(xs[1..], x);
      if xs[0] != x {
        assert ([xs[0]] + rest)[1..] == rest;
      }
    }
  }

  /** Membership after a pull: everything but `x` stays. */
  lemma PullMembership<T>(xs: seq<T>, x: T)
    ensures forall y :: y in Pull(xs, x) <==> y in xs && y != x
  {
    var r := Pull(xs, x);
    forall y
      ensures y in r <==> y in xs && y != x
    {
      assert y in r <==> y in multiset(r);
      assert y in xs <==> y in multiset(xs);
    }
  }

  /** A pull keeps a list free of duplicates. */
  lemma {:induction false} PullDistinct<T>(xs: seq<T>, x: T)
    ensures Distinct(xs) ==> Distinct(Pull(xs, x))
  {
    if xs != [] && Distinct(xs) {
      assert Distinct(xs[1..]);
      PullDistinct(xs[1..], x);
      PullMembership(xs[1..], x);
      assert xs[0] !in xs[1..];
    }
  }
}
