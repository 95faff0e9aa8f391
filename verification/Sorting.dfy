/** Sorting as the Go library promises it: a sorted permutation, with ties in any
    order.  `sort.Slice` is not stable, so nothing more may be relied on. */
module Sorting {

  ghost predicate TotalPreorder<T(!new)>(leq: (T, T) -> bool) {
    && (forall x, y :: leq(x, y) || leq(y, x))
    && (forall x, y, z :: leq(x, y) && leq(y, z) ==> leq(x, z))
  }

  ghost predicate Sorted<T>(s: seq<T>, leq: (T, T) -> bool) {
    forall i, j :: 0 <= i < j < |s| ==> leq(s[i], s[j])
  }

  ghost predicate NoDuplicates<T>(s: seq<T>) {
    forall i, j :: 0 <= i < j < |s| ==> s[i] != s[j]
  }

  ghost function Elements<T>(s: seq<T>): set<T> {
    set x | x in s
  }

  /** A sorted permutation, as a function. */
  function SortedSeq<T(!new)>(s: seq<T>, leq: (T, T) -> bool): (r: seq<T>)
    requires TotalPreorder(leq)
    ensures Sorted(r, leq) && multiset(r) == multiset(s)
  {
    if s == [] then []
    else
      assert s == s[..|s| - 1] + [s[|s| - 1]];
      Inserted(SortedSeq(s[..|s| - 1], leq), s[|s| - 1], leq)
  }

  function Inserted<T(!new)>(s: seq<T>, x: T, leq: (T, T) -> bool): (r: seq<T>)
    requires TotalPreorder(leq) && Sorted(s, leq)
    ensures Sorted(r, leq) && multiset(r) == multiset(s) + multiset{x}
  {
    var k := Place(s, |s|, x, leq);
    if k > 0 then
      AllBelow(s, k, x, leq);
      Spliced(s, k, x, leq)
    else Spliced(s, k, x, leq)
  }

  function Spliced<T>(s: seq<T>, k: nat, x: T, leq: (T, T) -> bool): (r: seq<T>)
    requires Sorted(s, leq) && k <= |s|
    requires forall j :: 0 <= j < k ==> leq(s[j], x)
    requires forall j :: k <= j < |s| ==> leq(x, s[j])
    ensures Sorted(r, leq) && multiset(r) == multiset(s) + multiset{x}
  {
    InsertionSorted(s, k, x, leq);
    assert s == s[..k] + s[k..];
    s[..k] + [x] + s[k..]
  }

  /** Where `x` goes, looking down from index `n`. */
  function Place<T(!new)>(s: seq<T>, n: nat, x: T, leq: (T, T) -> bool): (k: nat)
    requires TotalPreorder(leq) && n <= |s| && forall j :: n <= j < |s| ==> leq(x, s[j])
    ensures k <= n && (k > 0 ==> leq(s[k - 1], x))
    ensures forall j :: k <= j < |s| ==> leq(x, s[j])
  {
    if n == 0 || leq(s[n - 1], x) then n else Place(s, n - 1, x, leq)
  }

  method Sort<T(!new)>(s: seq<T>, leq: (T, T) -> bool) returns (r: seq<T>)
    requires TotalPreorder(leq)
    ensures Sorted(r, leq)
    ensures multiset(r) == multiset(s)
  {
    r := [];
    for n := 0 to |s|
      invariant Sorted(r, leq)
      invariant multiset(r) == multiset(s[..n])
    {
      r := Insert(r, s[n], leq);
      assert s[..n + 1] == s[..n] + [s[n]];
    }
    assert s[..|s|] == s;
  }

  method Insert<T(!new)>(s: seq<T>, x: T, leq: (T, T) -> bool) returns (r: seq<T>)
    requires TotalPreorder(leq)
    requires Sorted(s, leq)
    ensures Sorted(r, leq)
    ensures multiset(r) == multiset(s) + multiset{x}
  {
    var k := |s|;
    while k > 0 && !leq(s[k - 1], x)
      invariant 0 <= k <= |s|
      invariant forall j :: k <= j < |s| ==> leq(x, s[j])
    {
      k := k - 1;
    }
    if k > 0 { AllBelow(s, k, x, leq); }
    InsertionSorted(s, k, x, leq);
    assert s == s[..k] + s[k..];
    r := s[..k] + [x] + s[k..];
  }

  lemma AllBelow<T(!new)>(s: seq<T>, k: nat, x: T, leq: (T, T) -> bool)
    requires TotalPreorder(leq) && Sorted(s, leq) && 0 < k <= |s| && leq(s[k - 1], x)
    ensures forall j :: 0 <= j < k ==> leq(s[j], x)
  {
    forall j | 0 <= j < k ensures leq(s[j], x) {
      assert j < k - 1 ==> leq(s[j], s[k - 1]);
    }
  }

  lemma InsertionSorted<T>(s: seq<T>, k: nat, x: T, leq: (T, T) -> bool)
    requires Sorted(s, leq) && k <= |s|
    requires forall j :: 0 <= j < k ==> leq(s[j], x)
    requires forall j :: k <= j < |s| ==> leq(x, s[j])
    ensures Sorted(s[..k] + [x] + s[k..], leq)
  {
  }

  lemma SameMembers<T>(r: seq<T>, s: seq<T>)
    requires multiset(r) == multiset(s)
    ensures |r| == |s|
    ensures forall x :: x in r <==> x in s
  {
    assert |multiset(r)| == |multiset(s)|;
    forall x ensures x in r <==> x in s {
      assert x in r <==> x in multiset(r);
      assert x in s <==> x in multiset(s);
    }
  }

  /** A permutation of a duplicate-free list is duplicate-free. */
  lemma PermutationKeepsNoDuplicates<T>(r: seq<T>, s: seq<T>)
    requires multiset(r) == multiset(s)
    requires NoDuplicates(s)
    ensures NoDuplicates(r)
  {
    forall i, j | 0 <= i < j < |r| ensures r[i] != r[j] {
      if r[i] == r[j] {
        var x := r[i];
        assert r == r[..i] + [x] + r[i + 1..j] + [x] + r[j + 1..];
        assert multiset(r)[x] >= 2;
        OnceIn(s, x);
      }
    }
  }

  lemma ConcatNoDuplicates<T>(s: seq<T>, t: seq<T>)
    requires NoDuplicates(s) && NoDuplicates(t) && forall x :: x in s ==> x !in t
    ensures NoDuplicates(s + t)
  {
    forall i, j | 0 <= i < j < |s + t| ensures (s + t)[i] != (s + t)[j] {
      if i < |s| <= j { assert s[i] in s && t[j - |s|] in t; }
    }
  }

  lemma OnceIn<T>(s: seq<T>, x: T)
    requires NoDuplicates(s)
    ensures multiset(s)[x] <= 1
  {
    if s != [] {
      var t := s[..|s| - 1];
      assert s == t + [s[|s| - 1]];
      OnceIn(t, x);
    }
  }

  lemma HeadsAgree<T>(s: seq<T>, t: seq<T>, leq: (T, T) -> bool)
    requires s != [] && t != [] && Sorted(s, leq) && Sorted(t, leq)
    requires s[0] in t && t[0] in s
    requires forall x, y :: x in s && y in s && leq(x, y) && leq(y, x) ==> x == y
    ensures s[0] == t[0]
  {
    var i :| 0 <= i < |s| && s[i] == t[0];
    var j :| 0 <= j < |t| && t[j] == s[0];
    if i > 0 && j > 0 {
      assert leq(s[0], s[i]) && leq(t[0], t[j]);
      assert s[0] in s && s[i] in s;
    }
  }

  /** A list sorted by an order that ties only equal members is determined by what it holds. */
  lemma {:induction false} SortedUnique<T(!new)>(s: seq<T>, t: seq<T>, leq: (T, T) -> bool)
    requires Sorted(s, leq) && Sorted(t, leq) && multiset(s) == multiset(t)
    requires forall x, y :: x in s && y in s && leq(x, y) && leq(y, x) ==> x == y
    ensures s == t
  {
    SameMembers(s, t);
    if s != [] {
      assert s[0] in s && t[0] in t;
      HeadsAgree(s, t, leq);
      TailsAgree(s, t);
      assert forall x :: x in s[1..] ==> x in s;
      SortedUnique(s[1..], t[1..], leq);
      assert s == [s[0]] + s[1..] && t == [t[0]] + t[1..];
    }
  }

  lemma TailsAgree<T>(s: seq<T>, t: seq<T>)
    requires s != [] && t != [] && s[0] == t[0] && multiset(s) == multiset(t)
    ensures multiset(s[1..]) == multiset(t[1..])
  {
    assert s == [s[0]] + s[1..] && t == [t[0]] + t[1..];
    assert multiset(s[1..]) == multiset(s) - multiset{s[0]};
    assert multiset(t[1..]) == multiset(t) - multiset{t[0]};
  }

  /** A list in strictly ascending order is determined by its members. */
  lemma {:induction false} AscendingUnique<T(!new)>(r: seq<T>, s: seq<T>, less: (T, T) -> bool)
    requires forall x, y :: less(x, y) ==> !less(y, x)
    requires forall x :: !less(x, x)
    requires Sorted(r, less) && Sorted(s, less)
    requires forall x :: x in r <==> x in s
    ensures r == s
  {
    assert r != [] ==> r[0] in r;
    assert s != [] ==> s[0] in s;
    if r != [] && s != [] {
      assert r[0] == s[0];
      forall x ensures x in r[1..] <==> x in s[1..] {
        if x in r[1..] { assert x in s && x != s[0]; }
        if x in s[1..] { assert x in r && x != r[0]; }
      }
      AscendingUnique(r[1..], s[1..], less);
    }
  }

  /** Mapping the indices of one list injectively into another shows it is no longer. */
  lemma {:induction false} InjectionBoundsLength(n: nat, m: nat, f: map<nat, nat>)
    requires forall i :: 0 <= i < n ==> i in f && f[i] < m
    requires forall i, j :: 0 <= i < j < n ==> f[i] != f[j]
    ensures n <= m
  {
    if n > 0 {
      assert f[n - 1] < m;
      // Swap the image of the last index with m - 1, then drop both.
      var g := map i: nat | i < n - 1 :: if f[i] == m - 1 then f[n - 1] else f[i];
      InjectionBoundsLength(n - 1, m - 1, g);
    }
  }

  lemma {:induction false} SubsetSize<T>(a: set<T>, b: set<T>)
    requires a <= b
    ensures |a| <= |b|
  {
    if a != {} {
      var x :| x in a;
      SubsetSize(a - {x}, b - {x});
    }
  }
}
