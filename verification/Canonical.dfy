/** What a compacted list is: determined by the addresses it covers, the shortest list
    that covers them, and counted without error. */
module CanonicalForm {
  import opened Sorting
  import opened Prefixes
  import opened Compaction

  ghost predicate SameCover(x: seq<Prefix>, y: seq<Prefix>) {
    forall a: Address :: Covers(x, a) <==> Covers(y, a)
  }

  ghost predicate CoversAll(list: seq<Prefix>, p: Prefix) {
    forall a: Address :: Contains(p, a) ==> Covers(list, a)
  }

  /** A list without sibling pairs that covers a whole prefix holds one entry around it:
      no prefix is ever covered only piece by piece. */
  lemma {:induction false} WholePrefixHasOneEntry(list: seq<Prefix>, p: Prefix) returns (k: nat)
    requires AllMasked(list) && NoSiblings(list) && CoversAll(list, p)
    ensures k < |list| && Inside(p, list[k])
    decreases 32 - p.bits
  {
    if p.bits == 32 {
      assert Contains(p, p.addr);
      k :| 0 <= k < |list| && Contains(list[k], p.addr);
    } else {
      forall upper, a: Address | Contains(Half(p, upper), a) ensures Covers(list, a) { HalvesSplit(p, a); }
      HalfNet(p, false);
      HalfNet(p, true);
      k := WholePrefixHasOneEntry(list, Half(p, false));
      var l := WholePrefixHasOneEntry(list, Half(p, true));
      if list[k].bits <= p.bits {
        HalfInsideMeansWhole(p, false, list[k]);
      } else if list[l].bits <= p.bits {
        HalfInsideMeansWhole(p, true, list[l]);
        k := l;
      } else {
        TightEntriesAreSiblings(p, list[k], list[l]);
      }
    }
  }

  lemma TightEntriesAreSiblings(p: Prefix, q: Prefix, r: Prefix)
    requires p.bits < 32 && q.bits > p.bits && r.bits > p.bits
    requires Inside(Half(p, false), q) && Inside(Half(p, true), r)
    ensures Siblings(q, r)
  {
    HalfNet(p, false);
    HalfNet(p, true);
  }

  lemma HalfInsideMeansWhole(p: Prefix, upper: bool, q: Prefix)
    requires p.bits < 32 && q.bits <= p.bits && Inside(Half(p, upper), q)
    ensures Inside(p, q)
  {
    HalfNet(p, upper);
    Nested(p, q, Half(p, upper).addr);
  }

  /** Overlapping entries of a disjoint list are the same entry. */
  lemma OneEntryPerAddress(list: seq<Prefix>, i: nat, j: nat, a: Address)
    requires Disjoint(list) && i < |list| && j < |list| && Contains(list[i], a) && Contains(list[j], a)
    ensures i == j
  {
    OverlapsMeansShared(list[i], list[j]);
    OverlapsMeansShared(list[j], list[i]);
  }

  lemma MembersOfSameCover(x: seq<Prefix>, y: seq<Prefix>, i: nat)
    requires Canonical(x) && Canonical(y) && SameCover(x, y) && i < |x|
    ensures x[i] in y
  {
    var p := x[i];
    forall a: Address | Contains(p, a) ensures Covers(y, a) { assert Covers(x, a); }
    var j := WholePrefixHasOneEntry(y, p);
    var q := y[j];
    forall a: Address | Contains(q, a) ensures Covers(x, a) { assert Covers(y, a); }
    var k := WholePrefixHasOneEntry(x, q);
    InsideTransitive(p, q, x[k]);
    assert Contains(p, p.addr);
    OneEntryPerAddress(x, i, k, p.addr);
    MaskedEqual(p, q);
  }

  /** Canonical: two compacted lists covering the same addresses are the same sequence. */
  lemma CanonicalIsUnique(x: seq<Prefix>, y: seq<Prefix>)
    requires Canonical(x) && Canonical(y) && SameCover(x, y)
    ensures x == y
  {
    forall p ensures p in x <==> p in y {
      if p in x { var i :| 0 <= i < |x| && x[i] == p; MembersOfSameCover(x, y, i); }
      if p in y { var i :| 0 <= i < |y| && y[i] == p; MembersOfSameCover(y, x, i); }
    }
    var below := (p: Prefix, q: Prefix) => p.addr < q.addr;
    CanonicalAscends(x);
    CanonicalAscends(y);
    AscendingUnique(x, y, below);
  }

  lemma CanonicalAscends(x: seq<Prefix>)
    requires Canonical(x)
    ensures forall i, j :: 0 <= i < j < |x| ==> x[i].addr < x[j].addr
  {
    forall i, j | 0 <= i < j < |x| ensures x[i].addr < x[j].addr {
      assert InOrder(x[i], x[j]) && !Overlaps(x[i], x[j]);
    }
  }

  /** Minimal: no prefix list whatever with the same coverage has fewer entries. */
  lemma CanonicalIsShortest(x: seq<Prefix>, y: seq<Prefix>)
    requires Canonical(x) && SameCover(x, y)
    ensures |x| <= |y|
  {
    forall i: nat | i < |x| ensures Covers(y, x[i].addr) { FirstIsCovered(x, y, i); }
    var owner := map i: nat | i < |x| :: EntryAt(y, x[i].addr);
    forall i: nat, j: nat | i < j < |x| ensures owner[i] != owner[j] { OwnersDiffer(x, y, i, j); }
    InjectionBoundsLength(|x|, |y|, owner);
  }

  lemma FirstIsCovered(x: seq<Prefix>, y: seq<Prefix>, i: nat)
    requires SameCover(x, y) && i < |x|
    ensures Covers(y, x[i].addr)
  {
    assert Contains(x[i], x[i].addr);
  }

  /** Each entry of `x` owns an entry of `y`, and no entry of `y` reaches into two of `x`. */
  lemma OwnersDiffer(x: seq<Prefix>, y: seq<Prefix>, i: nat, j: nat)
    requires Canonical(x) && SameCover(x, y) && i < j < |x|
    requires Covers(y, x[i].addr) && Covers(y, x[j].addr)
    ensures EntryAt(y, x[i].addr) != EntryAt(y, x[j].addr)
  {
    var m := EntryAt(y, x[i].addr);
    forall a: Address | Contains(y[m], a) ensures Covers(x, a) { assert Covers(y, a); }
    var k := WholePrefixHasOneEntry(x, y[m]);
    InsideCovered(y[m], x[k], x[i].addr);
    OneEntryPerAddress(x, i, k, x[i].addr);
    if Contains(y[m], x[j].addr) {
      InsideCovered(y[m], x[k], x[j].addr);
      OneEntryPerAddress(x, j, k, x[j].addr);
    }
  }

  ghost function EntryAt(list: seq<Prefix>, a: Address): (k: nat)
    requires Covers(list, a)
    ensures k < |list| && Contains(list[k], a)
  {
    var k :| 0 <= k < |list| && Contains(list[k], a);
    k
  }

  // ----- counting

  predicate InInterval(a: int, lo: nat, n: nat) {
    lo <= a < lo + n
  }

  ghost function Interval(lo: nat, n: nat): set<Address> {
    set a: Address | 0 <= a < SPACE && InInterval(a, lo, n)
  }

  lemma {:induction false} IntervalSize(lo: nat, n: nat)
    requires lo + n <= SPACE
    ensures |Interval(lo, n)| == n
    decreases n
  {
    if n == 0 {
      assert Interval(lo, n) == {};
    } else {
      IntervalSize(lo, n - 1);
      assert Interval(lo, n) == Interval(lo, n - 1) + {lo + n - 1};
    }
  }

  ghost function CoverOf(p: Prefix): set<Address> {
    set a: Address | 0 <= a < SPACE && Contains(p, a)
  }

  lemma PrefixSize(p: Prefix)
    ensures |CoverOf(p)| == Size(p)
  {
    forall a: Address ensures Contains(p, a) <==> InInterval(a, First(p), Size(p)) { PrefixIsInterval(p, a); }
    PrefixIsInterval(p, 0);
    assert CoverOf(p) == Interval(First(p), Size(p));
    IntervalSize(First(p), Size(p));
  }

  /** The sum of the sizes of a disjoint list is the number of addresses it covers. */
  lemma {:induction false} TotalSizeCountsCover(list: seq<Prefix>)
    requires Disjoint(list)
    ensures TotalSize(list) == |Cover(list)|
  {
    if list == [] {
      assert Cover(list) == {};
    } else {
      var front, p := list[..|list| - 1], list[|list| - 1];
      TotalSizeCountsCover(front);
      PrefixSize(p);
      assert list == front + [p];
      forall a: Address ensures Covers(list, a) <==> Covers(front, a) || Contains(p, a) {
        CoversConcat(front, [p], a);
        CoversOne(p, a);
      }
      assert Cover(list) == Cover(front) + CoverOf(p);
      forall a: Address | Covers(front, a) ensures !Contains(p, a) {
        var i :| 0 <= i < |front| && Contains(front[i], a);
        if Contains(p, a) { OneEntryPerAddress(list, i, |list| - 1, a); }
      }
      assert Cover(front) * CoverOf(p) == {};
    }
  }

  lemma CoverFitsSpace(list: seq<Prefix>)
    ensures |Cover(list)| <= SPACE
  {
    IntervalSize(0, SPACE);
    SubsetSize(Cover(list), Interval(0, SPACE));
  }

  /** On a compacted list the 64-bit sum never wraps: it is the number of distinct
      addresses covered, at most 2^32. */
  lemma CountIsExact(list: seq<Prefix>)
    requires Canonical(list)
    ensures TotalSize(list) % 0x1_0000_0000_0000_0000 == |Cover(list)| <= SPACE
  {
    TotalSizeCountsCover(list);
    CoverFitsSpace(list);
  }
}
