/** Compaction of a prefix list to a fixpoint, and why its result is the canonical and
    the shortest list with its coverage although only neighbours are ever merged. */
module Compaction {
  import opened Sorting
  import opened Prefixes

  /** The order `sortPrefixes` asks for: by address, the wider prefix first. */
  predicate InOrder(p: Prefix, q: Prefix) {
    p.addr < q.addr || (p.addr == q.addr && p.bits <= q.bits)
  }

  predicate AllMasked(list: seq<Prefix>) {
    forall i :: 0 <= i < |list| ==> IsMasked(list[i])
  }

  predicate Disjoint(list: seq<Prefix>) {
    forall i, j :: 0 <= i < j < |list| ==> !Overlaps(list[i], list[j])
  }

  predicate NoSiblings(list: seq<Prefix>) {
    forall i, j :: 0 <= i < |list| && 0 <= j < |list| ==> !Siblings(list[i], list[j])
  }

  ghost predicate Canonical(list: seq<Prefix>) {
    AllMasked(list) && Sorted(list, InOrder) && Disjoint(list) && NoSiblings(list)
  }

  // ----- the operations

  method Compact(input: seq<Prefix>) returns (list: seq<Prefix>)
    ensures Canonical(list)
    ensures forall a: Address :: Covers(list, a) <==> Covers(input, a)
  {
    var uniq: set<Prefix> := {};
    for i := 0 to |input|
      invariant forall p :: p in uniq ==> exists k :: 0 <= k < i && p == Masked(input[k])
      invariant forall k :: 0 <= k < i ==> Masked(input[k]) in uniq
    {
      uniq := uniq + {Masked(input[i])};
    }
    // The map is walked in an order the language leaves open.
    list := [];
    var rest := uniq;
    while rest != {}
      invariant NoDuplicates(list)
      invariant forall p :: p in uniq <==> p in list || p in rest
      invariant forall p :: p in list ==> p !in rest
    {
      var p :| p in rest;
      list, rest := list + [p], rest - {p};
    }
    MaskingKeepsCover(input, list);
    list := SortPrefixes(list);
    while true
      invariant NoDuplicates(list) && AllMasked(list)
      invariant forall a: Address :: Covers(list, a) <==> Covers(input, a)
      decreases |list|
    {
      ghost var before := list;
      list := DropCovered(list);
      DropCoveredIsDisjoint(before);
      forall a: Address ensures Covers(list, a) <==> Covers(before, a) { DropCoveredKeepsCover(before, a); }
      var merged, changed := MergeSiblings(list);
      SortedPassFacts(list, merged, changed);
      list := merged;
      if !changed {
        return;
      }
    }
  }

  method SortPrefixes(list: seq<Prefix>) returns (r: seq<Prefix>)
    ensures Sorted(r, InOrder)
    ensures multiset(r) == multiset(list)
    ensures NoDuplicates(list) ==> NoDuplicates(r)
    ensures AllMasked(list) ==> AllMasked(r)
    ensures forall a: Address :: Covers(r, a) <==> Covers(list, a)
  {
    r := Sort(list, InOrder);
    SameMembers(r, list);
    if NoDuplicates(list) { PermutationKeepsNoDuplicates(r, list); }
    assert forall i :: 0 <= i < |r| ==> r[i] in list;
    forall a: Address ensures Covers(r, a) <==> Covers(list, a) { CoversByMembers(r, list, a); }
  }

  method DropCovered(list: seq<Prefix>) returns (out: seq<Prefix>)
    ensures out == Uncovered(list, |list|)
  {
    out := [];
    for i := 0 to |list|
      invariant out == Uncovered(list, i)
    {
      var covered := false;
      var j := 0;
      while j < |list| && !covered
        invariant 0 <= j <= |list|
        invariant covered <==> exists k :: 0 <= k < j && WiderOver(list, k, i)
      {
        if i != j && list[j].bits < list[i].bits && Overlaps(list[j], list[i]) {
          assert WiderOver(list, j, i);
          covered := true;
        }
        j := j + 1;
      }
      if !covered {
        out := out + [list[i]];
      }
    }
  }

  method MergeSiblings(list: seq<Prefix>) returns (out: seq<Prefix>, changed: bool)
    ensures exists s :: Sorted(s, InOrder) && multiset(s) == multiset(list) && (out, changed) == MergeFrom(s, 0)
  {
    var s := SortPrefixes(list);
    out, changed := [], false;
    var i := 0;
    while i < |s|
      invariant 0 <= i <= |s|
      invariant out + MergeFrom(s, i).0 == MergeFrom(s, 0).0
      invariant (changed || MergeFrom(s, i).1) == MergeFrom(s, 0).1
    {
      if i + 1 < |s| && Mergeable(s[i], s[i + 1]) {
        Reassociate(out, Parent(s[i]), MergeFrom(s, i + 2).0);
        out := out + [Parent(s[i])];
        i := i + 2;
        changed := true;
      } else {
        Reassociate(out, s[i], MergeFrom(s, i + 1).0);
        out := out + [s[i]];
        i := i + 1;
      }
    }
    assert out + [] == out && (out, changed) == MergeFrom(s, 0);
  }

  /** `n` is the running uint64 sum, wrapping at 2^64 as the source's does. */
  method CountAddresses(list: seq<Prefix>) returns (n: nat)
    ensures n == TotalSize(list) % 0x1_0000_0000_0000_0000
  {
    n := 0;
    for i := 0 to |list|
      invariant n == TotalSize(list[..i]) % 0x1_0000_0000_0000_0000
    {
      n := (n + Size(list[i])) % 0x1_0000_0000_0000_0000;
      assert list[..i + 1][..i] == list[..i];
    }
    assert list[..|list|] == list;
  }

  // ----- what each pass computes

  ghost predicate WiderOver(list: seq<Prefix>, j: int, i: int)
    requires 0 <= i < |list| && 0 <= j < |list|
  {
    i != j && list[j].bits < list[i].bits && Overlaps(list[j], list[i])
  }

  ghost predicate IsCovered(list: seq<Prefix>, i: int)
    requires 0 <= i < |list|
  {
    exists j :: 0 <= j < |list| && WiderOver(list, j, i)
  }

  /** Those of the first `n` entries that no strictly wider entry covers. */
  ghost function Uncovered(list: seq<Prefix>, n: nat): seq<Prefix>
    requires n <= |list|
  {
    if n == 0 then []
    else Uncovered(list, n - 1) + if IsCovered(list, n - 1) then [] else [list[n - 1]]
  }

  /** The test `mergeSiblings` makes on two neighbours. */
  predicate Mergeable(a: Prefix, b: Prefix) {
    && a.bits == b.bits && a.bits > 0
    && var parent := Parent(a);
       Contains(parent, a.addr) && Contains(parent, b.addr) && Masked(a) == a && parent.addr == a.addr
  }

  /** The left-to-right merge of neighbours, from index `i` on. */
  function MergeFrom(list: seq<Prefix>, i: nat): (seq<Prefix>, bool)
    requires i <= |list|
    decreases |list| - i
  {
    if i == |list| then ([], false)
    else if i + 1 < |list| && Mergeable(list[i], list[i + 1]) then
      ([Parent(list[i])] + MergeFrom(list, i + 2).0, true)
    else
      ([list[i]] + MergeFrom(list, i + 1).0, MergeFrom(list, i + 1).1)
  }

  function TotalSize(list: seq<Prefix>): nat {
    if list == [] then 0 else TotalSize(list[..|list| - 1]) + Size(list[|list| - 1])
  }

  // ----- lists

  lemma Reassociate(r: seq<Prefix>, p: Prefix, s: seq<Prefix>)
    ensures (r + [p]) + s == r + ([p] + s)
  {
  }

  lemma CoversByMembers(r: seq<Prefix>, s: seq<Prefix>, a: Address)
    requires forall p :: p in r <==> p in s
    ensures Covers(r, a) <==> Covers(s, a)
  {
    if i :| 0 <= i < |r| && Contains(r[i], a) { assert r[i] in s; }
    if i :| 0 <= i < |s| && Contains(s[i], a) { assert s[i] in r; }
  }

  lemma CoversConcat(r: seq<Prefix>, s: seq<Prefix>, a: Address)
    ensures Covers(r + s, a) <==> Covers(r, a) || Covers(s, a)
  {
    if i :| 0 <= i < |r| && Contains(r[i], a) { assert (r + s)[i] == r[i]; }
    if i :| 0 <= i < |s| && Contains(s[i], a) { assert (r + s)[|r| + i] == s[i]; }
  }

  lemma MaskingKeepsCover(input: seq<Prefix>, list: seq<Prefix>)
    requires forall p :: p in list ==> exists k :: 0 <= k < |input| && p == Masked(input[k])
    requires forall k :: 0 <= k < |input| ==> Masked(input[k]) in list
    ensures AllMasked(list)
    ensures forall a: Address :: Covers(list, a) <==> Covers(input, a)
  {
    forall i | 0 <= i < |list| ensures IsMasked(list[i]) {
      assert list[i] in list;
      var k :| 0 <= k < |input| && list[i] == Masked(input[k]);
      MaskedSameNet(input[k]);
    }
    forall a: Address ensures Covers(list, a) <==> Covers(input, a) {
      if i :| 0 <= i < |list| && Contains(list[i], a) {
        assert list[i] in list;
        var k :| 0 <= k < |input| && list[i] == Masked(input[k]);
        MaskedSameNet(input[k]);
      }
      if k :| 0 <= k < |input| && Contains(input[k], a) {
        MaskedSameNet(input[k]);
        var i :| 0 <= i < |list| && list[i] == Masked(input[k]);
        assert Contains(list[i], a);
      }
    }
  }

  // ----- dropping covered prefixes

  lemma {:induction false} UncoveredMembers(list: seq<Prefix>, n: nat)
    requires n <= |list|
    ensures |Uncovered(list, n)| <= n
    ensures forall p :: p in Uncovered(list, n) <==> exists i :: 0 <= i < n && list[i] == p && !IsCovered(list, i)
  {
    if n > 0 { UncoveredMembers(list, n - 1); }
  }

  /** An address survives: its widest covering entry is never dropped. */
  lemma {:induction false} WidestSurvives(list: seq<Prefix>, i: int, a: Address)
    requires 0 <= i < |list| && Contains(list[i], a)
    ensures Covers(Uncovered(list, |list|), a)
    decreases list[i].bits
  {
    UncoveredMembers(list, |list|);
    if IsCovered(list, i) {
      var j :| 0 <= j < |list| && WiderOver(list, j, i);
      assert Inside(list[i], list[j]);
      InsideCovered(list[i], list[j], a);
      WidestSurvives(list, j, a);
    } else {
      assert list[i] in Uncovered(list, |list|);
      var k :| 0 <= k < |Uncovered(list, |list|)| && Uncovered(list, |list|)[k] == list[i];
    }
  }

  lemma DropCoveredKeepsCover(list: seq<Prefix>, a: Address)
    ensures Covers(Uncovered(list, |list|), a) <==> Covers(list, a)
  {
    UncoveredMembers(list, |list|);
    if i :| 0 <= i < |list| && Contains(list[i], a) { WidestSurvives(list, i, a); }
    if k :| 0 <= k < |Uncovered(list, |list|)| && Contains(Uncovered(list, |list|)[k], a) {
      assert Uncovered(list, |list|)[k] in Uncovered(list, |list|);
    }
  }

  lemma {:induction false} UncoveredNoDuplicates(list: seq<Prefix>, n: nat)
    requires n <= |list| && NoDuplicates(list)
    ensures NoDuplicates(Uncovered(list, n))
  {
    if n > 0 {
      UncoveredNoDuplicates(list, n - 1);
      UncoveredMembers(list, n - 1);
      var before := Uncovered(list, n - 1);
      assert forall i :: 0 <= i < |before| ==> before[i] in before;
    }
  }

  /** From a list without repeats, what is left shares no address. */
  lemma DropCoveredIsDisjoint(list: seq<Prefix>)
    requires NoDuplicates(list) && AllMasked(list)
    ensures var out := Uncovered(list, |list|);
      |out| <= |list| && AllMasked(out) && NoDuplicates(out) && Disjoint(out)
  {
    var out := Uncovered(list, |list|);
    UncoveredMembers(list, |list|);
    UncoveredNoDuplicates(list, |list|);
    forall i | 0 <= i < |out| ensures IsMasked(out[i]) { assert out[i] in out; }
    forall i, j | 0 <= i < j < |out| ensures !Overlaps(out[i], out[j]) {
      assert out[i] in out && out[j] in out;
      var k :| 0 <= k < |list| && list[k] == out[i] && !IsCovered(list, k);
      var l :| 0 <= l < |list| && list[l] == out[j] && !IsCovered(list, l);
      assert !WiderOver(list, k, l) && !WiderOver(list, l, k);
      if Overlaps(out[i], out[j]) {
        MaskedEqual(out[i], out[j]);
      }
    }
  }

  // ----- merging neighbours

  /** On masked neighbours the test accepts siblings, and two copies of a lower half. */
  lemma MergeableMeaning(a: Prefix, b: Prefix)
    requires IsMasked(a) && IsMasked(b)
    ensures Mergeable(a, b) <==> Siblings(a, b) || (a == b && a.bits > 0 && Net(a) % 2 == 0)
  {
    if a.bits > 0 && a.bits == b.bits {
      ParentNet(a);
      ShiftedParent(a);
      ShiftedParent(b);
    }
  }

  lemma ShiftedParent(a: Prefix)
    requires IsMasked(a) && a.bits > 0
    ensures Shift(a.addr, 33 - a.bits) == Net(a) / 2
    ensures Parent(a).addr == a.addr <==> Net(a) % 2 == 0
  {
    ParentNet(a);
    assert Parent(a).addr == Up(Net(a) / 2, 33 - a.bits) == Up(2 * (Net(a) / 2), 32 - a.bits);
    UpMonotone(2 * (Net(a) / 2), Net(a), 32 - a.bits);
  }

  /** Merging two neighbours that pass the test keeps exactly their coverage if and only
      if they are not the same prefix twice: hence the map at the head of `Compact`. */
  lemma MergeIsExactUnlessRepeated(a: Prefix, b: Prefix)
    requires IsMasked(a) && IsMasked(b) && Mergeable(a, b)
    ensures (forall x: Address :: Contains(Parent(a), x) <==> Contains(a, x) || Contains(b, x)) <==> a != b
  {
    MergeableMeaning(a, b);
    ParentNet(a);
    if a != b {
      forall x: Address ensures Contains(Parent(a), x) <==> Contains(a, x) || Contains(b, x) {}
    } else {
      HalfNet(Parent(a), true);
      var x := Half(Parent(a), true).addr;
      HalvesSplit(Parent(a), x);
      assert Contains(Parent(a), x) && !Contains(a, x);
    }
  }

  lemma {:induction false} MergeKeepsCover(list: seq<Prefix>, i: nat, x: Address)
    requires i <= |list| && AllMasked(list) && NoDuplicates(list)
    ensures Covers(MergeFrom(list, i).0, x) <==> Covers(list[i..], x)
    decreases |list| - i
  {
    if i < |list| {
      if i + 1 < |list| && Mergeable(list[i], list[i + 1]) {
        MergeKeepsCover(list, i + 2, x);
        MergeIsExactUnlessRepeated(list[i], list[i + 1]);
        CoversConcat([Parent(list[i])], MergeFrom(list, i + 2).0, x);
        assert list[i..] == [list[i], list[i + 1]] + list[i + 2..];
        CoversConcat([list[i], list[i + 1]], list[i + 2..], x);
        CoversPair(list[i], list[i + 1], x);
        CoversOne(Parent(list[i]), x);
      } else {
        MergeKeepsCover(list, i + 1, x);
        CoversConcat([list[i]], MergeFrom(list, i + 1).0, x);
        assert list[i..] == [list[i]] + list[i + 1..];
        CoversConcat([list[i]], list[i + 1..], x);
      }
    }
  }

  lemma CoversOne(p: Prefix, x: Address)
    ensures Covers([p], x) <==> Contains(p, x)
  {
    if Contains(p, x) { assert [p][0] == p; }
  }

  lemma CoversPair(p: Prefix, q: Prefix, x: Address)
    ensures Covers([p, q], x) <==> Contains(p, x) || Contains(q, x)
  {
    assert [p, q] == [p] + [q];
    CoversConcat([p], [q], x);
    CoversOne(p, x);
    CoversOne(q, x);
  }

  /** The merged list stays masked and free of repeats, and shrinks when it changed. */
  lemma {:induction false} MergeKeepsShape(list: seq<Prefix>, i: nat)
    requires i <= |list| && AllMasked(list) && NoDuplicates(list) && Disjoint(list)
    ensures var (out, changed) := MergeFrom(list, i);
      AllMasked(out) && NoDuplicates(out) && |out| <= |list| - i && (changed ==> |out| < |list| - i)
    decreases |list| - i
  {
    if i < |list| {
      var two := i + 1 < |list| && Mergeable(list[i], list[i + 1]);
      var next := if two then i + 2 else i + 1;
      var head := if two then Parent(list[i]) else list[i];
      var rest := MergeFrom(list, next).0;
      MergeKeepsShape(list, next);
      if two { ParentNet(list[i]); }
      if head in rest { HeadSharesNothing(list, i, next, head); }
    }
  }

  /** What merges into the rest covers none of the entry at the head. */
  lemma HeadSharesNothing(list: seq<Prefix>, i: nat, next: nat, head: Prefix)
    requires i < next <= |list| && AllMasked(list) && NoDuplicates(list) && Disjoint(list)
    requires Contains(head, list[i].addr)
    ensures head !in MergeFrom(list, next).0
  {
    var rest, x := MergeFrom(list, next).0, list[i].addr;
    if k :| 0 <= k < |rest| && rest[k] == head {
      assert Contains(rest[k], x);
      MergeKeepsCover(list, next, x);
      var j :| 0 <= j < |list[next..]| && Contains(list[next..][j], x);
      OverlapsMeansShared(list[i], list[next + j]);
    }
  }

  lemma {:induction false} UnchangedMeansNoneMergeable(list: seq<Prefix>, i: nat)
    requires i <= |list| && !MergeFrom(list, i).1
    ensures MergeFrom(list, i).0 == list[i..]
    ensures forall k :: i <= k < |list| - 1 ==> !Mergeable(list[k], list[k + 1])
    decreases |list| - i
  {
    if i < |list| { UnchangedMeansNoneMergeable(list, i + 1); }
  }

  /** In a sorted disjoint list a sibling pair can only be two neighbours. */
  lemma SiblingsAreNeighbours(list: seq<Prefix>, i: int, j: int)
    requires AllMasked(list) && Sorted(list, InOrder) && Disjoint(list)
    requires 0 <= i < |list| && 0 <= j < |list| && Siblings(list[i], list[j])
    ensures j == i + 1
  {
    if i + 1 < j { BetweenSiblings(list[i], list[i + 1], list[j]); }
    if j < i { UpMonotone(Net(list[i]), Net(list[j]), 32 - list[i].bits); }
  }

  /** A prefix sorting between two siblings shares an address with one of them. */
  lemma BetweenSiblings(p: Prefix, r: Prefix, q: Prefix)
    requires IsMasked(p) && IsMasked(r) && IsMasked(q)
    requires Siblings(p, q) && InOrder(p, r) && InOrder(r, q)
    ensures Overlaps(p, r) || Overlaps(r, q)
  {
    UpStep(Net(p), 32 - p.bits);
    PrefixIsInterval(p, r.addr);
    OverlapsMeansShared(p, r);
    OverlapsMeansShared(r, q);
    assert Contains(r, r.addr);
  }

  /** One pass of the loop, put together. */
  lemma SortedPassFacts(list: seq<Prefix>, out: seq<Prefix>, changed: bool)
    requires AllMasked(list) && NoDuplicates(list) && Disjoint(list)
    requires exists s :: Sorted(s, InOrder) && multiset(s) == multiset(list) && (out, changed) == MergeFrom(s, 0)
    ensures AllMasked(out) && NoDuplicates(out)
    ensures forall a: Address :: Covers(out, a) <==> Covers(list, a)
    ensures changed ==> |out| < |list|
    ensures !changed ==> Canonical(out)
  {
    var s :| Sorted(s, InOrder) && multiset(s) == multiset(list) && (out, changed) == MergeFrom(s, 0);
    SameMembers(s, list);
    PermutationKeepsNoDuplicates(s, list);
    PermutationKeepsDisjoint(s, list);
    assert forall i :: 0 <= i < |s| ==> s[i] in list;
    MergeKeepsShape(s, 0);
    assert s[0..] == s;
    forall a: Address ensures Covers(out, a) <==> Covers(list, a) {
      MergeKeepsCover(s, 0, a);
      CoversByMembers(s, list, a);
    }
    if !changed {
      UnchangedMeansNoneMergeable(s, 0);
      forall i, j | 0 <= i < |s| && 0 <= j < |s| ensures !Siblings(s[i], s[j]) {
        if Siblings(s[i], s[j]) {
          SiblingsAreNeighbours(s, i, j);
          MergeableMeaning(s[i], s[j]);
        }
      }
    }
  }

  lemma PermutationKeepsDisjoint(r: seq<Prefix>, s: seq<Prefix>)
    requires multiset(r) == multiset(s) && NoDuplicates(s) && Disjoint(s)
    ensures Disjoint(r)
  {
    SameMembers(r, s);
    PermutationKeepsNoDuplicates(r, s);
    forall i, j | 0 <= i < j < |r| ensures !Overlaps(r[i], r[j]) {
      assert r[i] in s && r[j] in s;
    }
  }
}
