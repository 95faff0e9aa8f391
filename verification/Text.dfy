/** Strings in the byte order `sort.Strings` uses. */
module Text {
  import opened Sorting

  predicate Leq(a: string, b: string) {
    a == [] || (b != [] && (a[0] < b[0] || (a[0] == b[0] && Leq(a[1..], b[1..]))))
  }

  lemma {:induction false} LeqTotal(a: string, b: string)
    ensures Leq(a, b) || Leq(b, a)
    ensures Leq(a, b) && Leq(b, a) ==> a == b
  {
    if a != [] && b != [] {
      LeqTotal(a[1..], b[1..]);
      assert a == [a[0]] + a[1..] && b == [b[0]] + b[1..];
    }
  }

  lemma {:induction false} LeqTransitive(a: string, b: string, c: string)
    requires Leq(a, b) && Leq(b, c)
    ensures Leq(a, c)
  {
    if a != [] && b != [] && c != [] && a[0] == b[0] == c[0] { LeqTransitive(a[1..], b[1..], c[1..]); }
  }

  /** `i` is the first place where the two differ, and `a` has the smaller character there. */
  predicate LessAt(a: string, b: string, i: nat) {
    i < |a| && i < |b| && a[..i] == b[..i] && a[i] < b[i]
  }

  lemma LessAtTail(a: string, b: string, i: nat)
    requires a != [] && b != [] && a[0] == b[0]
    ensures LessAt(a, b, i + 1) <==> LessAt(a[1..], b[1..], i)
    ensures !LessAt(a, b, 0)
  {
    if i < |a[1..]| && i < |b[1..]| {
      assert a[..i + 1] == [a[0]] + a[1..][..i] && b[..i + 1] == [b[0]] + b[1..][..i];
      assert a[..i + 1][1..] == a[1..][..i] && b[..i + 1][1..] == b[1..][..i];
    }
  }

  /** The order is that of a dictionary: fronts first, then the first difference decides. */
  lemma {:induction false} LeqIsLexicographic(a: string, b: string)
    ensures Leq(a, b) <==> a <= b || exists i: nat :: LessAt(a, b, i)
  {
    if a != [] && b != [] && a[0] == b[0] {
      LeqIsLexicographic(a[1..], b[1..]);
      assert a == [a[0]] + a[1..] && b == [b[0]] + b[1..];
      if i: nat :| LessAt(a[1..], b[1..], i) { LessAtTail(a, b, i); }
      if i: nat :| LessAt(a, b, i) { LessAtTail(a, b, if i > 0 then i - 1 else 0); }
    } else if a != [] && b != [] && a[0] < b[0] {
      assert LessAt(a, b, 0);
    }
  }

  lemma LeqAntisymmetric()
    ensures forall a, b :: Leq(a, b) && Leq(b, a) ==> a == b
  {
    forall a, b | Leq(a, b) && Leq(b, a) ensures a == b { LeqTotal(a, b); }
  }

  lemma LeqIsOrder()
    ensures TotalPreorder(Leq)
  {
    forall a, b ensures Leq(a, b) || Leq(b, a) { LeqTotal(a, b); }
    forall a, b, c | Leq(a, b) && Leq(b, c) ensures Leq(a, c) { LeqTransitive(a, b, c); }
  }

  /** `sort.Strings`: the one sorted permutation. */
  function SortStrings(s: seq<string>): (r: seq<string>)
    ensures Sorted(r, Leq) && multiset(r) == multiset(s)
  {
    LeqIsOrder();
    SortedSeq(s, Leq)
  }

  /** The members of a set in order: what filling a list from a map and sorting gives. */
  ghost function SortedSet(s: set<string>): (r: seq<string>)
    ensures Sorted(r, Leq) && NoDuplicates(r)
    ensures forall x :: x in r <==> x in s
  {
    if s == {} then []
    else
      var x :| x in s;
      var rest := SortedSet(s - {x});
      var r := (LeqIsOrder(); Inserted(rest, x, Leq));
      InsertedMembers(rest, x, r);
      r
  }

  lemma InsertedMembers(rest: seq<string>, x: string, r: seq<string>)
    requires multiset(r) == multiset(rest) + multiset{x} && x !in rest && NoDuplicates(rest)
    ensures NoDuplicates(r)
    ensures forall y :: y in r <==> y in rest || y == x
  {
    assert multiset(r) == multiset([x] + rest);
    SameMembers(r, [x] + rest);
    PermutationKeepsNoDuplicates(r, [x] + rest);
  }

  lemma {:induction false} DistinctSameMultiset(s: seq<string>, t: seq<string>)
    requires NoDuplicates(s) && NoDuplicates(t)
    requires forall x :: x in s <==> x in t
    ensures multiset(s) == multiset(t)
  {
    forall x ensures multiset(s)[x] == multiset(t)[x] {
      OnceIn(s, x);
      OnceIn(t, x);
      assert x in s <==> x in multiset(s);
      assert x in t <==> x in multiset(t);
    }
  }

  /** Sorting any duplicate-free listing of a set gives its one ordered listing. */
  lemma SortedSetUnique(list: seq<string>, s: set<string>)
    requires NoDuplicates(list) && forall x :: x in list <==> x in s
    ensures SortStrings(list) == SortedSet(s)
  {
    DistinctSameMultiset(list, SortedSet(s));
    LeqAntisymmetric();
    SortedUnique(SortStrings(list), SortedSet(s), Leq);
  }

  // `strings.TrimSpace`, for ASCII space.

  predicate IsSpace(c: char) {
    c == ' ' || c == '\t' || c == '\n' || c == '\r'
  }

  function TrimSpace(s: string): string {
    if s != [] && IsSpace(s[0]) then TrimSpace(s[1..])
    else if s != [] && IsSpace(s[|s| - 1]) then TrimSpace(s[..|s| - 1])
    else s
  }

  lemma {:induction false} TrimSpaceIdempotent(s: string)
    ensures TrimSpace(TrimSpace(s)) == TrimSpace(s)
    decreases |s|
  {
    if s != [] && IsSpace(s[0]) { TrimSpaceIdempotent(s[1..]); }
    else if s != [] && IsSpace(s[|s| - 1]) { TrimSpaceIdempotent(s[..|s| - 1]); }
  }

  predicate BlankChar(c: char) {
    c in {' ', '\t', '\n', '\r'}
  }

  predicate Blank(s: string) {
    forall i :: 0 <= i < |s| ==> BlankChar(s[i])
  }

  /** Nothing but the blanks around it is taken off a text. */
  lemma {:induction false} TrimSpaceMeans(before: string, s: string, after: string)
    requires Blank(before) && Blank(after)
    requires s != [] ==> !BlankChar(s[0]) && !BlankChar(s[|s| - 1])
    ensures TrimSpace(before + s + after) == s
    decreases |before| + |after|
  {
    var all := before + s + after;
    if before != [] {
      assert all[0] == before[0] && all[1..] == before[1..] + s + after;
      TrimSpaceMeans(before[1..], s, after);
    } else if after != [] && s != [] {
      assert all[0] == s[0];
      assert all[|all| - 1] == after[|after| - 1] && all[..|all| - 1] == before + s + after[..|after| - 1];
      TrimSpaceMeans(before, s, after[..|after| - 1]);
    } else if after != [] {
      assert all[0] == after[0] && all[1..] == before + s + after[1..];
      TrimSpaceMeans(before, s, after[1..]);
    } else {
      assert all == s;
    }
  }
}
