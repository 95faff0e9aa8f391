/** IPv4 addresses and CIDR prefixes (section 3.1 of RFC 4632), as `net/netip` defines
    them.  `Shift` and `Up` are `>>` and `<<`, written one bit at a time so that every
    fact below is linear arithmetic. */
module Prefixes {

  function Shift(a: nat, k: nat): nat {
    if k == 0 then a else Shift(a, k - 1) / 2
  }

  function Up(x: nat, k: nat): nat
    decreases k
  {
    if k == 0 then x else Up(2 * x, k - 1)
  }

  const SPACE: nat := 0x1_0000_0000

  type Address = a: nat | a < SPACE

  datatype RawPrefix = Prefix(addr: nat, bits: nat)

  /** `netip.Prefix` as the builder sees it: valid, IPv4, but not necessarily masked. */
  type Prefix = p: RawPrefix | p.bits <= 32 && p.addr < SPACE witness Prefix(0, 0)

  /** The network number: the leading `bits` bits of the address. */
  function Net(p: Prefix): nat {
    Shift(p.addr, 32 - p.bits)
  }

  predicate Contains(p: Prefix, a: Address) {
    Shift(a, 32 - p.bits) == Net(p)
  }

  function First(p: Prefix): nat {
    Up(Net(p), 32 - p.bits)
  }

  /** How many addresses a prefix covers. */
  function Size(p: Prefix): nat {
    Up(1, 32 - p.bits)
  }

  function Masked(p: Prefix): (m: Prefix) {
    FirstInSpace(p);
    Prefix(First(p), p.bits)
  }

  predicate IsMasked(p: Prefix) {
    Masked(p) == p
  }

  function Min(x: int, y: int): int {
    if x <= y then x else y
  }

  /** `netip.Prefix.Overlaps`: the two agree on the bits of the wider one. */
  predicate Overlaps(p: Prefix, q: Prefix) {
    var m := 32 - Min(p.bits, q.bits);
    Shift(p.addr, m) == Shift(q.addr, m)
  }

  function Parent(p: Prefix): Prefix
    requires p.bits > 0
  {
    Masked(Prefix(p.addr, p.bits - 1))
  }

  /** Every address of `q` is an address of `p`. */
  predicate Inside(q: Prefix, p: Prefix) {
    p.bits <= q.bits && Contains(p, q.addr)
  }

  predicate Covers(list: seq<Prefix>, a: Address) {
    exists i :: 0 <= i < |list| && Contains(list[i], a)
  }

  ghost function Cover(list: seq<Prefix>): set<Address> {
    set a: Address | 0 <= a < SPACE && Covers(list, a)
  }

  // ----- shifting

  lemma {:induction false} UpMonotone(x: nat, y: nat, k: nat)
    requires x <= y
    ensures Up(x, k) <= Up(y, k)
    ensures x < y ==> Up(x, k) < Up(y, k)
    decreases k
  {
    if k > 0 { UpMonotone(2 * x, 2 * y, k - 1); }
  }

  /** The addresses with network number `x` are one interval. */
  lemma {:induction false} ShiftIsInterval(a: nat, x: nat, k: nat)
    ensures Shift(a, k) == x <==> Up(x, k) <= a < Up(x + 1, k)
    decreases k
  {
    if k > 0 {
      ShiftIsInterval(a, 2 * x, k - 1);
      ShiftIsInterval(a, 2 * x + 1, k - 1);
      UpMonotone(2 * x, 2 * x + 1, k - 1);
      UpMonotone(2 * x + 1, 2 * x + 2, k - 1);
    }
  }

  lemma {:induction false} UpStep(x: nat, k: nat)
    ensures Up(x + 1, k) == Up(x, k) + Up(1, k)
    decreases k
  {
    if k > 0 {
      UpStep(2 * x, k - 1);
      UpStep(2 * x + 1, k - 1);
      UpStep(1, k - 1);
    }
  }

  lemma {:induction false} UpUp(x: nat, i: nat, j: nat)
    ensures Up(Up(x, i), j) == Up(x, i + j)
    decreases i
  {
    if i > 0 { UpUp(2 * x, i - 1, j); }
  }

  /** Shifting further never tells apart what a shorter shift identified. */
  lemma {:induction false} ShiftCoarser(a: nat, b: nat, i: nat, j: nat)
    requires i <= j && Shift(a, i) == Shift(b, i)
    ensures Shift(a, j) == Shift(b, j)
    decreases j
  {
    if i < j { ShiftCoarser(a, b, i, j - 1); }
  }

  lemma {:induction false} ShiftBelow(a: nat, z: nat, k: nat)
    requires a < Up(z, k)
    ensures Shift(a, k) < z
  {
    ShiftIsInterval(a, Shift(a, k), k);
    if z <= Shift(a, k) { UpMonotone(z, Shift(a, k), k); }
  }

  lemma UpByEight(x: nat)
    ensures Up(x, 8) == 256 * x
  {
    assert Up(x, 8) == Up(4 * x, 6);
    assert Up(4 * x, 6) == Up(16 * x, 4);
    assert Up(16 * x, 4) == Up(64 * x, 2);
  }

  lemma SpaceIsUp()
    ensures Up(1, 32) == SPACE
  {
    UpByEight(1);
    UpUp(1, 8, 8);
    UpByEight(0x100);
    UpUp(1, 16, 8);
    UpByEight(0x1_0000);
    UpUp(1, 24, 8);
    UpByEight(0x100_0000);
  }

  /** A network number of `bits` bits, moved back up, stays in the address space. */
  lemma NetInSpace(x: nat, bits: nat)
    requires bits <= 32 && x < Up(1, bits)
    ensures Up(x, 32 - bits) < Up(x + 1, 32 - bits) <= SPACE
  {
    SpaceIsUp();
    UpUp(1, bits, 32 - bits);
    UpMonotone(x + 1, Up(1, bits), 32 - bits);
    UpMonotone(x, x + 1, 32 - bits);
  }

  lemma NetBound(p: Prefix)
    ensures Net(p) < Up(1, p.bits)
  {
    SpaceIsUp();
    UpUp(1, p.bits, 32 - p.bits);
    ShiftBelow(p.addr, Up(1, p.bits), 32 - p.bits);
  }

  lemma FirstInSpace(p: Prefix)
    ensures First(p) < SPACE
  {
    NetBound(p);
    NetInSpace(Net(p), p.bits);
  }

  // ----- prefixes

  /** A prefix covers exactly `Size(p)` consecutive addresses, from its first one. */
  lemma PrefixIsInterval(p: Prefix, a: Address)
    ensures Contains(p, a) <==> First(p) <= a < First(p) + Size(p)
    ensures First(p) + Size(p) <= SPACE
    ensures Size(p) >= 1
  {
    ShiftIsInterval(a, Net(p), 32 - p.bits);
    UpStep(Net(p), 32 - p.bits);
    NetBound(p);
    NetInSpace(Net(p), p.bits);
  }

  lemma NetOfUp(x: nat, k: nat)
    ensures Shift(Up(x, k), k) == x
  {
    ShiftIsInterval(Up(x, k), x, k);
    UpMonotone(x, x + 1, k);
  }

  lemma MaskedSameNet(p: Prefix)
    ensures Net(Masked(p)) == Net(p)
    ensures IsMasked(Masked(p))
    ensures forall a: Address :: Contains(Masked(p), a) <==> Contains(p, a)
  {
    NetOfUp(Net(p), 32 - p.bits);
  }

  lemma InsideCovered(q: Prefix, p: Prefix, a: Address)
    requires Inside(q, p) && Contains(q, a)
    ensures Contains(p, a)
  {
    ShiftCoarser(a, q.addr, 32 - q.bits, 32 - p.bits);
  }

  lemma InsideTransitive(r: Prefix, q: Prefix, p: Prefix)
    requires Inside(r, q) && Inside(q, p)
    ensures Inside(r, p)
  {
    InsideCovered(q, p, r.addr);
  }

  /** Two prefixes sharing an address are nested, the narrower in the wider. */
  lemma Nested(q: Prefix, p: Prefix, a: Address)
    requires p.bits <= q.bits && Contains(q, a) && Contains(p, a)
    ensures Inside(q, p)
  {
    ShiftCoarser(a, q.addr, 32 - q.bits, 32 - p.bits);
  }

  /** `Overlaps` answers whether two prefixes share an address. */
  lemma OverlapsMeansShared(p: Prefix, q: Prefix)
    ensures Overlaps(p, q) <==> exists a: Address :: Contains(p, a) && Contains(q, a)
  {
    if Overlaps(p, q) {
      var a: Address := if p.bits <= q.bits then q.addr else p.addr;
      assert Contains(p, a) && Contains(q, a);
    }
    if a: Address :| Contains(p, a) && Contains(q, a) {
      if p.bits <= q.bits { Nested(q, p, a); } else { Nested(p, q, a); }
    }
  }

  lemma MaskedEqual(p: Prefix, q: Prefix)
    requires IsMasked(p) && IsMasked(q) && p.bits == q.bits && Net(p) == Net(q)
    ensures p == q
  {
  }

  /** The lower and upper half of a prefix that has one. */
  function Half(p: Prefix, upper: bool): Prefix
    requires p.bits < 32
  {
    var x := 2 * Net(p) + if upper then 1 else 0;
    assert Up(x, 31 - p.bits) < SPACE by {
      NetBound(p);
      UpStep(0, p.bits);
      assert Up(1, p.bits + 1) == Up(2, p.bits);
      UpStep(1, p.bits);
      NetInSpace(x, p.bits + 1);
    }
    Prefix(Up(x, 31 - p.bits), p.bits + 1)
  }

  lemma HalfNet(p: Prefix, upper: bool)
    requires p.bits < 32
    ensures Net(Half(p, upper)) == 2 * Net(p) + if upper then 1 else 0
    ensures IsMasked(Half(p, upper))
    ensures Inside(Half(p, upper), p)
  {
    NetOfUp(2 * Net(p) + if upper then 1 else 0, 31 - p.bits);
  }

  lemma HalvesSplit(p: Prefix, a: Address)
    requires p.bits < 32
    ensures Contains(p, a) <==> Contains(Half(p, false), a) || Contains(Half(p, true), a)
  {
    HalfNet(p, false);
    HalfNet(p, true);
  }

  predicate Siblings(p: Prefix, q: Prefix) {
    p.bits == q.bits && p.bits > 0 && Net(p) % 2 == 0 && Net(q) == Net(p) + 1
  }

  lemma ParentNet(p: Prefix)
    requires p.bits > 0
    ensures Net(Parent(p)) == Net(p) / 2
    ensures IsMasked(Parent(p)) && Inside(p, Parent(p))
  {
    MaskedSameNet(Prefix(p.addr, p.bits - 1));
  }
}
