/** The profile builder: observed addresses, checked against published sources and
    widened, become the narrow list of prefixes a client routes. */
module Profile {
  import opened Wrappers
  import opened Sorting
  import opened Prefixes
  import opened Compaction
  import opened CanonicalForm

  datatype Addr = V4(value: Address) | NotV4

  datatype Source = Source(prefix: Prefix, region: string, anycast: bool)

  datatype Options = Options(maxPrefixWidth: int, narrowestPrefixWidth: int, maxTotalAddresses: nat)

  datatype Match = Match(addr: Address, source: Source)

  /** A profile.  `invalid` says that the list opens with the prefix library's invalid
      prefix, which is what widening beyond 32 bits gives: it covers nothing, overlaps and
      merges with nothing, sorts first, and is counted as 2^33 addresses. */
  datatype Built = Built(cidrs: seq<Prefix>, invalid: bool, unverified: seq<Address>, appliedWidth: int, totalAddresses: nat)

  const INVALID_SIZE: nat := 0x2_0000_0000

  datatype Error = NoSources | Unreachable

  // ----- the operations

  method Build(observed: seq<Addr>, sources: seq<Source>, opt: Options) returns (r: Result<Built, Error>)
    ensures r == Err(NoSources) <==> sources == []
    ensures r == Err(Unreachable) <==> sources != [] && opt.maxPrefixWidth > opt.narrowestPrefixWidth
    ensures r.Ok? ==> IsProfile(observed, sources, opt, r.value)
  {
    if |sources| == 0 {
      return Err(NoSources);
    }
    var matched, unverified := [], [];
    for i := 0 to |observed|
      invariant matched == Matched(observed, sources, i)
      invariant unverified == Unmatched(observed, sources, i)
    {
      if observed[i].V4? {
        var m := MatchAddr(observed[i].value, sources);
        match m
        case Some(v) => matched := matched + [v];
        case None => unverified := unverified + [observed[i].value];
      }
    }
    hide Canonical, Contains, Spoilt, Matched, Unmatched, MatchOf, Cover, ProfileCover, ProfileTotal;
    var width := opt.maxPrefixWidth;
    while width <= opt.narrowestPrefixWidth
      invariant opt.maxPrefixWidth <= width
      invariant opt.maxPrefixWidth <= opt.narrowestPrefixWidth ==> width <= opt.narrowestPrefixWidth
      invariant forall w :: opt.maxPrefixWidth <= w < width && w <= opt.narrowestPrefixWidth ==>
                ProfileTotal(matched, w) > opt.maxTotalAddresses
    {
      var prefixes, invalid, total := Attempt(matched, width);
      if total <= opt.maxTotalAddresses || width == opt.narrowestPrefixWidth {
        return Ok(Built(prefixes, invalid, unverified, width, total));
      }
      width := width + 1;
    }
    return Err(Unreachable);
  }

  /** The profile at one width: widened, compacted and counted. */
  method Attempt(matched: seq<Match>, width: int) returns (prefixes: seq<Prefix>, invalid: bool, total: nat)
    ensures Canonical(prefixes) && Cover(prefixes) == ProfileCover(matched, width)
    ensures invalid == Spoilt(matched, width) && total == ProfileTotal(matched, width)
  {
    hide Canonical, Contains, Covers, InProfile, Spoilt, Widened, Cover, ProfileCover;
    var widened;
    widened, invalid := WidenAll(matched, width);
    prefixes := Compact(widened);
    WidenedCovers(matched, width, prefixes);
    total := CountAddresses(prefixes);
    CountIsExact(prefixes);
    if invalid {
      total := (total + INVALID_SIZE) % 0x1_0000_0000_0000_0000;
    }
  }

  method MatchAddr(a: Address, sources: seq<Source>) returns (m: Option<Match>)
    ensures m == MatchOf(a, sources)
  {
    var best := -1;
    for i := 0 to |sources|
      invariant best == BestSource(a, sources, i)
    {
      if Contains(sources[i].prefix, a) && (best == -1 || sources[i].prefix.bits > sources[best].prefix.bits) {
        best := i;
      }
    }
    return if best == -1 then None else Some(Match(a, sources[best]));
  }

  method WidenAll(ms: seq<Match>, width: int) returns (out: seq<Prefix>, invalid: bool)
    ensures out == Widened(ms, width, |ms|)
    ensures invalid <==> Spoilt(ms, width)
  {
    out, invalid := [], false;
    for i := 0 to |ms|
      invariant out == Widened(ms, width, i)
      invariant invalid <==> exists j :: 0 <= j < i && !Routable(ms[j], width)
    {
      if Routable(ms[i], width) {
        out := out + [Widen(ms[i], width)];
      } else {
        invalid := true;
      }
    }
  }

  /** A published source is never longer than 32 bits, so only the width can be. */
  predicate Routable(m: Match, width: int) {
    m.source.anycast || width <= 32
  }

  function Widen(m: Match, width: int): Prefix
    requires Routable(m, width)
  {
    if m.source.anycast then Prefix(m.addr, 32)
    else Masked(Prefix(m.addr, if m.source.prefix.bits < width then width else m.source.prefix.bits))
  }

  // ----- what they compute

  /** Index of the narrowest of the first `n` sources around `a`, or -1. */
  function BestSource(a: Address, sources: seq<Source>, n: nat): (best: int)
    requires n <= |sources|
    ensures -1 <= best < n
  {
    if n == 0 then -1
    else
      var best := BestSource(a, sources, n - 1);
      var s := sources[n - 1].prefix;
      if Contains(s, a) && (best == -1 || s.bits > sources[best].prefix.bits) then n - 1 else best
  }

  function MatchOf(a: Address, sources: seq<Source>): Option<Match> {
    var best := BestSource(a, sources, |sources|);
    if best == -1 then None else Some(Match(a, sources[best]))
  }

  ghost function Matched(observed: seq<Addr>, sources: seq<Source>, n: nat): seq<Match>
    requires n <= |observed|
  {
    if n == 0 then []
    else
      var front := Matched(observed, sources, n - 1);
      if !observed[n - 1].V4? then front
      else match MatchOf(observed[n - 1].value, sources)
        case Some(m) => front + [m]
        case None => front
  }

  ghost function Unmatched(observed: seq<Addr>, sources: seq<Source>, n: nat): seq<Address>
    requires n <= |observed|
  {
    if n == 0 then []
    else
      var front := Unmatched(observed, sources, n - 1);
      if !observed[n - 1].V4? || MatchOf(observed[n - 1].value, sources).Some? then front
      else front + [observed[n - 1].value]
  }

  /** The valid prefixes of the first `n` matches, in order. */
  ghost function Widened(ms: seq<Match>, width: int, n: nat): seq<Prefix>
    requires n <= |ms|
  {
    if n == 0 then []
    else Widened(ms, width, n - 1) + if Routable(ms[n - 1], width) then [Widen(ms[n - 1], width)] else []
  }

  /** Some match is widened out of what a prefix can be. */
  ghost predicate Spoilt(ms: seq<Match>, width: int) {
    exists i :: 0 <= i < |ms| && !Routable(ms[i], width)
  }

  /** What the matches cover once each is widened to `width`. */
  ghost predicate InProfile(ms: seq<Match>, width: int, a: Address) {
    exists i :: 0 <= i < |ms| && Routable(ms[i], width) && Contains(Widen(ms[i], width), a)
  }

  ghost function ProfileCover(ms: seq<Match>, width: int): set<Address> {
    set a: Address | 0 <= a < SPACE && InProfile(ms, width, a)
  }

  ghost function ProfileTotal(ms: seq<Match>, width: int): nat {
    |ProfileCover(ms, width)| + if Spoilt(ms, width) then INVALID_SIZE else 0
  }

  lemma {:induction false} WidenedMembers(ms: seq<Match>, width: int, n: nat, a: Address)
    requires n <= |ms|
    ensures Covers(Widened(ms, width, n), a) <==>
      exists i :: 0 <= i < n && Routable(ms[i], width) && Contains(Widen(ms[i], width), a)
  {
    if n > 0 {
      WidenedMembers(ms, width, n - 1, a);
      var last := if Routable(ms[n - 1], width) then [Widen(ms[n - 1], width)] else [];
      CoversConcat(Widened(ms, width, n - 1), last, a);
      if Routable(ms[n - 1], width) { CoversOne(Widen(ms[n - 1], width), a); }
    }
  }

  lemma WidenedCovers(ms: seq<Match>, width: int, list: seq<Prefix>)
    requires forall a: Address :: Covers(list, a) <==> Covers(Widened(ms, width, |ms|), a)
    ensures Cover(list) == ProfileCover(ms, width)
  {
    forall a: Address ensures Covers(list, a) <==> InProfile(ms, width, a) { WidenedMembers(ms, width, |ms|, a); }
  }

  ghost function AllMatched(observed: seq<Addr>, sources: seq<Source>): seq<Match> {
    Matched(observed, sources, |observed|)
  }

  /** A built profile: the canonical list of what the matches cover at the applied width,
      which is the first allowed width that fits the cap, or the floor. */
  ghost predicate IsProfile(observed: seq<Addr>, sources: seq<Source>, opt: Options, b: Built) {
    var ms := AllMatched(observed, sources);
    && opt.maxPrefixWidth <= b.appliedWidth <= opt.narrowestPrefixWidth
    && Canonical(b.cidrs)
    && Cover(b.cidrs) == ProfileCover(ms, b.appliedWidth)
    && b.invalid == Spoilt(ms, b.appliedWidth)
    && b.totalAddresses == ProfileTotal(ms, b.appliedWidth)
    && b.unverified == Unmatched(observed, sources, |observed|)
    && (b.totalAddresses <= opt.maxTotalAddresses || b.appliedWidth == opt.narrowestPrefixWidth)
    && forall w :: opt.maxPrefixWidth <= w < b.appliedWidth ==> ProfileTotal(ms, w) > opt.maxTotalAddresses
  }

  // ----- matching

  /** The narrowest containing source wins, the first of equals; none when none contains. */
  lemma {:induction false} BestSourceIsNarrowest(a: Address, sources: seq<Source>, n: nat)
    requires n <= |sources|
    ensures var best := BestSource(a, sources, n);
      && (best == -1 <==> forall i :: 0 <= i < n ==> !Contains(sources[i].prefix, a))
      && (best != -1 ==>
            && Contains(sources[best].prefix, a)
            && (forall i :: 0 <= i < n && Contains(sources[i].prefix, a) ==>
                  sources[i].prefix.bits <= sources[best].prefix.bits)
            && forall i :: 0 <= i < best && Contains(sources[i].prefix, a) ==>
                 sources[i].prefix.bits < sources[best].prefix.bits)
  {
    if n > 0 { BestSourceIsNarrowest(a, sources, n - 1); }
  }

  /** `m` is the match some observed address produced. */
  ghost predicate IsMatch(observed: seq<Addr>, sources: seq<Source>, m: Match) {
    V4(m.addr) in observed && MatchOf(m.addr, sources) == Some(m)
  }

  lemma {:induction false} MatchedMembers(observed: seq<Addr>, sources: seq<Source>, n: nat)
    requires n <= |observed|
    ensures forall m :: m in Matched(observed, sources, n) <==>
      (exists i :: 0 <= i < n && observed[i] == V4(m.addr)) && MatchOf(m.addr, sources) == Some(m)
    ensures forall a: Address :: a in Unmatched(observed, sources, n) <==>
      (exists i :: 0 <= i < n && observed[i] == V4(a)) && MatchOf(a, sources).None?
  {
    if n > 0 {
      MatchedMembers(observed, sources, n - 1);
      var last := observed[n - 1];
      if last.V4? { BestSourceIsNarrowest(last.value, sources, |sources|); }
    }
  }

  lemma InProfileMeans(observed: seq<Addr>, sources: seq<Source>, width: int, a: Address)
    ensures InProfile(AllMatched(observed, sources), width, a) <==>
      exists m :: IsMatch(observed, sources, m) && Routable(m, width) && Contains(Widen(m, width), a)
  {
    var ms := AllMatched(observed, sources);
    MatchedMembers(observed, sources, |observed|);
    if i :| 0 <= i < |ms| && Routable(ms[i], width) && Contains(Widen(ms[i], width), a) {
      assert ms[i] in ms && IsMatch(observed, sources, ms[i]);
    }
    if m :| IsMatch(observed, sources, m) && Routable(m, width) && Contains(Widen(m, width), a) {
      assert m in ms;
      var i :| 0 <= i < |ms| && ms[i] == m;
    }
  }

  // ----- what a profile covers

  lemma WidenHoldsItsAddress(m: Match, width: int)
    requires Routable(m, width)
    ensures Contains(Widen(m, width), m.addr)
  {
    if !m.source.anycast {
      MaskedSameNet(Prefix(m.addr, if m.source.prefix.bits < width then width else m.source.prefix.bits));
    }
  }

  lemma WidenStaysInSource(m: Match, width: int, a: Address)
    requires Routable(m, width) && Contains(m.source.prefix, m.addr) && Contains(Widen(m, width), a)
    ensures Contains(m.source.prefix, a)
  {
    if !m.source.anycast {
      var p := Prefix(m.addr, if m.source.prefix.bits < width then width else m.source.prefix.bits);
      MaskedSameNet(p);
      InsideCovered(p, m.source.prefix, a);
    }
  }

  /** Every covered address lies in a published source that also holds an observed one. */
  lemma CoveredIsPublished(observed: seq<Addr>, sources: seq<Source>, opt: Options, b: Built, a: Address)
    requires IsProfile(observed, sources, opt, b) && Covers(b.cidrs, a)
    ensures exists s, o: Address :: s in sources && V4(o) in observed && Contains(s.prefix, a) && Contains(s.prefix, o)
  {
    assert a in Cover(b.cidrs);
    InProfileMeans(observed, sources, b.appliedWidth, a);
    var m :| IsMatch(observed, sources, m) && Routable(m, b.appliedWidth) && Contains(Widen(m, b.appliedWidth), a);
    BestSourceIsNarrowest(m.addr, sources, |sources|);
    WidenStaysInSource(m, b.appliedWidth, a);
    assert m.source in sources && V4(m.addr) in observed;
  }

  /** What one observed address brings in: itself when the narrowest source around it is
      anycast, otherwise its neighbourhood at the applied width or at the width of that
      source, whichever is narrower, and nothing when that is beyond 32 bits. */
  predicate BringsIn(sources: seq<Source>, width: int, o: Address, a: Address) {
    var i := BestSource(o, sources, |sources|);
    i >= 0 &&
    if sources[i].anycast then a == o
    else
      var n := if sources[i].prefix.bits >= width then sources[i].prefix.bits else width;
      n <= 32 && Shift(a, 32 - n) == Shift(o, 32 - n)
  }

  /** A profile covers exactly what the observed addresses bring in. */
  lemma CoveredIff(observed: seq<Addr>, sources: seq<Source>, opt: Options, b: Built, a: Address)
    requires IsProfile(observed, sources, opt, b)
    ensures Covers(b.cidrs, a) <==> exists o: Address :: V4(o) in observed && BringsIn(sources, b.appliedWidth, o, a)
  {
    var w := b.appliedWidth;
    assert Covers(b.cidrs, a) <==> a in Cover(b.cidrs);
    InProfileMeans(observed, sources, w, a);
    if m :| IsMatch(observed, sources, m) && Routable(m, w) && Contains(Widen(m, w), a) {
      WidenMeans(sources, w, m.addr, a);
      assert BringsIn(sources, w, m.addr, a);
    }
    if o: Address :| V4(o) in observed && BringsIn(sources, w, o, a) {
      WidenMeans(sources, w, o, a);
      assert IsMatch(observed, sources, MatchOf(o, sources).value);
    }
  }

  lemma WidenMeans(sources: seq<Source>, width: int, o: Address, a: Address)
    ensures var m := MatchOf(o, sources);
      m.Some? && Routable(m.value, width) && Contains(Widen(m.value, width), a) <==> BringsIn(sources, width, o, a)
  {
    var i := BestSource(o, sources, |sources|);
    if i >= 0 && !sources[i].anycast && width <= 32 {
      MaskedSameNet(Prefix(o, if sources[i].prefix.bits < width then width else sources[i].prefix.bits));
    }
  }

  ghost predicate InSomeSource(sources: seq<Source>, a: Address) {
    exists s :: s in sources && Contains(s.prefix, a)
  }

  /** The addresses listed as unverified are the observed ones in no source, and none of
      them is covered.  Every other observed address is covered, if and only if the list
      does not open with the invalid prefix. */
  lemma ObservedIsCoveredOrUnverified(observed: seq<Addr>, sources: seq<Source>, opt: Options, b: Built)
    requires IsProfile(observed, sources, opt, b)
    ensures forall a: Address :: a in b.unverified <==> V4(a) in observed && !InSomeSource(sources, a)
    ensures forall a: Address :: a in b.unverified ==> !Covers(b.cidrs, a)
    ensures (forall a: Address :: V4(a) in observed && InSomeSource(sources, a) ==> Covers(b.cidrs, a)) <==> !b.invalid
  {
    var ms, w := AllMatched(observed, sources), b.appliedWidth;
    MatchedMembers(observed, sources, |observed|);
    forall a: Address ensures a in b.unverified <==> V4(a) in observed && !InSomeSource(sources, a) {
      SourceMeansMatch(sources, a);
    }
    forall a: Address | a in b.unverified ensures !Covers(b.cidrs, a) {
      if Covers(b.cidrs, a) { CoveredIsPublished(observed, sources, opt, b, a); }
    }
    if b.invalid {
      var i :| 0 <= i < |ms| && !Routable(ms[i], w);
      assert ms[i] in ms;
      SpoiltIsNotCovered(observed, sources, w, ms[i]);
      SourceMeansMatch(sources, ms[i].addr);
      assert ms[i].addr !in Cover(b.cidrs);
    } else {
      forall a: Address | V4(a) in observed && InSomeSource(sources, a) ensures Covers(b.cidrs, a) {
        SourceMeansMatch(sources, a);
        var m := MatchOf(a, sources).value;
        assert m in ms;
        WidenHoldsItsAddress(m, w);
        assert a in ProfileCover(ms, w);
      }
    }
  }

  lemma SourceMeansMatch(sources: seq<Source>, a: Address)
    ensures InSomeSource(sources, a) <==> MatchOf(a, sources).Some?
  {
    BestSourceIsNarrowest(a, sources, |sources|);
    if s :| s in sources && Contains(s.prefix, a) { var i :| 0 <= i < |sources| && sources[i] == s; }
    if MatchOf(a, sources).Some? { assert sources[BestSource(a, sources, |sources|)] in sources; }
  }

  /** Beyond 32 bits only anycast matches stay, and they cover their own address. */
  lemma SpoiltIsNotCovered(observed: seq<Addr>, sources: seq<Source>, width: int, m: Match)
    requires IsMatch(observed, sources, m) && !Routable(m, width)
    ensures !InProfile(AllMatched(observed, sources), width, m.addr)
  {
    InProfileMeans(observed, sources, width, m.addr);
    forall n | IsMatch(observed, sources, n) && Routable(n, width) ensures !Contains(Widen(n, width), m.addr) {}
  }

  // ----- narrowing

  lemma WidenShrinks(m: Match, w: int, v: int, a: Address)
    requires w <= v && Routable(m, v) && Contains(Widen(m, v), a)
    ensures Contains(Widen(m, w), a)
  {
    if !m.source.anycast {
      var p := Prefix(m.addr, if m.source.prefix.bits < w then w else m.source.prefix.bits);
      var q := Prefix(m.addr, if m.source.prefix.bits < v then v else m.source.prefix.bits);
      MaskedSameNet(p);
      MaskedSameNet(q);
      InsideCovered(q, p, a);
    }
  }

  /** Coverage never grows as the width gets narrower, and neither does the total, as long
      as every prefix stays valid. */
  lemma NarrowingShrinks(ms: seq<Match>, w: int, v: int)
    requires w <= v
    ensures ProfileCover(ms, v) <= ProfileCover(ms, w)
    ensures !Spoilt(ms, v) ==> ProfileTotal(ms, v) <= ProfileTotal(ms, w)
  {
    forall a: Address | InProfile(ms, v, a) ensures InProfile(ms, w, a) {
      var i :| 0 <= i < |ms| && Routable(ms[i], v) && Contains(Widen(ms[i], v), a);
      WidenShrinks(ms[i], w, v, a);
    }
    SubsetSize(ProfileCover(ms, v), ProfileCover(ms, w));
  }

  /** The applied width splits the allowed widths whose prefixes are valid: every wider one
      exceeds the cap and, unless the floor was reached without fitting, it and every
      narrower one fit. */
  lemma AppliedWidthIsWidestFit(observed: seq<Addr>, sources: seq<Source>, opt: Options, b: Built, w: int)
    requires IsProfile(observed, sources, opt, b) && !Spoilt(AllMatched(observed, sources), w)
    requires opt.maxPrefixWidth <= w <= opt.narrowestPrefixWidth
    ensures var fits := ProfileTotal(AllMatched(observed, sources), w) <= opt.maxTotalAddresses;
      if b.totalAddresses <= opt.maxTotalAddresses then fits <==> b.appliedWidth <= w else !fits
  {
    if b.appliedWidth <= w {
      NarrowingShrinks(AllMatched(observed, sources), b.appliedWidth, w);
    }
  }

  /** The total is the number of addresses covered; an invalid prefix counts for 2^33 more. */
  lemma TotalMeans(observed: seq<Addr>, sources: seq<Source>, opt: Options, b: Built)
    requires IsProfile(observed, sources, opt, b)
    ensures b.totalAddresses == |Cover(b.cidrs)| + if b.invalid then 2 * 0x1_0000_0000 else 0
    ensures !b.invalid ==> b.totalAddresses == TotalSize(b.cidrs) <= 0x1_0000_0000
  {
    CoverFitsSpace(b.cidrs);
    TotalSizeCountsCover(b.cidrs);
  }

  // ----- options that can give an invalid prefix

  ghost predicate NeverInvalid(opt: Options) {
    forall observed, sources, b :: IsProfile(observed, sources, opt, b) ==> !b.invalid
  }

  /** No profile of these options holds the invalid prefix if and only if the floor is at
      most 32, or the widest width is and every set of addresses fits the cap. */
  lemma NeverInvalidIff(opt: Options)
    requires opt.maxPrefixWidth <= opt.narrowestPrefixWidth
    ensures NeverInvalid(opt) <==>
      opt.narrowestPrefixWidth <= 32 || (opt.maxPrefixWidth <= 32 && opt.maxTotalAddresses >= SPACE)
  {
    if opt.narrowestPrefixWidth <= 32 {
    } else if opt.maxPrefixWidth <= 32 && opt.maxTotalAddresses >= SPACE {
      forall observed, sources, b | IsProfile(observed, sources, opt, b) ensures !b.invalid {
        var ms := AllMatched(observed, sources);
        CoverFitsWidth(ms, opt.maxPrefixWidth);
        assert b.appliedWidth == opt.maxPrefixWidth;
      }
    } else {
      var observed, sources, b := InvalidBuilt(opt);
    }
  }

  lemma CoverFitsWidth(ms: seq<Match>, width: int)
    requires width <= 32
    ensures ProfileTotal(ms, width) <= SPACE
  {
    IntervalSize(0, SPACE);
    SubsetSize(ProfileCover(ms, width), Interval(0, SPACE));
  }

  const EVERYTHING := Source(Prefix(0, 0), "", false)

  /** As many addresses as it takes, in one source around them all. */
  lemma InvalidBuilt(opt: Options) returns (observed: seq<Addr>, sources: seq<Source>, b: Built)
    requires opt.maxPrefixWidth <= opt.narrowestPrefixWidth && 32 < opt.narrowestPrefixWidth
    requires opt.maxPrefixWidth > 32 || opt.maxTotalAddresses < SPACE
    ensures IsProfile(observed, sources, opt, b) && b.invalid
  {
    var n := if opt.maxPrefixWidth > 32 then 1 else opt.maxTotalAddresses + 1;
    observed, sources := seq(n, i requires 0 <= i < n => V4(i)), [EVERYTHING];
    MatchedByEverything(observed, n);
    var ms := AllMatched(observed, sources);
    var applied := if opt.maxPrefixWidth > 32 && INVALID_SIZE <= opt.maxTotalAddresses then opt.maxPrefixWidth
                   else opt.narrowestPrefixWidth;
    b := Built([], true, [], applied, INVALID_SIZE);
    hide AllMatched;
    assert Cover([]) == {};
    forall w | w > 32 ensures ProfileCover(ms, w) == {} && Spoilt(ms, w) { assert !Routable(ms[0], w); }
    forall w | w <= 32 ensures |ProfileCover(ms, w)| >= n {
      forall a: Address | a < n ensures InProfile(ms, w, a) {
        var i :| 0 <= i < |ms| && ms[i] == Match(a, EVERYTHING);
        WidenHoldsItsAddress(ms[i], w);
      }
      IntervalSize(0, n);
      SubsetSize(Interval(0, n), ProfileCover(ms, w));
    }
  }

  lemma MatchedByEverything(observed: seq<Addr>, n: nat)
    requires 0 < n <= SPACE && |observed| == n && forall i :: 0 <= i < n ==> observed[i] == V4(i)
    ensures var ms := AllMatched(observed, [EVERYTHING]);
      && ms != [] && (forall m :: m in ms ==> m.source == EVERYTHING)
      && (forall a: Address :: a < n ==> Match(a, EVERYTHING) in ms)
    ensures Unmatched(observed, [EVERYTHING], n) == []
  {
    MatchedMembers(observed, [EVERYTHING], n);
    forall a: Address ensures MatchOf(a, [EVERYTHING]) == Some(Match(a, EVERYTHING)) {
      SpaceIsUp();
      ShiftBelow(a, 1, 32);
      ShiftBelow(0, 1, 32);
      assert BestSource(a, [EVERYTHING], 0) == -1;
    }
    var ms := AllMatched(observed, [EVERYTHING]);
    forall a: Address | a < n ensures Match(a, EVERYTHING) in ms { assert observed[a] == V4(a); }
    assert Match(0, EVERYTHING) in ms;
    NoneUnmatched(observed, [EVERYTHING], n);
  }

  lemma {:induction false} NoneUnmatched(observed: seq<Addr>, sources: seq<Source>, n: nat)
    requires n <= |observed| && forall i :: 0 <= i < n ==> observed[i].V4? && MatchOf(observed[i].value, sources).Some?
    ensures Unmatched(observed, sources, n) == []
  {
    if n > 0 { NoneUnmatched(observed, sources, n - 1); }
  }

  // ----- anycast blocks

  /** Inside the anycast block `s` the profile covers only observed addresses and addresses
      of other sources lying wholly within that block. */
  ghost predicate AnycastKept(observed: seq<Addr>, sources: seq<Source>, cidrs: seq<Prefix>, s: Source) {
    forall a: Address :: Covers(cidrs, a) && Contains(s.prefix, a) ==> OwnRight(observed, sources, s, a)
  }

  ghost predicate OwnRight(observed: seq<Addr>, sources: seq<Source>, s: Source, a: Address) {
    V4(a) in observed ||
    exists t :: t in sources && !t.anycast && Contains(t.prefix, a) && Inside(t.prefix, s.prefix)
  }

  /** A match kept no wider than the block stays out of it, or has a right to be there. */
  lemma NarrowMatchKeepsOut(observed: seq<Addr>, sources: seq<Source>, width: int, s: Source, m: Match, a: Address)
    requires s in sources && IsMatch(observed, sources, m) && Routable(m, width)
    requires Contains(Widen(m, width), a) && Contains(s.prefix, a)
    requires s.prefix.bits <= Widen(m, width).bits
    ensures OwnRight(observed, sources, s, a)
  {
    BestSourceIsNarrowest(m.addr, sources, |sources|);
    WidenHoldsItsAddress(m, width);
    if m.source.anycast {
      MaskedSameNet(Prefix(m.addr, 32));
    } else {
      var w := Widen(m, width);
      Nested(w, s.prefix, a);
      InsideCovered(w, s.prefix, m.addr);
      var k :| 0 <= k < |sources| && sources[k] == s;
      Nested(m.source.prefix, s.prefix, m.addr);
      WidenStaysInSource(m, width, a);
      assert m.source in sources;
    }
  }

  /** A match widened beyond a prefix of `bits` bits alone covers this much. */
  lemma WideMatchIsLarge(ms: seq<Match>, width: int, i: nat, bits: nat)
    requires i < |ms| && Routable(ms[i], width) && Widen(ms[i], width).bits < bits <= 32
    ensures |ProfileCover(ms, width)| >= Up(1, 33 - bits)
  {
    var p := Widen(ms[i], width);
    PrefixSize(p);
    SubsetSize(CoverOf(p), ProfileCover(ms, width));
    UpGrows(33 - bits, 32 - p.bits);
  }

  lemma {:induction false} UpGrows(i: nat, j: nat)
    requires i <= j
    ensures Up(1, i) <= Up(1, j)
    decreases j
  {
    if i < j {
      UpGrows(i, j - 1);
      UpMonotone(1, 2, j - 1);
    }
  }

  /** What a caller can tell before the build: the block is everything, or the widest width
      allowed is already no wider than it, or any prefix that could swallow it exceeds the cap. */
  predicate BlockIsSafe(opt: Options, bits: nat)
    requires bits <= 32
  {
    bits == 0 || bits <= opt.maxPrefixWidth || (bits <= opt.narrowestPrefixWidth && opt.maxTotalAddresses < Up(1, 33 - bits))
  }

  lemma SafeBlockIsKept(observed: seq<Addr>, sources: seq<Source>, opt: Options, b: Built, s: Source)
    requires IsProfile(observed, sources, opt, b) && s in sources && BlockIsSafe(opt, s.prefix.bits)
    ensures AnycastKept(observed, sources, b.cidrs, s)
  {
    hide Contains, Widen, AllMatched, IsMatch, OwnRight, Canonical;
    var ms, w := AllMatched(observed, sources), b.appliedWidth;
    forall a: Address | Covers(b.cidrs, a) && Contains(s.prefix, a) ensures OwnRight(observed, sources, s, a) {
      assert a in Cover(b.cidrs);
      var i :| 0 <= i < |ms| && Routable(ms[i], w) && Contains(Widen(ms[i], w), a);
      MatchedAreMatches(observed, sources, i);
      if Widen(ms[i], w).bits < s.prefix.bits {
        WideMatchIsLarge(ms, w, i, s.prefix.bits);
        WidenedBits(ms[i], w);
        assert false;
      }
      NarrowMatchKeepsOut(observed, sources, w, s, ms[i], a);
    }
  }

  lemma MatchedAreMatches(observed: seq<Addr>, sources: seq<Source>, i: nat)
    requires i < |AllMatched(observed, sources)|
    ensures IsMatch(observed, sources, AllMatched(observed, sources)[i])
  {
    MatchedMembers(observed, sources, |observed|);
    assert AllMatched(observed, sources)[i] in AllMatched(observed, sources);
  }

  lemma WidenedBits(m: Match, width: int)
    requires Routable(m, width)
    ensures Widen(m, width).bits == 32 || Widen(m, width).bits >= width
  {
  }

  /** An observation next door to the block, in a source one bit wider, swallows the block
      whenever the options do not rule it out. */
  lemma UnsafeBlockIsSwallowed(opt: Options, s: Source) returns (observed: seq<Addr>, sources: seq<Source>, b: Built)
    requires opt.maxPrefixWidth <= opt.narrowestPrefixWidth && s.anycast
    requires !BlockIsSafe(opt, s.prefix.bits)
    ensures s in sources && IsProfile(observed, sources, opt, b) && !AnycastKept(observed, sources, b.cidrs, s)
  {
    var wide, next := Source(Parent(s.prefix), "", false), NextDoor(s.prefix);
    observed, sources := [V4(next)], [s, wide];
    OnlyMatch(s, wide, next);
    ParentNet(s.prefix);
    var ms := AllMatched(observed, sources);
    var fits := Up(1, 33 - s.prefix.bits) <= opt.maxTotalAddresses;
    b := Built([wide.prefix], false, [], if fits then opt.maxPrefixWidth else opt.narrowestPrefixWidth, Up(1, 33 - s.prefix.bits));
    forall w | opt.maxPrefixWidth <= w <= opt.narrowestPrefixWidth && w < s.prefix.bits
      ensures ProfileCover(ms, w) == Cover(b.cidrs) && |Cover(b.cidrs)| == Up(1, 33 - s.prefix.bits)
    {
      SwallowedAt(ms, wide.prefix, next, w);
    }
    var a: Address := s.prefix.addr;
    CoversOne(wide.prefix, a);
    assert Contains(wide.prefix, a) && Covers(b.cidrs, a) && Contains(s.prefix, a);
    assert !Inside(wide.prefix, s.prefix) && !OwnRight(observed, sources, s, a);
  }

  /** An address of the parent outside the prefix itself. */
  function NextDoor(p: Prefix): (a: Address)
    requires p.bits > 0
    ensures Contains(Parent(p), a) && !Contains(p, a)
  {
    ParentNet(p);
    var other := Half(Parent(p), Net(p) % 2 == 0);
    HalfNet(Parent(p), Net(p) % 2 == 0);
    other.addr
  }

  lemma OnlyMatch(s: Source, wide: Source, next: Address)
    requires s.anycast && !wide.anycast && !Contains(s.prefix, next) && Contains(wide.prefix, next)
    ensures AllMatched([V4(next)], [s, wide]) == [Match(next, wide)]
    ensures Unmatched([V4(next)], [s, wide], 1) == []
  {
    var sources := [s, wide];
    assert BestSource(next, sources, 1) == -1;
    assert BestSource(next, sources, 2) == 1;
    assert Matched([V4(next)], sources, 0) == [] && Unmatched([V4(next)], sources, 0) == [];
  }

  lemma SwallowedAt(ms: seq<Match>, p: Prefix, next: Address, width: int)
    requires width <= p.bits && IsMasked(p) && Contains(p, next)
    requires |ms| == 1 && ms[0].addr == next && !ms[0].source.anycast && ms[0].source.prefix == p
    ensures Canonical([p]) && ProfileCover(ms, width) == Cover([p]) && |Cover([p])| == Size(p)
  {
    MaskedSameNet(Prefix(next, p.bits));
    forall a: Address ensures InProfile(ms, width, a) <==> Covers([p], a) {
      CoversOne(p, a);
      assert InProfile(ms, width, a) <==> Contains(Widen(ms[0], width), a);
    }
    PrefixSize(p);
    assert CoverOf(p) == Cover([p]);
  }

  ghost predicate AlwaysKept(opt: Options, s: Source) {
    forall observed, sources, b ::
      s in sources && IsProfile(observed, sources, opt, b) ==> AnycastKept(observed, sources, b.cidrs, s)
  }

  /** Exactly: every profile these options can give keeps the anycast block, whatever is
      observed and published around it, if and only if the widest width allowed is no wider
      than the block, or the floor is not and a prefix around the block exceeds the cap. */
  lemma AnycastKeptIff(opt: Options, s: Source)
    requires opt.maxPrefixWidth <= opt.narrowestPrefixWidth && s.anycast
    ensures AlwaysKept(opt, s) <==> BlockIsSafe(opt, s.prefix.bits)
  {
    if BlockIsSafe(opt, s.prefix.bits) {
      forall observed, sources, b | s in sources && IsProfile(observed, sources, opt, b)
        ensures AnycastKept(observed, sources, b.cidrs, s)
      {
        SafeBlockIsKept(observed, sources, opt, b, s);
      }
    } else {
      var observed, sources, b := UnsafeBlockIsSwallowed(opt, s);
    }
  }

  const DEFAULT_OPTIONS := Options(20, 24, 131072)

  /** With the default options every anycast block longer than /20 can be swallowed. */
  lemma DefaultAnycastKeptIff(s: Source)
    requires s.anycast
    ensures AlwaysKept(DEFAULT_OPTIONS, s) <==> s.prefix.bits <= 20
  {
    AnycastKeptIff(DEFAULT_OPTIONS, s);
    if 21 <= s.prefix.bits {
      UpGrows(33 - s.prefix.bits, 16);
      UpByEight(1);
      UpUp(1, 8, 8);
      UpByEight(256);
    }
  }
}
