/** Choosing a relay from measurements, and when re-ranking is allowed to move. */
module Pick {
  import opened Wrappers
  import opened Sorting
  import Text

  const MILLISECOND := 1_000_000
  const DEFAULT_SWITCH_MARGIN := 10 * MILLISECOND

  /** A handshake against one relay; durations in nanoseconds. */
  datatype Measurement = Measurement(relayID: string, rtt: int, failed: bool) {
    predicate Answered() { !failed && rtt > 0 }
  }

  datatype Choice = Choice(primary: string, fallback: string, ranked: seq<Measurement>)

  datatype Error = NoneAnswered

  predicate Faster(m: Measurement, n: Measurement) {
    m.rtt < n.rtt || (m.rtt == n.rtt && Text.Leq(m.relayID, n.relayID))
  }

  method Best(ms: seq<Measurement>) returns (r: Result<Choice, Error>)
    ensures r.Err? <==> Answered(ms) == []
    ensures r.Ok? ==> IsBest(ms, r.value)
  {
    var ok := [];
    for i := 0 to |ms|
      invariant ok == Answered(ms[..i])
    {
      assert ms[..i + 1][..i] == ms[..i];
      if ms[i].Answered() {
        ok := ok + [ms[i]];
      }
    }
    assert ms[..|ms|] == ms;
    if |ok| == 0 {
      return Err(NoneAnswered);
    }
    FasterIsOrder();
    var ranked := Sort(ok, Faster);
    SameMembers(ranked, ok);
    return Ok(Choice(ranked[0].relayID, if |ranked| > 1 then ranked[1].relayID else "", ranked));
  }

  predicate WorthSwitching(current: int, alternative: int, margin: int) {
    current <= 0 || current - alternative >= margin
  }

  /** `rttOf`: the measurement a choice ranks for one relay, 0 when it ranks none. */
  method RttOf(c: Choice, id: string) returns (rtt: int)
    ensures rtt == RankedRtt(c.ranked, id)
  {
    for i := 0 to |c.ranked|
      invariant RankedRtt(c.ranked, id) == RankedRtt(c.ranked[i..], id)
    {
      assert c.ranked[i..][1..] == c.ranked[i + 1..];
      if c.ranked[i].relayID == id {
        return c.ranked[i].rtt;
      }
    }
    return 0;
  }

  function RankedRtt(ranked: seq<Measurement>, id: string): int {
    if ranked == [] then 0
    else if ranked[0].relayID == id then ranked[0].rtt
    else RankedRtt(ranked[1..], id)
  }

  function Answered(ms: seq<Measurement>): seq<Measurement> {
    if ms == [] then []
    else Answered(ms[..|ms| - 1]) + if ms[|ms| - 1].Answered() then [ms[|ms| - 1]] else []
  }

  /** The outcome `Best` promises: every relay that answered, fastest first, the relay id
      breaking ties; the two ahead are primary and fallback. */
  ghost predicate IsBest(ms: seq<Measurement>, c: Choice) {
    && multiset(c.ranked) == multiset(Answered(ms))
    && Sorted(c.ranked, Faster)
    && c.ranked != []
    && c.primary == c.ranked[0].relayID
    && c.fallback == if |c.ranked| > 1 then c.ranked[1].relayID else ""
  }

  /** The measurement a choice is made by. */
  function Fastest(ms: seq<Measurement>): Option<Measurement> {
    if ms == [] then None
    else
      var best, m := Fastest(ms[..|ms| - 1]), ms[|ms| - 1];
      if m.Answered() && (best.None? || !Faster(best.value, m)) then Some(m) else best
  }

  lemma FasterIsOrder()
    ensures TotalPreorder(Faster)
  {
    forall m, n ensures Faster(m, n) || Faster(n, m) { Text.LeqTotal(m.relayID, n.relayID); }
    forall k, m, n | Faster(k, m) && Faster(m, n) ensures Faster(k, n) {
      if k.rtt == m.rtt == n.rtt { Text.LeqTransitive(k.relayID, m.relayID, n.relayID); }
    }
  }

  lemma {:induction false} AnsweredMembers(ms: seq<Measurement>)
    ensures forall m :: m in Answered(ms) <==> m in ms && m.Answered()
  {
    if ms != [] {
      AnsweredMembers(ms[..|ms| - 1]);
      assert ms == ms[..|ms| - 1] + [ms[|ms| - 1]];
    }
  }

  lemma {:induction false} FastestIsLeast(ms: seq<Measurement>)
    ensures Fastest(ms).None? <==> Answered(ms) == []
    ensures var f := Fastest(ms); f.Some? ==>
      f.value in ms && f.value.Answered() && forall m :: m in ms && m.Answered() ==> Faster(f.value, m)
  {
    FasterIsOrder();
    if ms != [] {
      var front, last := ms[..|ms| - 1], ms[|ms| - 1];
      FastestIsLeast(front);
      AnsweredMembers(front);
      assert ms == front + [last];
      if last.Answered() && Fastest(front).Some? && !Faster(Fastest(front).value, last) {
        assert Faster(last, Fastest(front).value);
        forall m | m in front && m.Answered() ensures Faster(last, m) {
          assert Faster(Fastest(front).value, m);
        }
      }
      assert Faster(last, last);
    }
  }

  /** Two measurements that answered and tie in the order are the same measurement. */
  lemma FasterTies(m: Measurement, n: Measurement)
    requires m.Answered() && n.Answered() && Faster(m, n) && Faster(n, m)
    ensures m == n
  {
    Text.LeqTotal(m.relayID, n.relayID);
  }

  /** The primary is the fastest relay, and its recorded round trip is its measurement. */
  lemma PrimaryIsFastest(ms: seq<Measurement>, c: Choice)
    requires IsBest(ms, c)
    ensures Fastest(ms) == Some(c.ranked[0])
    ensures RankedRtt(c.ranked, c.primary) == c.ranked[0].rtt
  {
    AnsweredMembers(ms);
    FastestIsLeast(ms);
    SameMembers(c.ranked, Answered(ms));
    assert c.ranked[0] in c.ranked;
    var f := Fastest(ms).value;
    var i :| 0 <= i < |c.ranked| && c.ranked[i] == f;
    if i > 0 {
      assert Faster(c.ranked[0], c.ranked[i]);
      FasterTies(c.ranked[0], f);
    }
  }

  /** What a choice comes to in figures: exactly the relays that answered are ranked, no
      round trip after a longer one; the primary answered, nobody who answered was faster,
      and of two equally fast the smaller id counts; the fallback is the next one. */
  lemma ChoiceInFigures(ms: seq<Measurement>, c: Choice)
    requires IsBest(ms, c)
    ensures forall m :: m in c.ranked <==> m in ms && !m.failed && m.rtt > 0
    ensures forall i, j :: 0 <= i < j < |c.ranked| ==> c.ranked[i].rtt <= c.ranked[j].rtt
    ensures c.primary == c.ranked[0].relayID && c.ranked[0] in ms
    ensures forall m :: m in ms && !m.failed && m.rtt > 0 ==>
      c.ranked[0].rtt <= m.rtt && (c.ranked[0].rtt == m.rtt ==> Text.Leq(c.primary, m.relayID))
    ensures c.fallback == if |c.ranked| > 1 then c.ranked[1].relayID else ""
  {
    AnsweredMembers(ms);
    FastestIsLeast(ms);
    PrimaryIsFastest(ms, c);
    SameMembers(c.ranked, Answered(ms));
    forall i, j | 0 <= i < j < |c.ranked| ensures c.ranked[i].rtt <= c.ranked[j].rtt {
      assert Faster(c.ranked[i], c.ranked[j]);
    }
  }

  /** The measurement a choice is made by, in figures: an answer none is faster than, with
      the smallest id among equals; none exactly when nobody answered. */
  lemma FastestInFigures(ms: seq<Measurement>)
    ensures Fastest(ms).None? <==> forall m :: m in ms ==> m.failed || m.rtt <= 0
    ensures var f := Fastest(ms); f.Some? ==>
      && f.value in ms && !f.value.failed && f.value.rtt > 0
      && forall m :: m in ms && !m.failed && m.rtt > 0 ==>
           f.value.rtt <= m.rtt && (f.value.rtt == m.rtt ==> Text.Leq(f.value.relayID, m.relayID))
  {
    FastestIsLeast(ms);
    AnsweredMembers(ms);
    if Answered(ms) != [] { assert Answered(ms)[0] in Answered(ms); }
  }

  /** The same measurements in any order give the same choice, fallback and ranking. */
  lemma ChoiceIgnoresOrder(ms: seq<Measurement>, ns: seq<Measurement>, c: Choice, d: Choice)
    requires multiset(ms) == multiset(ns) && IsBest(ms, c) && IsBest(ns, d)
    ensures c == d
  {
    AnsweredCounts(ms);
    AnsweredCounts(ns);
    assert multiset(c.ranked) == multiset(d.ranked);
    AnsweredMembers(ms);
    SameMembers(c.ranked, Answered(ms));
    forall m, n | m in c.ranked && n in c.ranked && Faster(m, n) && Faster(n, m) ensures m == n { FasterTies(m, n); }
    SortedUnique(c.ranked, d.ranked, Faster);
  }

  lemma {:induction false} AnsweredCounts(ms: seq<Measurement>)
    ensures forall m :: multiset(Answered(ms))[m] == if m.Answered() then multiset(ms)[m] else 0
  {
    if ms != [] {
      AnsweredCounts(ms[..|ms| - 1]);
      assert ms == ms[..|ms| - 1] + [ms[|ms| - 1]];
    }
  }

  // ----- re-ranking a healthy client

  datatype Use = Use(active: string, rtt: int)

  /** One unforced re-ranking in which somebody answered: stay and take the new figure,
      stay, or move. */
  function Rerank(u: Use, fastest: Measurement): Use {
    if fastest.relayID == u.active then Use(u.active, fastest.rtt)
    else if WorthSwitching(u.rtt, fastest.rtt, DEFAULT_SWITCH_MARGIN) then Use(fastest.relayID, fastest.rtt)
    else u
  }

  /** The relays in use through a series of re-rankings. */
  function Reranks(u: Use, rounds: seq<Measurement>): Use {
    if rounds == [] then u else Rerank(Reranks(u, rounds[..|rounds| - 1]), rounds[|rounds| - 1])
  }

  predicate Near(x: int, y: int, d: int) {
    -d <= x - y <= d
  }

  ghost predicate Honest(m: Measurement, truth: string -> int, d: int) {
    m.Answered() && Near(m.rtt, truth(m.relayID), d)
  }

  ghost predicate HonestUse(u: Use, truth: string -> int, d: int) {
    u.rtt > 0 && Near(u.rtt, truth(u.active), d)
  }

  /** A move strictly lowers the true round trip, by the margin less the two errors. */
  lemma RerankImproves(u: Use, m: Measurement, truth: string -> int, d: int)
    requires HonestUse(u, truth, d) && Honest(m, truth, d)
    ensures var v := Rerank(u, m);
      && HonestUse(v, truth, d)
      && (v.active != u.active ==> truth(v.active) <= truth(u.active) - (DEFAULT_SWITCH_MARGIN - 2 * d))
  {
  }

  lemma {:induction false} ReranksOnlyImprove(u: Use, rounds: seq<Measurement>, truth: string -> int, d: int, k: nat)
    requires HonestUse(u, truth, d) && 2 * d < DEFAULT_SWITCH_MARGIN && k <= |rounds|
    requires forall m :: m in rounds ==> Honest(m, truth, d)
    ensures var (v, w) := (Reranks(u, rounds[..k]), Reranks(u, rounds));
      && HonestUse(w, truth, d)
      && (w.active == v.active || truth(w.active) < truth(v.active))
    decreases |rounds|
  {
    if k < |rounds| {
      var front := rounds[..|rounds| - 1];
      assert front[..k] == rounds[..k];
      ReranksOnlyImprove(u, front, truth, d, k);
      RerankImproves(Reranks(u, front), rounds[|rounds| - 1], truth, d);
    } else {
      assert rounds[..k] == rounds;
      if rounds != [] {
        var front := rounds[..|rounds| - 1];
        ReranksOnlyImprove(u, front, truth, d, |front|);
        RerankImproves(Reranks(u, front), rounds[|rounds| - 1], truth, d);
      }
    }
  }

  lemma LeavingIsForGood(u: Use, rounds: seq<Measurement>, truth: string -> int, d: int, k: nat)
    requires HonestUse(u, truth, d) && 2 * d < DEFAULT_SWITCH_MARGIN && k <= |rounds|
    requires forall m :: m in rounds ==> Honest(m, truth, d)
    ensures Reranks(u, rounds[..k]).active != u.active ==> Reranks(u, rounds).active != u.active
  {
    assert rounds[..k][..0] == [];
    ReranksOnlyImprove(u, rounds[..k], truth, d, 0);
    ReranksOnlyImprove(u, rounds, truth, d, k);
  }

  /** Some series of honest rounds leaves a relay and comes back to it. */
  ghost predicate MayReturn(d: int) {
    exists u: Use, rounds: seq<Measurement>, truth: string -> int, k: nat ::
      HonestUse(u, truth, d) && k <= |rounds| && (forall m :: m in rounds ==> Honest(m, truth, d)) &&
      Reranks(u, rounds[..k]).active != u.active && Reranks(u, rounds).active == u.active
  }

  /** Re-ranking can return to a relay it has left if and only if two measurement errors
      together reach the margin. */
  lemma NeverReturnsIff(d: int)
    requires d >= 0
    ensures !MayReturn(d) <==> 2 * d < DEFAULT_SWITCH_MARGIN
  {
    if 2 * d < DEFAULT_SWITCH_MARGIN && MayReturn(d) {
      var u, rounds, truth, k: nat :|
        HonestUse(u, truth, d) && k <= |rounds| && (forall m :: m in rounds ==> Honest(m, truth, d)) &&
        Reranks(u, rounds[..k]).active != u.active && Reranks(u, rounds).active == u.active;
      LeavingIsForGood(u, rounds, truth, d, k);
    }
    if 2 * d >= DEFAULT_SWITCH_MARGIN {
      // Two equally distant relays whose errors alternate.
      var truth: string -> int := _ => d + 1;
      var u := Use("b", 2 * d + 1);
      var low, high := 1, 2 * d + 1;
      var rounds := [Measurement("a", low, false), Measurement("a", high, false), Measurement("b", low, false)];
      var one, two := Reranks(u, rounds[..1]), Reranks(u, rounds[..2]);
      assert rounds[..1][..0] == [] && rounds[..2][..1] == rounds[..1] && rounds[..3][..2] == rounds[..2];
      assert one == Use("a", low) && two == Use("a", high);
      assert rounds == rounds[..3];
      assert Reranks(u, rounds) == Use("b", low);
      assert HonestUse(u, truth, d) && forall m :: m in rounds ==> Honest(m, truth, d);
      assert Reranks(u, rounds[..1]).active != u.active;
    }
  }
}
