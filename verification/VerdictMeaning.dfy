/** What a verdict is worth: it cannot be manufactured by reading a file twice, and a pass
    means what the campaign promises. */
module VerdictMeaning {
  import opened Wrappers
  import opened Sorting
  import opened Verdict
  import Text

  // ----- duplicates

  ghost predicate AllDistinct(runs: seq<Record>) {
    forall i, j :: 0 <= i < j < |runs| ==> KeyOf(runs[i]) != KeyOf(runs[j])
  }

  lemma DistinctPlusOne(rs: seq<Record>, r: Record)
    requires AllDistinct(rs) && forall q :: q in rs ==> KeyOf(q) != KeyOf(r)
    ensures AllDistinct(rs + [r])
  {
    assert forall i :: 0 <= i < |rs| ==> rs[i] in rs;
  }

  lemma {:induction false} RunsMembers(recs: seq<Record>, start: int, end: int)
    ensures var runs := Runs(recs, start, end);
      && (forall r :: r in runs ==> r in recs && InWindow(r, start, end))
      && (forall r :: r in recs && InWindow(r, start, end) ==> KeyOf(r) in Keys(runs))
      && AllDistinct(runs)
  {
    if recs != [] {
      var front, r := recs[..|recs| - 1], recs[|recs| - 1];
      RunsMembers(front, start, end);
      assert recs == front + [r];
      var before := Runs(front, start, end);
      assert Runs(recs, start, end) == if !InWindow(r, start, end) || KeyOf(r) in Keys(before) then before else before + [r];
      hide Runs;
      KeysGrow(before, r);
      if KeyOf(r) !in Keys(before) { DistinctPlusOne(before, r); }
    }
  }

  lemma KeysGrow(runs: seq<Record>, r: Record)
    ensures Keys(runs) <= Keys(runs + [r]) && KeyOf(r) in Keys(runs + [r])
    ensures forall q :: q in runs ==> KeyOf(q) in Keys(runs)
  {
    assert forall q :: q in runs ==> q in runs + [r];
    assert r in runs + [r];
  }

  predicate SameRun(r: Record, q: Record) {
    r.ts == q.ts && r.leg == q.leg && r.src == q.src && r.dst == q.dst
  }

  /** Every record repeats the time, leg and ends of one already read. */
  ghost predicate Repeats(recs: seq<Record>, extra: seq<Record>) {
    forall e :: e in extra ==> exists r :: r in recs && SameRun(r, e)
  }

  ghost function CountInWindow(recs: seq<Record>, start: int, end: int): nat {
    if recs == [] then 0
    else CountInWindow(recs[..|recs| - 1], start, end) + if InWindow(recs[|recs| - 1], start, end) then 1 else 0
  }

  /** Appending records that repeat runs already read adds no run and drops them all. */
  lemma {:induction false} RepeatsAreDropped(recs: seq<Record>, extra: seq<Record>, start: int, end: int)
    requires Repeats(recs, extra)
    ensures Runs(recs + extra, start, end) == Runs(recs, start, end)
    ensures Dupes(recs + extra, start, end) == Dupes(recs, start, end) + CountInWindow(extra, start, end)
    decreases |extra|
  {
    if extra == [] {
      assert recs + extra == recs;
    } else {
      hide Runs, Dupes, Keys;
      var front, e := extra[..|extra| - 1], extra[|extra| - 1];
      forall f | f in front ensures exists r :: r in recs && SameRun(r, f) { assert f in extra; }
      RepeatsAreDropped(recs, front, start, end);
      RunsMembers(recs, start, end);
      assert e in extra;
      var r :| r in recs && SameRun(r, e);
      assert InWindow(r, start, end) == InWindow(e, start, end);
      assert recs + extra == (recs + front) + [e];
      OneMoreRecord(recs + front, e, start, end);
    }
  }

  lemma OneMoreRecord(recs: seq<Record>, e: Record, start: int, end: int)
    requires InWindow(e, start, end) ==> KeyOf(e) in Keys(Runs(recs, start, end))
    ensures Runs(recs + [e], start, end) == Runs(recs, start, end)
    ensures Dupes(recs + [e], start, end) == Dupes(recs, start, end) + if InWindow(e, start, end) then 1 else 0
  {
    assert (recs + [e])[..|recs|] == recs;
  }

  /** Reading a file again, or any part of it, changes no candidate. */
  lemma RereadingChangesNoVerdict(recs: seq<Record>, extra: seq<Record>, th: Thresholds, start: int, end: int, c: Candidate)
    requires Repeats(recs, extra)
    ensures IsCandidate(recs + extra, th, start, end, c) <==> IsCandidate(recs, th, start, end, c)
    ensures Repeats(recs, recs)
  {
    RepeatsAreDropped(recs, extra, start, end);
    forall r | r in recs ensures exists q :: q in recs && SameRun(q, r) { assert SameRun(r, r); }
  }

  // ----- samples

  ghost function AnsweredRuns(runs: seq<Record>): seq<Record> {
    if runs == [] then []
    else AnsweredRuns(runs[..|runs| - 1]) + if runs[|runs| - 1].received != 0 then [runs[|runs| - 1]] else []
  }

  /** Latency comes from the answered runs only, loss from every run. */
  lemma {:induction false} SamplesCount(runs: seq<Record>)
    ensures var l := SamplesOf(runs);
      && l.runs == |l.p50| == |l.jitter| == |l.p99excess| == |AnsweredRuns(runs)|
      && |l.loss| == |runs|
      && (forall i :: 0 <= i < |runs| ==> l.loss[i] == runs[i].lossPct)
      && (forall i :: 0 <= i < |l.p50| ==>
            var r := AnsweredRuns(runs)[i];
            l.p50[i] == r.p50Ms && l.jitter[i] == r.jitterMs && l.p99excess[i] == r.p99Ms - r.p50Ms)
  {
    if runs != [] { SamplesCount(runs[..|runs| - 1]); }
  }

  lemma {:induction false} AnsweredMembers(runs: seq<Record>)
    ensures forall r :: r in AnsweredRuns(runs) <==> r in runs && r.received != 0
  {
    if runs != [] {
      AnsweredMembers(runs[..|runs| - 1]);
      assert runs == runs[..|runs| - 1] + [runs[|runs| - 1]];
    }
  }

  lemma {:induction false} LegRunsDistinct(runs: seq<Record>, leg: string, src: string, dst: string)
    requires AllDistinct(runs)
    ensures AllDistinct(LegRuns(runs, leg, src, dst))
  {
    if runs != [] {
      var front, r := runs[..|runs| - 1], runs[|runs| - 1];
      LegRunsDistinct(front, leg, src, dst);
      LegRunsMembers(front, leg, src, dst);
      var rs := LegRuns(front, leg, src, dst);
      forall q | q in rs ensures KeyOf(q) != KeyOf(r) {
        var j :| 0 <= j < |front| && front[j] == q;
        assert KeyOf(runs[j]) != KeyOf(runs[|runs| - 1]);
      }
      DistinctPlusOne(rs, r);
      assert rs + [] == rs;
    }
  }

  /** The runs judged on a leg are of that leg and inside the window, no two of one time,
      and every record of the leg inside the window stands for one of them. */
  lemma LegRunsAreReal(recs: seq<Record>, start: int, end: int, leg: string, src: string, dst: string)
    ensures var rs := LegRuns(Runs(recs, start, end), leg, src, dst);
      && (forall r :: r in rs ==> r in recs && start <= HourVN(r.ts) < end && r.leg == leg && r.src == src && r.dst == dst)
      && (forall i, j :: 0 <= i < j < |rs| ==> rs[i].ts != rs[j].ts)
      && (forall r :: r in recs && start <= HourVN(r.ts) < end && r.leg == leg && r.src == src && r.dst == dst ==>
            exists q :: q in rs && q.ts == r.ts)
  {
    var runs := Runs(recs, start, end);
    RunsMembers(recs, start, end);
    LegRunsMembers(runs, leg, src, dst);
    LegRunsDistinct(runs, leg, src, dst);
    hide Runs, LegRuns, HourVN;
    var rs := LegRuns(runs, leg, src, dst);
    forall i, j | 0 <= i < j < |rs| ensures rs[i].ts != rs[j].ts {
      assert rs[i] in rs && rs[j] in rs;
      assert KeyOf(rs[i]) != KeyOf(rs[j]);
    }
    forall r | r in recs && start <= HourVN(r.ts) < end && r.leg == leg && r.src == src && r.dst == dst
      ensures exists q :: q in rs && q.ts == r.ts
    {
      assert InWindow(r, start, end) && KeyOf(r) in Keys(runs);
      var q :| q in runs && KeyOf(q) == KeyOf(r);
      assert q in rs;
    }
  }

  /** The hour the window is about: seven hours ahead of the clock, whatever the date. */
  lemma HourMeans(ts: int, day: int, hour: int, second: int, nanos: int)
    requires 0 <= hour < 24 && 0 <= second < 3600 && 0 <= nanos < 1_000_000_000
    requires ts + 7 * 3600 * 1_000_000_000 == (day * 86400 + hour * 3600 + second) * 1_000_000_000 + nanos
    ensures HourVN(ts) == hour
  {
    var local := day * 86400 + hour * 3600 + second;
    assert ts == (local - 25200) * 1_000_000_000 + nanos;
    assert ts / 1_000_000_000 == local - 25200;
    assert local % 86400 == hour * 3600 + second;
  }

  /** Somebody measured this leg inside the window. */
  ghost predicate Seen(recs: seq<Record>, start: int, end: int, leg: string, src: string, dst: string) {
    exists r :: r in recs && start <= HourVN(r.ts) < end && r.leg == leg && r.src == src && r.dst == dst
  }

  lemma MeasuredIff(recs: seq<Record>, start: int, end: int, leg: string, src: string, dst: string)
    ensures Measured(Runs(recs, start, end), leg, src, dst) <==> Seen(recs, start, end, leg, src, dst)
  {
    LegRunsAreReal(recs, start, end, leg, src, dst);
    hide Runs, LegRuns, HourVN;
    var rs := LegRuns(Runs(recs, start, end), leg, src, dst);
    if rs != [] { assert rs[0] in rs; }
  }

  /** A combination is judged, and once, exactly when both legs of its tunnel were measured
      inside the window. */
  lemma JudgedIff(recs: seq<Record>, th: Thresholds, start: int, end: int, isp: string, vps: string, lm: string)
    ensures (exists k :: IsCandidate(recs, th, start, end, k) && k.isp == isp && k.vps == vps && k.landmark == lm) <==>
      Seen(recs, start, end, "B", isp, vps) && Seen(recs, start, end, "C", vps, lm)
    ensures forall k, l ::
      IsCandidate(recs, th, start, end, k) && IsCandidate(recs, th, start, end, l)
      && (k.isp, k.vps, k.landmark) == (l.isp, l.vps, l.landmark)
      ==> k == l
  {
    MeasuredIff(recs, start, end, "B", isp, vps);
    MeasuredIff(recs, start, end, "C", vps, lm);
    var runs := Runs(recs, start, end);
    var k := JudgedAt(runs, th, isp, vps, lm);
    JudgedNames(if Measured(runs, "A", isp, lm) then Some(Samples(runs, "A", isp, lm)) else None,
                Samples(runs, "B", isp, vps), Samples(runs, "C", vps, lm), th, isp, vps, lm);
    hide Runs, Measured, Samples, Judged, Seen;
    assert OnGrid(runs, k) ==> IsCandidate(recs, th, start, end, k);
  }

  lemma JudgedNames(a: Option<LegSamples>, b: LegSamples, c: LegSamples, th: Thresholds, isp: string, vps: string, lm: string)
    ensures var k := Judged(a, b, c, th, isp, vps, lm); k.isp == isp && k.vps == vps && k.landmark == lm
  {
    hide Median, BreachPct, MaxOf, ReasonsOf;
  }

  /** Candidates come best gain first, those without one last, equal gains by name. */
  lemma BestGainFirst(out: seq<Candidate>, i: nat, j: nat)
    requires Sorted(out, Before) && i < j < |out|
    ensures out[j].hasBaseline && out[j].hasTunnel ==>
      out[i].hasBaseline && out[i].hasTunnel && out[i].gainMs >= out[j].gainMs
    ensures (out[i].hasBaseline && out[i].hasTunnel <==> out[j].hasBaseline && out[j].hasTunnel) && out[i].gainMs == out[j].gainMs ==>
      Text.Leq(out[i].vps, out[j].vps)
    ensures (out[i].hasBaseline && out[i].hasTunnel <==> out[j].hasBaseline && out[j].hasTunnel) ==> out[i].gainMs >= out[j].gainMs
  {
    assert Before(out[i], out[j]);
  }

  // ----- shares and extremes

  /** The places where a figure is at or over the bar. */
  ghost function Over(xs: seq<real>, bar: real): set<int> {
    set i | 0 <= i < |xs| && xs[i] >= bar
  }

  lemma {:induction false} AtLeastCounts(xs: seq<real>, bar: real)
    ensures AtLeast(xs, bar) == |Over(xs, bar)|
  {
    if xs == [] {
      assert Over(xs, bar) == {};
    } else {
      var front, n := xs[..|xs| - 1], |xs| - 1;
      AtLeastCounts(front, bar);
      assert Over(xs, bar) == Over(front, bar) + if xs[n] >= bar then {n} else {};
    }
  }

  /** A breach share is the percentage of figures at or over the bar. */
  lemma BreachPctMeans(xs: seq<real>, bar: real)
    ensures xs != [] ==> BreachPct(xs, bar) * |xs| as real == 100.0 * |Over(xs, bar)| as real
    ensures xs == [] ==> BreachPct(xs, bar) == 0.0
  {
    AtLeastCounts(xs, bar);
    if xs != [] { QuotientTimes(AtLeast(xs, bar) as real, |xs| as real); }
  }

  lemma QuotientTimes(x: real, n: real)
    requires n > 0.0
    ensures x / n * 100.0 * n == 100.0 * x
  {
    assert x / n * n == x;
    calc {
      x / n * 100.0 * n;
      100.0 * (x / n * n);
      100.0 * x;
    }
  }

  lemma ShareWithin(xs: seq<real>, bar: real, pct: real)
    requires xs != []
    ensures BreachPct(xs, bar) <= pct <==> Within(|Over(xs, bar)|, pct, |xs|)
  {
    BreachPctMeans(xs, bar);
    ScaleOrder(BreachPct(xs, bar), pct, |xs| as real);
  }

  lemma ScaleOrder(x: real, y: real, n: real)
    requires n > 0.0
    ensures x <= y <==> x * n <= y * n
  {
    if x <= y { assert (y - x) * n >= 0.0; } else { assert (x - y) * n > 0.0; }
  }

  /** The worst figure: none exceeds it, and it is one of them, or 0 when none is positive. */
  lemma {:induction false} MaxOfMeans(xs: seq<real>)
    ensures MaxOf(xs) >= 0.0 && forall i :: 0 <= i < |xs| ==> xs[i] <= MaxOf(xs)
    ensures MaxOf(xs) == 0.0 || MaxOf(xs) in xs
  {
    if xs != [] { MaxOfMeans(xs[..|xs| - 1]); }
  }

  // ----- the pass

  ghost predicate EnoughRuns(rs: seq<Record>, th: Thresholds) {
    |AnsweredRuns(rs)| >= 1 && |AnsweredRuns(rs)| >= th.minRuns
  }

  /** At most this percentage of so many. */
  predicate Within(count: int, pct: real, total: int) {
    100.0 * count as real <= pct * total as real
  }

  ghost function JitterBreaches(rs: seq<Record>, bar: real): set<int> {
    set i | 0 <= i < |rs| && rs[i].jitterMs >= bar
  }

  ghost function P99Breaches(rs: seq<Record>, bar: real): set<int> {
    set i | 0 <= i < |rs| && rs[i].p99Ms - rs[i].p50Ms >= bar
  }

  ghost function LossBreaches(rs: seq<Record>, bar: real): set<int> {
    set i | 0 <= i < |rs| && rs[i].lossPct >= bar
  }

  /** On no more than the allowed share of its runs a leg is at or over a bar: jitter and
      tail of the answered runs, loss of all. */
  ghost predicate SteadyLeg(rs: seq<Record>, th: Thresholds) {
    var answered := AnsweredRuns(rs);
    && Within(|JitterBreaches(answered, th.maxJitterMs)|, th.maxBreachPct, |answered|)
    && Within(|P99Breaches(answered, th.maxP99ExcessMs)|, th.maxBreachPct, |answered|)
    && Within(|LossBreaches(rs, th.maxLossPct)|, th.maxBreachPct, |rs|)
  }

  ghost predicate SteadySamples(l: LegSamples, th: Thresholds) {
    && BreachPct(l.jitter, th.maxJitterMs) <= th.maxBreachPct
    && BreachPct(l.p99excess, th.maxP99ExcessMs) <= th.maxBreachPct
    && BreachPct(l.loss, th.maxLossPct) <= th.maxBreachPct
  }

  lemma SteadyLegIff(rs: seq<Record>, th: Thresholds)
    requires AnsweredRuns(rs) != []
    ensures SteadySamples(SamplesOf(rs), th) <==> SteadyLeg(rs, th)
  {
    SamplesCount(rs);
    assert rs != [];
    hide SamplesOf, AnsweredRuns, BreachPct, Within, Over, JitterBreaches, P99Breaches, LossBreaches;
    var l, answered := SamplesOf(rs), AnsweredRuns(rs);
    ShareWithin(l.jitter, th.maxJitterMs, th.maxBreachPct);
    ShareWithin(l.p99excess, th.maxP99ExcessMs, th.maxBreachPct);
    ShareWithin(l.loss, th.maxLossPct, th.maxBreachPct);
    SamePlaces(l, rs, th);
  }

  lemma SamePlaces(l: LegSamples, rs: seq<Record>, th: Thresholds)
    requires l == SamplesOf(rs)
    ensures Over(l.jitter, th.maxJitterMs) == JitterBreaches(AnsweredRuns(rs), th.maxJitterMs)
    ensures Over(l.p99excess, th.maxP99ExcessMs) == P99Breaches(AnsweredRuns(rs), th.maxP99ExcessMs)
    ensures Over(l.loss, th.maxLossPct) == LossBreaches(rs, th.maxLossPct)
  {
    SamplesCount(rs);
    hide SamplesOf, AnsweredRuns;
  }

  /** The medians of leg A against those of legs B and C together. */
  ghost function Gain(a: LegSamples, b: LegSamples, c: LegSamples): real {
    Median(a.p50) - (Median(b.p50) + Median(c.p50))
  }

  /** A candidate passes exactly when each of the three legs has enough distinct answered
      runs inside the window, the medians gain at least the margin, and on each tunnel leg
      at most the allowed share of runs is at or over each bar. */
  lemma PassIff(recs: seq<Record>, th: Thresholds, start: int, end: int, k: Candidate)
    requires IsCandidate(recs, th, start, end, k)
    ensures var runs := Runs(recs, start, end);
      var (a, b, c) := (LegRuns(runs, "A", k.isp, k.landmark), LegRuns(runs, "B", k.isp, k.vps), LegRuns(runs, "C", k.vps, k.landmark));
      var gain := Gain(SamplesOf(a), SamplesOf(b), SamplesOf(c));
      k.pass <==>
        && EnoughRuns(a, th) && EnoughRuns(b, th) && EnoughRuns(c, th)
        && gain > 0.0 && gain >= th.minGainMs
        && SteadyLeg(b, th) && SteadyLeg(c, th)
  {
    hide Median, BreachPct, MaxOf, SteadyLeg;
    var runs := Runs(recs, start, end);
    var a, b, c := LegRuns(runs, "A", k.isp, k.landmark), LegRuns(runs, "B", k.isp, k.vps), LegRuns(runs, "C", k.vps, k.landmark);
    SamplesCount(a);
    SamplesCount(b);
    SamplesCount(c);
    if AnsweredRuns(b) != [] { SteadyLegIff(b, th); }
    if AnsweredRuns(c) != [] { SteadyLegIff(c, th); }
    hide SamplesOf, AnsweredRuns, LegRuns;
    var sa := if Measured(runs, "A", k.isp, k.landmark) then Some(SamplesOf(a)) else None;
    NoReasonsIff(sa, SamplesOf(b), SamplesOf(c), th, k.isp, k.vps, k.landmark);
    if a == [] { assert |AnsweredRuns(a)| == 0 by { NoneAnswered(); } }
  }

  lemma NoneAnswered()
    ensures AnsweredRuns([]) == []
  {
  }

  lemma NoReasonsIff(a: Option<LegSamples>, b: LegSamples, c: LegSamples, th: Thresholds, isp: string, vps: string, lm: string)
    ensures Judged(a, b, c, th, isp, vps, lm).pass <==>
      && a.Some? && a.value.p50 != [] && b.p50 != [] && c.p50 != []
      && a.value.runs >= th.minRuns && b.runs >= th.minRuns && c.runs >= th.minRuns
      && Gain(a.value, b, c) > 0.0 && Gain(a.value, b, c) >= th.minGainMs
      && SteadySamples(b, th) && SteadySamples(c, th)
  {
    hide Median, BreachPct, MaxOf;
  }

  // ----- the figures of a candidate

  /** `x` is the larger of the two shares, each the percentage of figures at or over the bar. */
  ghost predicate WorseShare(x: real, b: seq<real>, c: seq<real>, bar: real) {
    && ShareIs(if BreachPct(b, bar) >= BreachPct(c, bar) then b else c, bar, x)
    && BreachPct(b, bar) <= x && BreachPct(c, bar) <= x
  }

  ghost predicate ShareIs(xs: seq<real>, bar: real, x: real) {
    if xs == [] then x == 0.0 else x * |xs| as real == 100.0 * |Over(xs, bar)| as real
  }

  /** `x` is the largest of all the figures, or 0. */
  ghost predicate Worst(x: real, b: seq<real>, c: seq<real>) {
    && x >= 0.0 && (forall y :: y in b + c ==> y <= x) && (x == 0.0 || x in b + c)
  }

  /** What a candidate reports about its three legs. */
  lemma FiguresMean(a: Option<LegSamples>, b: LegSamples, c: LegSamples, th: Thresholds, isp: string, vps: string, lm: string)
    ensures var k := Judged(a, b, c, th, isp, vps, lm);
      && k.runs <= b.runs && k.runs <= c.runs && (a.Some? ==> k.runs <= a.value.runs)
      && (k.runs == b.runs || k.runs == c.runs || (a.Some? && k.runs == a.value.runs))
      && (k.hasTunnel <==> b.p50 != [] && c.p50 != []) && (k.hasBaseline <==> a.Some? && a.value.p50 != [])
      && k.tunnelP50Ms == (if k.hasTunnel then Median(b.p50) + Median(c.p50) else 0.0)
      && k.baselineP50Ms == (if k.hasBaseline then Median(a.value.p50) else 0.0)
      && k.gainMs == (if k.hasTunnel && k.hasBaseline then k.baselineP50Ms - k.tunnelP50Ms else 0.0)
      && Worst(k.worstJitterMs, b.jitter, c.jitter) && Worst(k.worstLossPct, b.loss, c.loss)
      && WorseShare(k.jitterBreachPct, b.jitter, c.jitter, th.maxJitterMs)
      && WorseShare(k.lossBreachPct, b.loss, c.loss, th.maxLossPct)
      && WorseShare(k.p99BreachPct, b.p99excess, c.p99excess, th.maxP99ExcessMs)
  {
    WorstOfTwo(b.jitter, c.jitter);
    WorstOfTwo(b.loss, c.loss);
    WorseOfTwo(b.jitter, c.jitter, th.maxJitterMs);
    WorseOfTwo(b.loss, c.loss, th.maxLossPct);
    WorseOfTwo(b.p99excess, c.p99excess, th.maxP99ExcessMs);
    hide Median, BreachPct, MaxOf, ReasonsOf, Worst, WorseShare;
  }

  lemma WorstOfTwo(b: seq<real>, c: seq<real>)
    ensures Worst(Max(MaxOf(b), MaxOf(c)), b, c)
  {
    MaxOfMeans(b);
    MaxOfMeans(c);
    hide MaxOf;
  }

  lemma WorseOfTwo(b: seq<real>, c: seq<real>, bar: real)
    ensures WorseShare(Max(BreachPct(b, bar), BreachPct(c, bar)), b, c, bar)
  {
    BreachPctMeans(b, bar);
    BreachPctMeans(c, bar);
    hide BreachPct;
  }

  lemma InConcat(s: seq<Reason>, missed: bool, r: Reason, x: Reason)
    ensures x in s + When(missed, r) <==> x in s || (missed && x == r)
  {
  }

  lemma ReasonIn(a: Option<LegSamples>, b: LegSamples, c: LegSamples, th: Thresholds,
                 gain: real, j: real, l: real, p: real, runs: int, x: Reason)
    ensures var hasTunnel := b.p50 != [] && c.p50 != [];
      var hasBaseline := a.Some? && a.value.p50 != [];
      x in ReasonsOf(a, b, c, th, gain, j, l, p, runs) <==> match x
        case Unusable(leg) =>
          (leg == "B" && b.p50 == []) || (leg == "C" && c.p50 == []) || (leg == "A" && a.Some? && a.value.p50 == [])
        case NoBaseline => a.None?
        case Slower => hasBaseline && hasTunnel && gain <= 0.0
        case GainTooSmall => hasBaseline && hasTunnel && 0.0 < gain < th.minGainMs
        case JitterBreaches => j > th.maxBreachPct
        case LossBreaches => l > th.maxBreachPct
        case P99Breaches => p > th.maxBreachPct
        case TooFewRuns => runs < th.minRuns
  {
    var hasTunnel := b.p50 != [] && c.p50 != [];
    var hasBaseline := a.Some? && a.value.p50 != [];
    hide When;
    var legs := When(b.p50 == [], Unusable("B")) + When(c.p50 == [], Unusable("C"))
                + When(a.None?, NoBaseline) + When(a.Some? && !hasBaseline, Unusable("A"));
    InLegReasons(b.p50 == [], c.p50 == [], a.None?, a.Some? && !hasBaseline, x);
    InFigureReasons(legs, hasBaseline && hasTunnel && gain <= 0.0, hasBaseline && hasTunnel && 0.0 < gain < th.minGainMs,
                    j > th.maxBreachPct, l > th.maxBreachPct, p > th.maxBreachPct, runs < th.minRuns, x);
  }

  lemma InLegReasons(b: bool, c: bool, none: bool, a: bool, x: Reason)
    ensures x in When(b, Unusable("B")) + When(c, Unusable("C")) + When(none, NoBaseline) + When(a, Unusable("A")) <==>
      (b && x == Unusable("B")) || (c && x == Unusable("C")) || (none && x == NoBaseline) || (a && x == Unusable("A"))
  {
    InConcat([], b, Unusable("B"), x);
    assert [] + When(b, Unusable("B")) == When(b, Unusable("B"));
    InConcat(When(b, Unusable("B")), c, Unusable("C"), x);
    InConcat(When(b, Unusable("B")) + When(c, Unusable("C")), none, NoBaseline, x);
    InConcat(When(b, Unusable("B")) + When(c, Unusable("C")) + When(none, NoBaseline), a, Unusable("A"), x);
    hide When;
  }

  lemma InFigureReasons(s: seq<Reason>, slow: bool, small: bool, j: bool, l: bool, p: bool, few: bool, x: Reason)
    ensures x in s + When(slow, Slower) + When(small, GainTooSmall) + When(j, Reason.JitterBreaches)
                 + When(l, Reason.LossBreaches) + When(p, Reason.P99Breaches) + When(few, TooFewRuns) <==>
      x in s || (slow && x == Slower) || (small && x == GainTooSmall) || (j && x == Reason.JitterBreaches)
      || (l && x == Reason.LossBreaches) || (p && x == Reason.P99Breaches) || (few && x == TooFewRuns)
  {
    hide When;
    var s1 := s + When(slow, Slower);
    var s2 := s1 + When(small, GainTooSmall);
    var s3 := s2 + When(j, Reason.JitterBreaches);
    var s4 := s3 + When(l, Reason.LossBreaches);
    var s5 := s4 + When(p, Reason.P99Breaches);
    InConcat(s, slow, Slower, x);
    InConcat(s1, small, GainTooSmall, x);
    InConcat(s2, j, Reason.JitterBreaches, x);
    InConcat(s3, l, Reason.LossBreaches, x);
    InConcat(s4, p, Reason.P99Breaches, x);
    InConcat(s5, few, TooFewRuns, x);
  }

  /** Each reason is given exactly when its bar is missed, in terms of the candidate's own
      figures; a candidate passes exactly when none is. */
  lemma ReasonsMean(a: Option<LegSamples>, b: LegSamples, c: LegSamples, th: Thresholds, isp: string, vps: string, lm: string, x: Reason)
    ensures var k := Judged(a, b, c, th, isp, vps, lm);
      && (k.pass <==> k.reasons == [])
      && (x in k.reasons <==> match x
          case Unusable(leg) =>
            (leg == "B" && b.p50 == []) || (leg == "C" && c.p50 == []) || (leg == "A" && a.Some? && a.value.p50 == [])
          case NoBaseline => a.None?
          case Slower => k.hasBaseline && k.hasTunnel && k.gainMs <= 0.0
          case GainTooSmall => k.hasBaseline && k.hasTunnel && 0.0 < k.gainMs < th.minGainMs
          case JitterBreaches => k.jitterBreachPct > th.maxBreachPct
          case LossBreaches => k.lossBreachPct > th.maxBreachPct
          case P99Breaches => k.p99BreachPct > th.maxBreachPct
          case TooFewRuns => k.runs < th.minRuns)
  {
    hide Median, BreachPct, MaxOf, Max, ReasonsOf;
    var k := Judged(a, b, c, th, isp, vps, lm);
    ReasonIn(a, b, c, th, k.gainMs, k.jitterBreachPct, k.lossBreachPct, k.p99BreachPct, k.runs, x);
  }

  // ----- the statistics

  lemma {:induction false} AtLeastConcat(xs: seq<real>, ys: seq<real>, bar: real)
    ensures AtLeast(xs + ys, bar) == AtLeast(xs, bar) + AtLeast(ys, bar)
    decreases |ys|
  {
    if ys == [] {
      assert xs + ys == xs;
    } else {
      assert (xs + ys)[..|xs + ys| - 1] == xs + ys[..|ys| - 1];
      AtLeastConcat(xs, ys[..|ys| - 1], bar);
    }
  }

  lemma AtLeastWithout(ys: seq<real>, i: nat, bar: real)
    requires i < |ys|
    ensures AtLeast(ys, bar) == AtLeast(ys[..i] + ys[i + 1..], bar) + if ys[i] >= bar then 1 else 0
  {
    assert ys == ys[..i] + ([ys[i]] + ys[i + 1..]);
    AtLeastConcat(ys[..i], [ys[i]] + ys[i + 1..], bar);
    AtLeastConcat([ys[i]], ys[i + 1..], bar);
    AtLeastConcat(ys[..i], ys[i + 1..], bar);
    assert [ys[i]][..0] == [];
  }

  lemma WithoutSame(xs: seq<real>, ys: seq<real>, i: nat)
    requires xs != [] && i < |ys| && ys[i] == xs[|xs| - 1] && multiset(xs) == multiset(ys)
    ensures multiset(xs[..|xs| - 1]) == multiset(ys[..i] + ys[i + 1..])
  {
    assert xs == xs[..|xs| - 1] + [xs[|xs| - 1]];
    assert ys == ys[..i] + [ys[i]] + ys[i + 1..];
    calc {
      multiset(xs[..|xs| - 1]);
      multiset(xs) - multiset{ys[i]};
      multiset(ys) - multiset{ys[i]};
      multiset(ys[..i] + ys[i + 1..]);
    }
  }

  /** Counting does not depend on the order of the samples. */
  lemma {:induction false} AtLeastIgnoresOrder(xs: seq<real>, ys: seq<real>, bar: real)
    requires multiset(xs) == multiset(ys)
    ensures AtLeast(xs, bar) == AtLeast(ys, bar)
    decreases |xs|
  {
    SameMembers(xs, ys);
    if xs != [] {
      var x := xs[|xs| - 1];
      assert x in ys;
      var i :| 0 <= i < |ys| && ys[i] == x;
      WithoutSame(xs, ys, i);
      AtLeastWithout(ys, i, bar);
      AtLeastIgnoresOrder(xs[..|xs| - 1], ys[..i] + ys[i + 1..], bar);
    }
  }

  lemma {:induction false} SortedCount(s: seq<real>, k: nat, bar: real)
    requires Sorted(s, RealLeq) && k <= |s|
    requires forall i :: k <= i < |s| ==> s[i] >= bar
    ensures AtLeast(s, bar) >= |s| - k
    ensures (forall i :: 0 <= i < k ==> s[i] < bar) ==> AtLeast(s, bar) == |s| - k
    decreases |s|
  {
    if k < |s| {
      SortedCount(s[..|s| - 1], k, bar);
    } else if s != [] {
      SortedCount(s[..|s| - 1], |s| - 1, bar);
    }
  }

  lemma MiddleOfSorted(s: seq<real>, above: real)
    requires s != [] && Sorted(s, RealLeq) && above > s[|s| / 2]
    ensures AtLeast(s, s[|s| / 2]) >= |s| - |s| / 2
    ensures AtLeast(s, above) < |s| - |s| / 2
  {
    hide AtLeast;
    var h := |s| / 2;
    forall i | h <= i < |s| ensures s[i] >= s[h] { assert i > h ==> RealLeq(s[h], s[i]); }
    SortedCount(s, h, s[h]);
    var low, high := s[..h + 1], s[h + 1..];
    assert s == low + high;
    AtLeastConcat(low, high, above);
    forall i | 0 <= i < |low| ensures low[i] < above { assert i < h ==> RealLeq(s[i], s[h]); }
    SortedCount(low, |low|, above);
    AtLeastBounded(high, above);
  }

  /** The median is a sample; no more than half of the samples lie below it, and fewer than
      half above. */
  lemma MedianIsMiddle(xs: seq<real>, above: real)
    requires xs != [] && above > Median(xs)
    ensures Median(xs) in xs
    ensures |xs| - AtLeast(xs, Median(xs)) <= |xs| / 2
    ensures AtLeast(xs, above) < |xs| - |xs| / 2
  {
    var s := SortedSeq(xs, RealLeq);
    hide SortedSeq, AtLeast;
    SameMembers(s, xs);
    assert s[|s| / 2] in s;
    AtLeastIgnoresOrder(s, xs, s[|s| / 2]);
    AtLeastIgnoresOrder(s, xs, above);
    MiddleOfSorted(s, above);
  }

  lemma {:induction false} AtLeastBounded(xs: seq<real>, bar: real)
    ensures AtLeast(xs, bar) <= |xs|
  {
    if xs != [] { AtLeastBounded(xs[..|xs| - 1], bar); }
  }
}
