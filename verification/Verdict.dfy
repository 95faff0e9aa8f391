/** From a campaign of measurement runs to a verdict for each (ISP, VPS, landmark). */
module Verdict {
  import opened Wrappers
  import opened Sorting
  import Text

  /** One run: when (nanoseconds), which leg, between what, and its figures. */
  datatype Record = Record(ts: int, leg: string, src: string, dst: string,
                           received: int, lossPct: real, p50Ms: real, jitterMs: real, p99Ms: real)

  datatype Thresholds = Thresholds(maxJitterMs: real, maxLossPct: real, maxP99ExcessMs: real, minRuns: int,
                                   maxBreachPct: real, minGainMs: real)

  datatype Reason =
    | Unusable(leg: string) | NoBaseline | Slower | GainTooSmall
    | JitterBreaches | LossBreaches | P99Breaches | TooFewRuns

  datatype Candidate = Candidate(vps: string, isp: string, landmark: string, runs: int,
                                 hasBaseline: bool, hasTunnel: bool,
                                 baselineP50Ms: real, tunnelP50Ms: real, gainMs: real,
                                 worstJitterMs: real, worstLossPct: real,
                                 jitterBreachPct: real, lossBreachPct: real, p99BreachPct: real,
                                 pass: bool, reasons: seq<Reason>)
  {
    predicate HasGain() { hasBaseline && hasTunnel }
  }

  type Pair = (string, string)

  /** The runs of one leg: latency figures of those that received an echo, loss of all. */
  datatype LegSamples = LegSamples(p50: seq<real>, jitter: seq<real>, p99excess: seq<real>, loss: seq<real>, runs: int) {
    function Add(r: Record): LegSamples {
      var l := this.(loss := loss + [r.lossPct]);
      if r.received == 0 then l
      else l.(p50 := p50 + [r.p50Ms], jitter := jitter + [r.jitterMs],
              p99excess := p99excess + [r.p99Ms - r.p50Ms], runs := runs + 1)
    }
  }

  const NO_SAMPLES := LegSamples([], [], [], [], 0)

  /** Hour of day in Vietnam, seven hours ahead all year. */
  function HourVN(ts: int): int {
    (ts / 1_000_000_000 + 7 * 3600) % 86400 / 3600
  }

  predicate InWindow(r: Record, start: int, end: int) {
    start <= HourVN(r.ts) < end
  }

  /** Two records agreeing on these are one run read twice. */
  datatype RunKey = RunKey(ts: int, leg: string, src: string, dst: string)

  function KeyOf(r: Record): RunKey {
    RunKey(r.ts, r.leg, r.src, r.dst)
  }

  // ----- the evaluation

  method Evaluate(recs: seq<Record>, th: Thresholds, start: int, end: int) returns (out: seq<Candidate>, dupes: nat)
    ensures NoDuplicates(out) && forall c :: c in out <==> IsCandidate(recs, th, start, end, c)
    ensures Sorted(out, Before)
    ensures dupes == Dupes(recs, start, end)
  {
    var baseline, legB, legC, landmarks;
    baseline, legB, legC, landmarks, dupes := Collect(recs, start, end);
    var list := JudgeGrid(Runs(recs, start, end), baseline, legB, legC, landmarks, th);
    BeforeIsOrder();
    out := Sort(list, Before);
    SameMembers(out, list);
    PermutationKeepsNoDuplicates(out, list);
  }

  /** Files every distinct run inside the window under its leg. */
  method Collect(recs: seq<Record>, start: int, end: int)
    returns (baseline: map<Pair, LegSamples>, legB: map<Pair, LegSamples>, legC: map<Pair, LegSamples>,
             landmarks: set<string>, dupes: nat)
    ensures Filed(Runs(recs, start, end), baseline, legB, legC)
    ensures landmarks == Landmarks(Runs(recs, start, end)) && dupes == Dupes(recs, start, end)
  {
    hide Filed, File;
    baseline, legB, legC, landmarks := map[], map[], map[], {};
    var seen: set<RunKey> := {};
    dupes := 0;
    NothingFiled();
    for i := 0 to |recs|
      invariant seen == Keys(Runs(recs[..i], start, end)) && dupes == Dupes(recs[..i], start, end)
      invariant Filed(Runs(recs[..i], start, end), baseline, legB, legC)
      invariant landmarks == Landmarks(Runs(recs[..i], start, end))
    {
      var r := recs[i];
      assert recs[..i + 1][..i] == recs[..i];
      if InWindow(r, start, end) {
        if KeyOf(r) in seen {
          dupes := dupes + 1;
        } else {
          FiledStep(Runs(recs[..i], start, end), r, baseline, legB, legC);
          seen := seen + {KeyOf(r)};
          if r.leg == "A" {
            landmarks := landmarks + {r.dst};
            baseline := File(baseline, r);
          } else if r.leg == "B" {
            legB := File(legB, r);
          } else if r.leg == "C" {
            landmarks := landmarks + {r.dst};
            legC := File(legC, r);
          }
        }
      }
    }
    assert recs[..|recs|] == recs;
  }

  /** Judges every pair seen on leg B against every landmark, where leg C was measured. */
  method JudgeGrid(ghost runs: seq<Record>, baseline: map<Pair, LegSamples>, legB: map<Pair, LegSamples>,
                   legC: map<Pair, LegSamples>, landmarks: set<string>, th: Thresholds) returns (out: seq<Candidate>)
    requires Filed(runs, baseline, legB, legC) && landmarks == Landmarks(runs)
    ensures NoDuplicates(out)
    ensures forall c :: c in out <==> OnGrid(runs, c) && c == JudgedAt(runs, th, c.isp, c.vps, c.landmark)
  {
    hide Judged, LegRuns, Samples;
    out := [];
    var todo := legB.Keys;
    while todo != {}
      invariant todo <= legB.Keys && NoDuplicates(out)
      invariant forall c :: c in out <==> OnGrid(runs, c) && (c.isp, c.vps) !in todo && c == JudgedAt(runs, th, c.isp, c.vps, c.landmark)
    {
      var bp :| bp in todo;
      var row := JudgeRow(runs, baseline, legB[bp], legC, landmarks, th, bp.0, bp.1);
      ConcatNoDuplicates(out, row);
      out := out + row;
      todo := todo - {bp};
    }
  }

  method JudgeRow(ghost runs: seq<Record>, baseline: map<Pair, LegSamples>, b: LegSamples, legC: map<Pair, LegSamples>,
                  landmarks: set<string>, th: Thresholds, isp: string, vps: string) returns (row: seq<Candidate>)
    requires FiledLeg(runs, "A", baseline) && FiledLeg(runs, "C", legC) && landmarks == Landmarks(runs)
    requires b == Samples(runs, "B", isp, vps)
    ensures NoDuplicates(row)
    ensures forall c :: c in row <==> InRow(runs, th, isp, vps, c)
  {
    hide JudgedAt, Samples, Measured, Landmarks, LegRuns;
    MeasuredLandmarks(runs, vps);
    row := [];
    var lms := landmarks;
    while lms != {}
      invariant lms <= landmarks && NoDuplicates(row)
      invariant forall c :: c in row ==> InRow(runs, th, isp, vps, c) && c.landmark !in lms
      invariant forall lm :: Measured(runs, "C", vps, lm) && lm !in lms ==> JudgedAt(runs, th, isp, vps, lm) in row
    {
      var lm :| lm in lms;
      lms := lms - {lm};
      if (vps, lm) in legC {
        var cand := JudgeOne(runs, baseline, b, legC[(vps, lm)], th, isp, vps, lm);
        ConcatNoDuplicates(row, [cand]);
        row := row + [cand];
      }
    }
  }

  ghost predicate InRow(runs: seq<Record>, th: Thresholds, isp: string, vps: string, c: Candidate) {
    && c.isp == isp && c.vps == vps && Measured(runs, "C", vps, c.landmark)
    && c == JudgedAt(runs, th, isp, vps, c.landmark)
  }

  method JudgeOne(ghost runs: seq<Record>, baseline: map<Pair, LegSamples>, b: LegSamples, c: LegSamples,
                  th: Thresholds, isp: string, vps: string, lm: string) returns (cand: Candidate)
    requires FiledLeg(runs, "A", baseline)
    requires b == Samples(runs, "B", isp, vps) && c == Samples(runs, "C", vps, lm)
    ensures cand == JudgedAt(runs, th, isp, vps, lm)
    ensures cand.isp == isp && cand.vps == vps && cand.landmark == lm
  {
    hide Samples, Measured;
    var a := if (isp, lm) in baseline then Some(baseline[(isp, lm)]) else None;
    cand := Judge(a, b, c, th, isp, vps, lm);
  }

  method Judge(a: Option<LegSamples>, b: LegSamples, c: LegSamples, th: Thresholds, isp: string, vps: string, lm: string)
    returns (cand: Candidate)
    ensures cand == Judged(a, b, c, th, isp, vps, lm)
  {
    hide Median, BreachPct, MaxOf, Max, ReasonsOf;
    var runs := b.runs;
    if c.runs < runs { runs := c.runs; }
    if a.Some? && a.value.runs < runs { runs := a.value.runs; }
    var hasTunnel := b.p50 != [] && c.p50 != [];
    var tunnel := if hasTunnel then Median(b.p50) + Median(c.p50) else 0.0;
    var hasBaseline := a.Some? && a.value.p50 != [];
    var baseline := if hasBaseline then Median(a.value.p50) else 0.0;
    var gain := if hasBaseline && hasTunnel then baseline - tunnel else 0.0;
    var j := Max(BreachPct(b.jitter, th.maxJitterMs), BreachPct(c.jitter, th.maxJitterMs));
    var l := Max(BreachPct(b.loss, th.maxLossPct), BreachPct(c.loss, th.maxLossPct));
    var p := Max(BreachPct(b.p99excess, th.maxP99ExcessMs), BreachPct(c.p99excess, th.maxP99ExcessMs));
    var reasons := Reasons(a, b, c, th, gain, j, l, p, runs);
    cand := Candidate(vps, isp, lm, runs, hasBaseline, hasTunnel, baseline, tunnel, gain,
                      Max(MaxOf(b.jitter), MaxOf(c.jitter)), Max(MaxOf(b.loss), MaxOf(c.loss)),
                      j, l, p, reasons == [], reasons);
  }

  method Reasons(a: Option<LegSamples>, b: LegSamples, c: LegSamples, th: Thresholds,
                 gain: real, j: real, l: real, p: real, runs: int) returns (reasons: seq<Reason>)
    ensures reasons == ReasonsOf(a, b, c, th, gain, j, l, p, runs)
  {
    hide When;
    var hasTunnel := b.p50 != [] && c.p50 != [];
    var hasBaseline := a.Some? && a.value.p50 != [];
    reasons := When(b.p50 == [], Unusable("B"));
    reasons := reasons + When(c.p50 == [], Unusable("C"));
    reasons := reasons + When(a.None?, NoBaseline);
    reasons := reasons + When(a.Some? && !hasBaseline, Unusable("A"));
    reasons := reasons + When(hasBaseline && hasTunnel && gain <= 0.0, Slower);
    reasons := reasons + When(hasBaseline && hasTunnel && 0.0 < gain < th.minGainMs, GainTooSmall);
    reasons := reasons + When(j > th.maxBreachPct, JitterBreaches);
    reasons := reasons + When(l > th.maxBreachPct, LossBreaches);
    reasons := reasons + When(p > th.maxBreachPct, P99Breaches);
    reasons := reasons + When(runs < th.minRuns, TooFewRuns);
  }

  function File(m: map<Pair, LegSamples>, r: Record): map<Pair, LegSamples> {
    var k := (r.src, r.dst);
    m[k := (if k in m then m[k] else NO_SAMPLES).Add(r)]
  }

  function Max(x: real, y: real): real {
    if x >= y then x else y
  }

  predicate RealLeq(x: real, y: real) {
    x <= y
  }

  /** The upper middle of the sorted samples. */
  function Median(xs: seq<real>): real {
    if xs == [] then 0.0
    else
      var s := SortedSeq(xs, RealLeq);
      assert |s| == |xs| by { SameMembers(s, xs); }
      s[|s| / 2]
  }

  /** The largest sample, or 0. */
  function MaxOf(xs: seq<real>): real {
    if xs == [] then 0.0 else Max(MaxOf(xs[..|xs| - 1]), xs[|xs| - 1])
  }

  function AtLeast(xs: seq<real>, bar: real): nat {
    if xs == [] then 0 else AtLeast(xs[..|xs| - 1], bar) + if xs[|xs| - 1] >= bar then 1 else 0
  }

  /** Share of the samples at or over the bar. */
  function BreachPct(xs: seq<real>, bar: real): real {
    if xs == [] then 0.0 else AtLeast(xs, bar) as real / |xs| as real * 100.0
  }

  predicate Before(c: Candidate, d: Candidate) {
    if c.HasGain() != d.HasGain() then c.HasGain()
    else if c.gainMs != d.gainMs then c.gainMs > d.gainMs
    else Text.Leq(c.vps, d.vps)
  }

  lemma BeforeIsOrder()
    ensures TotalPreorder(Before)
  {
    forall c, d ensures Before(c, d) || Before(d, c) { Text.LeqTotal(c.vps, d.vps); }
    forall c, d, e | Before(c, d) && Before(d, e) ensures Before(c, e) {
      if c.HasGain() == d.HasGain() == e.HasGain() && c.gainMs == d.gainMs == e.gainMs {
        Text.LeqTransitive(c.vps, d.vps, e.vps);
      }
    }
  }

  // ----- what is evaluated

  ghost function Keys(runs: seq<Record>): set<RunKey> {
    set r | r in runs :: KeyOf(r)
  }

  /** The distinct runs inside the window, in the order first read. */
  ghost function Runs(recs: seq<Record>, start: int, end: int): seq<Record> {
    if recs == [] then []
    else
      var front, r := Runs(recs[..|recs| - 1], start, end), recs[|recs| - 1];
      if !InWindow(r, start, end) || KeyOf(r) in Keys(front) then front else front + [r]
  }

  ghost function Dupes(recs: seq<Record>, start: int, end: int): nat {
    if recs == [] then 0
    else
      var front, r := recs[..|recs| - 1], recs[|recs| - 1];
      Dupes(front, start, end) +
      if InWindow(r, start, end) && KeyOf(r) in Keys(Runs(front, start, end)) then 1 else 0
  }

  /** The runs of one leg between two ends. */
  ghost function LegRuns(runs: seq<Record>, leg: string, src: string, dst: string): seq<Record> {
    if runs == [] then []
    else
      var r := runs[|runs| - 1];
      LegRuns(runs[..|runs| - 1], leg, src, dst) + if r.leg == leg && r.src == src && r.dst == dst then [r] else []
  }

  ghost function SamplesOf(runs: seq<Record>): LegSamples {
    if runs == [] then NO_SAMPLES else SamplesOf(runs[..|runs| - 1]).Add(runs[|runs| - 1])
  }

  ghost function Samples(runs: seq<Record>, leg: string, src: string, dst: string): LegSamples {
    SamplesOf(LegRuns(runs, leg, src, dst))
  }

  ghost predicate Measured(runs: seq<Record>, leg: string, src: string, dst: string) {
    LegRuns(runs, leg, src, dst) != []
  }

  ghost function Landmarks(runs: seq<Record>): set<string> {
    set r | r in runs && (r.leg == "A" || r.leg == "C") :: r.dst
  }

  /** The combinations somebody measured on both legs of the tunnel. */
  ghost predicate OnGrid(runs: seq<Record>, c: Candidate) {
    Measured(runs, "B", c.isp, c.vps) && Measured(runs, "C", c.vps, c.landmark)
  }

  ghost function JudgedAt(runs: seq<Record>, th: Thresholds, isp: string, vps: string, lm: string): Candidate {
    Judged(if Measured(runs, "A", isp, lm) then Some(Samples(runs, "A", isp, lm)) else None,
           Samples(runs, "B", isp, vps), Samples(runs, "C", vps, lm), th, isp, vps, lm)
  }

  ghost predicate IsCandidate(recs: seq<Record>, th: Thresholds, start: int, end: int, c: Candidate) {
    var runs := Runs(recs, start, end);
    OnGrid(runs, c) && c == JudgedAt(runs, th, c.isp, c.vps, c.landmark)
  }

  function When(b: bool, r: Reason): seq<Reason> {
    if b then [r] else []
  }

  /** Every bar missed, in the order they are looked at. */
  ghost function ReasonsOf(a: Option<LegSamples>, b: LegSamples, c: LegSamples, th: Thresholds,
                           gain: real, j: real, l: real, p: real, runs: int): seq<Reason>
  {
    var hasTunnel := b.p50 != [] && c.p50 != [];
    var hasBaseline := a.Some? && a.value.p50 != [];
    When(b.p50 == [], Unusable("B")) + When(c.p50 == [], Unusable("C"))
    + When(a.None?, NoBaseline) + When(a.Some? && !hasBaseline, Unusable("A"))
    + When(hasBaseline && hasTunnel && gain <= 0.0, Slower)
    + When(hasBaseline && hasTunnel && 0.0 < gain < th.minGainMs, GainTooSmall)
    + When(j > th.maxBreachPct, JitterBreaches) + When(l > th.maxBreachPct, LossBreaches)
    + When(p > th.maxBreachPct, P99Breaches) + When(runs < th.minRuns, TooFewRuns)
  }

  /** The verdict on three legs: every bar missed is a reason, and only none is a pass. */
  ghost function Judged(a: Option<LegSamples>, b: LegSamples, c: LegSamples, th: Thresholds,
                        isp: string, vps: string, lm: string): Candidate
  {
    var least := if c.runs < b.runs then c.runs else b.runs;
    var runs := if a.Some? && a.value.runs < least then a.value.runs else least;
    var hasTunnel := b.p50 != [] && c.p50 != [];
    var hasBaseline := a.Some? && a.value.p50 != [];
    var tunnel := if hasTunnel then Median(b.p50) + Median(c.p50) else 0.0;
    var baseline := if hasBaseline then Median(a.value.p50) else 0.0;
    var gain := if hasBaseline && hasTunnel then baseline - tunnel else 0.0;
    var j := Max(BreachPct(b.jitter, th.maxJitterMs), BreachPct(c.jitter, th.maxJitterMs));
    var l := Max(BreachPct(b.loss, th.maxLossPct), BreachPct(c.loss, th.maxLossPct));
    var p := Max(BreachPct(b.p99excess, th.maxP99ExcessMs), BreachPct(c.p99excess, th.maxP99ExcessMs));
    var reasons := ReasonsOf(a, b, c, th, gain, j, l, p, runs);
    Candidate(vps, isp, lm, runs, hasBaseline, hasTunnel, baseline, tunnel, gain,
              Max(MaxOf(b.jitter), MaxOf(c.jitter)), Max(MaxOf(b.loss), MaxOf(c.loss)),
              j, l, p, reasons == [], reasons)
  }

  // ----- filing

  ghost predicate FiledLeg(runs: seq<Record>, leg: string, m: map<Pair, LegSamples>) {
    forall k: Pair :: (k in m <==> Measured(runs, leg, k.0, k.1)) && (k in m ==> m[k] == Samples(runs, leg, k.0, k.1))
  }

  ghost predicate Filed(runs: seq<Record>, a: map<Pair, LegSamples>, b: map<Pair, LegSamples>, c: map<Pair, LegSamples>) {
    FiledLeg(runs, "A", a) && FiledLeg(runs, "B", b) && FiledLeg(runs, "C", c)
  }

  lemma NothingFiled()
    ensures Filed([], map[], map[], map[])
  {
  }

  lemma MeasuredLandmarks(runs: seq<Record>, vps: string)
    ensures forall lm :: Measured(runs, "C", vps, lm) ==> lm in Landmarks(runs)
  {
    forall lm | Measured(runs, "C", vps, lm) ensures lm in Landmarks(runs) {
      LegRunsMembers(runs, "C", vps, lm);
      assert LegRuns(runs, "C", vps, lm)[0] in LegRuns(runs, "C", vps, lm);
    }
  }

  lemma {:induction false} LegRunsMembers(runs: seq<Record>, leg: string, src: string, dst: string)
    ensures forall r :: r in LegRuns(runs, leg, src, dst) <==> r in runs && r.leg == leg && r.src == src && r.dst == dst
  {
    if runs != [] {
      LegRunsMembers(runs[..|runs| - 1], leg, src, dst);
      assert runs == runs[..|runs| - 1] + [runs[|runs| - 1]];
    }
  }

  lemma LegRunsStep(runs: seq<Record>, r: Record, leg: string, src: string, dst: string)
    ensures LegRuns(runs + [r], leg, src, dst) ==
      LegRuns(runs, leg, src, dst) + if r.leg == leg && r.src == src && r.dst == dst then [r] else []
    ensures var one := LegRuns(runs, leg, src, dst) + [r]; SamplesOf(one) == Samples(runs, leg, src, dst).Add(r)
  {
    assert (runs + [r])[..|runs|] == runs;
    var one := LegRuns(runs, leg, src, dst) + [r];
    assert one[..|one| - 1] == LegRuns(runs, leg, src, dst);
  }

  lemma FiledLegStep(runs: seq<Record>, r: Record, leg: string, m: map<Pair, LegSamples>)
    requires FiledLeg(runs, leg, m)
    ensures FiledLeg(runs + [r], leg, if r.leg == leg then File(m, r) else m)
  {
    var t := if r.leg == leg then File(m, r) else m;
    forall k: Pair
      ensures k in t <==> Measured(runs + [r], leg, k.0, k.1)
      ensures k in t ==> t[k] == Samples(runs + [r], leg, k.0, k.1)
    {
      LegRunsStep(runs, r, leg, k.0, k.1);
      assert LegRuns(runs, leg, k.0, k.1) + [] == LegRuns(runs, leg, k.0, k.1);
    }
  }

  lemma FiledStep(runs: seq<Record>, r: Record, a: map<Pair, LegSamples>, b: map<Pair, LegSamples>, c: map<Pair, LegSamples>)
    requires Filed(runs, a, b, c)
    ensures Filed(runs + [r], if r.leg == "A" then File(a, r) else a, if r.leg == "B" then File(b, r) else b,
                  if r.leg == "C" then File(c, r) else c)
  {
    FiledLegStep(runs, r, "A", a);
    FiledLegStep(runs, r, "B", b);
    FiledLegStep(runs, r, "C", c);
  }
}
