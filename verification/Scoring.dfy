/** The threat-scoring engine (app/scoring/engine.py), over exact reals, and the signals
    the enrichment engine feeds it (app/enrichment/engine.py). */
module Scoring {

  /** The nine signals, in the order of the weight table. */
  datatype Signals = Signals(
    sourceReputation: real, detectionRatio: real, blacklistPresence: real, confidence: real, recency: real,
    frequency: real, geoRisk: real, portRisk: real, historicalActivity: real)
  {
    function ToSeq(): (r: seq<real>)
      ensures |r| == 9
    {
      [sourceReputation, detectionRatio, blacklistPresence, confidence, recency,
       frequency, geoRisk, portRisk, historicalActivity]
    }
  }

  const WEIGHTS: seq<real> := [0.22, 0.20, 0.14, 0.12, 0.10, 0.08, 0.06, 0.05, 0.03]

  datatype ThreatLevel = Clean | Low | Medium | High | Critical

  function LevelForScore(score: int): ThreatLevel {
    if score >= 85 then Critical
    else if score >= 65 then High
    else if score >= 40 then Medium
    else if score >= 15 then Low
    else Clean
  }

  function Rank(l: ThreatLevel): nat {
    match l case Clean => 0 case Low => 1 case Medium => 2 case High => 3 case Critical => 4
  }

  function Clamp01(x: real): real {
    if x < 0.0 then 0.0 else if x > 1.0 then 1.0 else x
  }

  /** `round`, which takes a half to the even neighbour. */
  function Round(x: real): int {
    var f := x.Floor;
    var d := x - f as real;
    if d < 0.5 || (d == 0.5 && f % 2 == 0) then f else f + 1
  }

  /** `round(x, 2)`. */
  function Round2(x: real): real {
    Round(x * 100.0) as real / 100.0
  }

  function Sum(xs: seq<real>): real {
    if xs == [] then 0.0 else Sum(xs[..|xs| - 1]) + xs[|xs| - 1]
  }

  /** Each clamped signal times its weight. */
  function Contributions(s: Signals): (r: seq<real>)
    ensures |r| == 9 && forall i | 0 <= i < 9 :: r[i] == Clamp01(s.ToSeq()[i]) * WEIGHTS[i]
  {
    seq(9, i requires 0 <= i < 9 => Clamp01(s.ToSeq()[i]) * WEIGHTS[i])
  }

  datatype ScoreResult = ScoreResult(score: int, level: ThreatLevel, contributions: seq<real>)

  function ComputeThreatScore(s: Signals): ScoreResult {
    var total := Sum(WEIGHTS);
    WeightsSumToOne();
    var raw := Sum(Contributions(s)) / total;
    var score := Round(raw * 100.0);
    ScoreResult(score, LevelForScore(score),
                seq(9, i requires 0 <= i < 9 => Round2(Contributions(s)[i] / total * 100.0)))
  }

  // -------------------------------------------------------------------- rounding

  lemma RoundClose(x: real)
    ensures -0.5 <= Round(x) as real - x <= 0.5
  {
  }

  lemma RoundMonotone(x: real, y: real)
    requires x <= y
    ensures Round(x) <= Round(y)
  {
  }

  lemma Round2Close(x: real)
    ensures -0.005 <= Round2(x) - x <= 0.005
  {
  }

  // ------------------------------------------------------------------------ sums

  lemma {:induction false} SumMonotone(a: seq<real>, b: seq<real>)
    requires |a| == |b| && forall i | 0 <= i < |a| :: a[i] <= b[i]
    ensures Sum(a) <= Sum(b)
  {
    if a != [] {
      SumMonotone(a[..|a| - 1], b[..|b| - 1]);
    }
  }

  /** Sums of numbers that differ by at most `eps` each differ by at most that much per number. */
  lemma {:induction false} SumClose(a: seq<real>, b: seq<real>, eps: real)
    requires |a| == |b| && forall i | 0 <= i < |a| :: -eps <= a[i] - b[i] <= eps
    ensures -(|a| as real * eps) <= Sum(a) - Sum(b) <= |a| as real * eps
  {
    if a != [] {
      var n := |a| - 1;
      SumClose(a[..n], b[..n], eps);
      assert |a| as real * eps == n as real * eps + eps;
    }
  }

  lemma {:induction false} SumScaled(a: seq<real>, b: seq<real>, k: real)
    requires |a| == |b| && forall i | 0 <= i < |a| :: b[i] == a[i] * k
    ensures Sum(b) == Sum(a) * k
  {
    if a != [] {
      SumScaled(a[..|a| - 1], b[..|b| - 1], k);
    }
  }

  lemma SumNine(w: seq<real>)
    requires |w| == 9
    ensures Sum(w) == w[0] + w[1] + w[2] + w[3] + w[4] + w[5] + w[6] + w[7] + w[8]
  {
    SumThree(w, 9);
    SumThree(w, 6);
    SumThree(w, 3);
    assert w[..9] == w && w[..0] == [];
  }

  lemma SumLast(w: seq<real>, n: nat)
    requires 1 <= n <= |w|
    ensures Sum(w[..n]) == Sum(w[..n - 1]) + w[n - 1]
  {
    assert w[..n][..n - 1] == w[..n - 1];
  }

  lemma SumThree(w: seq<real>, n: nat)
    requires 3 <= n <= |w|
    ensures Sum(w[..n]) == Sum(w[..n - 3]) + w[n - 3] + w[n - 2] + w[n - 1]
  {
    SumLast(w, n);
    SumLast(w, n - 1);
    SumLast(w, n - 2);
  }

  /** The weights add up to one. */
  lemma WeightsSumToOne()
    ensures Sum(WEIGHTS) == 1.0
  {
    SumNine(WEIGHTS);
  }

  // ------------------------------------------------------------------ the promise

  ghost predicate NotAbove(a: Signals, b: Signals) {
    forall i | 0 <= i < 9 :: a.ToSeq()[i] <= b.ToSeq()[i]
  }

  lemma ContributionsMonotone(a: Signals, b: Signals)
    requires NotAbove(a, b)
    ensures forall i | 0 <= i < 9 :: Contributions(a)[i] <= Contributions(b)[i]
  {
  }

  lemma Product(x: real, y: real, w: real)
    requires x <= y && w >= 0.0
    ensures x * w <= y * w
  {
  }

  /** The score is the rounded weighted sum, since the weights add up to one. */
  lemma ScoreIs(s: Signals)
    ensures ComputeThreatScore(s).score == Round(Sum(Contributions(s)) * 100.0)
    ensures ComputeThreatScore(s).contributions == seq(9, i requires 0 <= i < 9 => Round2(Contributions(s)[i] * 100.0))
  {
    WeightsSumToOne();
  }

  /** Raising any signals never lowers the score or the level. */
  lemma ScoreMonotone(a: Signals, b: Signals)
    requires NotAbove(a, b)
    ensures ComputeThreatScore(a).score <= ComputeThreatScore(b).score
    ensures Rank(ComputeThreatScore(a).level) <= Rank(ComputeThreatScore(b).level)
  {
    ScoreIs(a);
    ScoreIs(b);
    ContributionsMonotone(a, b);
    SumMonotone(Contributions(a), Contributions(b));
    RoundMonotone(Sum(Contributions(a)) * 100.0, Sum(Contributions(b)) * 100.0);
  }

  /** Whatever the signals, the score lies between 0 and 100. */
  lemma ScoreInRange(s: Signals)
    ensures 0 <= ComputeThreatScore(s).score <= 100
  {
    var none := seq(9, i requires 0 <= i < 9 => 0.0);
    ScoreIs(s);
    WeightsSumToOne();
    SumScaled(WEIGHTS, none, 0.0);
    forall i | 0 <= i < 9 ensures none[i] <= Contributions(s)[i] <= WEIGHTS[i] {
      Product(0.0, Clamp01(s.ToSeq()[i]), WEIGHTS[i]);
      Product(Clamp01(s.ToSeq()[i]), 1.0, WEIGHTS[i]);
    }
    SumMonotone(none, Contributions(s));
    SumMonotone(Contributions(s), WEIGHTS);
    RoundMonotone(0.0, Sum(Contributions(s)) * 100.0);
    RoundMonotone(Sum(Contributions(s)) * 100.0, 100.0);
  }

  /** Both ends of the range are reached. */
  lemma LowestScore(s: Signals)
    requires forall i | 0 <= i < 9 :: s.ToSeq()[i] <= 0.0
    ensures ComputeThreatScore(s).score == 0
  {
    ScoreIs(s);
    SumScaled(WEIGHTS, Contributions(s), 0.0);
  }

  lemma HighestScore(s: Signals)
    requires forall i | 0 <= i < 9 :: s.ToSeq()[i] >= 1.0
    ensures ComputeThreatScore(s).score == 100
  {
    ScoreIs(s);
    WeightsSumToOne();
    SumScaled(WEIGHTS, Contributions(s), 1.0);
  }

  /** The sum, signal by signal. */
  lemma WeightedSum(s: Signals)
    ensures Sum(Contributions(s)) ==
      Clamp01(s.sourceReputation) * 0.22 + Clamp01(s.detectionRatio) * 0.20 + Clamp01(s.blacklistPresence) * 0.14
      + Clamp01(s.confidence) * 0.12 + Clamp01(s.recency) * 0.10 + Clamp01(s.frequency) * 0.08
      + Clamp01(s.geoRisk) * 0.06 + Clamp01(s.portRisk) * 0.05 + Clamp01(s.historicalActivity) * 0.03
  {
    SumNine(Contributions(s));
  }

  /** The points of a signal that is fully on. */
  function Points(i: nat): (r: int)
    requires i < 9
  {
    match i
    case 0 => 22 case 1 => 20 case 2 => 14 case 3 => 12 case 4 => 10 case 5 => 8 case 6 => 6 case 7 => 5 case _ => 3
  }

  function PointsOf(on: set<nat>, n: nat): (r: int)
    requires n <= 9
  {
    if n == 0 then 0 else PointsOf(on, n - 1) + if n - 1 in on then Points(n - 1) else 0
  }

  /** Signals that are fully on or off score the points of those that are on, and each is
      shown with its own points. */
  lemma {:induction false} OnOffScore(s: Signals, on: set<nat>)
    requires forall i: nat | i < 9 :: if i in on then s.ToSeq()[i] >= 1.0 else s.ToSeq()[i] <= 0.0
    ensures ComputeThreatScore(s).score == PointsOf(on, 9)
    ensures forall i: nat | i < 9 ::
      ComputeThreatScore(s).contributions[i] == if i in on then Points(i) as real else 0.0
  {
    ScoreIs(s);
    OnOffSum(s, on, 9);
    assert Contributions(s)[..9] == Contributions(s);
    forall i: nat | i < 9 ensures Round2(Contributions(s)[i] * 100.0) == if i in on then Points(i) as real else 0.0 {
      OnOffPart(s, on, i);
    }
  }

  lemma OnOffPart(s: Signals, on: set<nat>, i: nat)
    requires i < 9 && if i in on then s.ToSeq()[i] >= 1.0 else s.ToSeq()[i] <= 0.0
    ensures Contributions(s)[i] * 100.0 == if i in on then Points(i) as real else 0.0
    ensures Round2(Contributions(s)[i] * 100.0) == if i in on then Points(i) as real else 0.0
  {
    assert Contributions(s)[i] == Clamp01(s.ToSeq()[i]) * WEIGHTS[i];
  }

  lemma {:induction false} OnOffSum(s: Signals, on: set<nat>, n: nat)
    requires n <= 9
    requires forall i: nat | i < 9 :: if i in on then s.ToSeq()[i] >= 1.0 else s.ToSeq()[i] <= 0.0
    ensures Sum(Contributions(s)[..n]) * 100.0 == PointsOf(on, n) as real
  {
    if n > 0 {
      OnOffSum(s, on, n - 1);
      SumLast(Contributions(s), n);
    }
  }

  /** The level changes at 15, 40, 65 and 85. */
  lemma LevelIffs(s: Signals)
    ensures var r := ComputeThreatScore(s);
      && (r.level == Clean <==> r.score < 15)
      && (r.level == Low <==> 15 <= r.score < 40)
      && (r.level == Medium <==> 40 <= r.score < 65)
      && (r.level == High <==> 65 <= r.score < 85)
      && (r.level == Critical <==> 85 <= r.score)
  {
  }

  /** Rounding each of nine numbers and their sum leaves the two within a known distance. */
  lemma RoundedSum(exact: seq<real>, shown: seq<real>, total: real)
    requires |exact| == |shown| == 9 && forall i | 0 <= i < 9 :: shown[i] == Round2(exact[i])
    requires total == Sum(exact)
    ensures -(0.5 + 9.0 * 0.005) <= Sum(shown) - Round(total) as real <= 0.5 + 9.0 * 0.005
  {
    RoundClose(total);
    forall i | 0 <= i < 9 ensures -0.005 <= shown[i] - exact[i] <= 0.005 {
      Round2Close(exact[i]);
    }
    SumClose(shown, exact, 0.005);
  }

  /** The contributions of a result add up to its score, up to rounding, and its level is
      that of its score. */
  ghost predicate Explains(r: ScoreResult) {
    && |r.contributions| == 9 && -(0.5 + 9.0 * 0.005) <= Sum(r.contributions) - r.score as real <= 0.5 + 9.0 * 0.005
    && r.level == LevelForScore(r.score)
  }

  lemma ContributionsSum(s: Signals)
    ensures var r := ComputeThreatScore(s);
      -(0.5 + 9.0 * 0.005) <= Sum(r.contributions) - r.score as real <= 0.5 + 9.0 * 0.005
  {
    ScoreIs(s);
    var parts := Contributions(s);
    var exact := seq(9, i requires 0 <= i < 9 => parts[i] * 100.0);
    SumScaled(parts, exact, 100.0);
    RoundedSum(exact, ComputeThreatScore(s).contributions, Sum(parts) * 100.0);
  }

  /** The nine rounded contributions explain the score up to the rounding. */
  lemma ContributionsExplainScore(s: Signals)
    ensures Explains(ComputeThreatScore(s))
  {
    ContributionsSum(s);
  }

  // ------------------------------------------------------------ the raw material

  function DetectionRatio(detected: int, total: int): real {
    if total <= 0 then 0.0 else Clamp01(detected as real / total as real)
  }

  function SourceReputationScore(sources: int): real {
    if sources <= 0 then 0.0 else Clamp01(sources as real / 4.0)
  }

  const RISKY_PORTS: set<int> := {21, 22, 23, 135, 139, 445, 1433, 3306, 3389, 4444, 5900, 6379, 8080, 9001, 9050}

  function RiskyCount(ports: seq<int>): nat {
    if ports == [] then 0 else RiskyCount(ports[1..]) + if ports[0] in RISKY_PORTS then 1 else 0
  }

  function PortRiskScore(ports: seq<int>): real {
    Clamp01(RiskyCount(ports) as real / 3.0)
  }

  /** Recency and frequency, of which only monotonicity is used. */
  datatype Curves = Curves(recency: real -> real, frequency: int -> real)

  ghost predicate Monotone(c: Curves) {
    && (forall x, y | x <= y :: c.recency(x) >= c.recency(y))
    && (forall m, n | m <= n :: c.frequency(m) <= c.frequency(n))
  }

  /** What the engine knows about an indicator. */
  datatype Facts = Facts(detected: int, total: int, reputable: bool, blacklisted: bool, confidence: real,
                         riskyCountry: bool, ports: seq<int>)

  function SignalsFrom(c: Curves, f: Facts, sightings: int, ageDays: real): Signals {
    Signals(
      SourceReputationScore(if f.reputable then 2 else 1),
      DetectionRatio(f.detected, f.total),
      if f.blacklisted then 1.0 else 0.0,
      f.confidence,
      c.recency(ageDays),
      c.frequency(sightings),
      if f.riskyCountry then 1.0 else 0.0,
      PortRiskScore(f.ports),
      if sightings as real / 50.0 < 1.0 then sightings as real / 50.0 else 1.0)
  }

  /** What the raw material makes of the signals. */
  lemma {:induction false} SignalsMean(c: Curves, f: Facts, sightings: int, ageDays: real)
    ensures var s := SignalsFrom(c, f, sightings, ageDays);
      && s.sourceReputation == (if f.reputable then 0.5 else 0.25)
      && (f.total <= 0 ==> s.detectionRatio == 0.0)
      && (0 <= f.detected <= f.total && f.total > 0 ==> s.detectionRatio * f.total as real == f.detected as real)
      && (sightings >= 50 ==> s.historicalActivity == 1.0)
      && (sightings <= 50 ==> s.historicalActivity * 50.0 == sightings as real)
      && (RiskyCount(f.ports) >= 3 ==> s.portRisk == 1.0)
      && (RiskyCount(f.ports) <= 3 ==> s.portRisk * 3.0 == RiskyCount(f.ports) as real)
  {
    if 0 <= f.detected <= f.total && f.total > 0 {
      Quotient(0.0, f.detected as real, f.total as real);
      Quotient(f.detected as real, f.total as real, f.total as real);
    }
  }

  /** Seeing an indicator more often, or more recently, never lowers its score. */
  lemma {:induction false} SightingsNeverLower(c: Curves, f: Facts, m: int, n: int, older: real, newer: real)
    requires Monotone(c) && m <= n && newer <= older
    ensures ComputeThreatScore(SignalsFrom(c, f, m, older)).score
        <= ComputeThreatScore(SignalsFrom(c, f, n, newer)).score
  {
    assert m as real / 50.0 <= n as real / 50.0;
    ScoreMonotone(SignalsFrom(c, f, m, older), SignalsFrom(c, f, n, newer));
  }

  /** More detections out of the same number of engines never lower the score. */
  lemma {:induction false} DetectionsNeverLower(c: Curves, f: Facts, more: int, sightings: int, ageDays: real)
    requires f.detected <= more
    ensures ComputeThreatScore(SignalsFrom(c, f, sightings, ageDays)).score
         <= ComputeThreatScore(SignalsFrom(c, f.(detected := more), sightings, ageDays)).score
  {
    if f.total > 0 {
      Quotient(f.detected as real, more as real, f.total as real);
    }
    ScoreMonotone(SignalsFrom(c, f, sightings, ageDays), SignalsFrom(c, f.(detected := more), sightings, ageDays));
  }

  lemma Quotient(x: real, y: real, d: real)
    requires x <= y && d > 0.0
    ensures x / d <= y / d
  {
  }
}
