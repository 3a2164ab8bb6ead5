/**
 * The analytics computed for a profile from its ratings: the five-point
 * normalised score, positive streaks, the "always late" trend that doubles
 * punctuality scores, the overall score and the consistency score.
 *
 * Raw scores are integers in the model, so a normalised score is an exact
 * multiple of one half. `math.sqrt` is a parameter of the computation.
 */
module Analytics {
  import opened Canonical
  import Ordering
  import opened Records

  // ---------------------------------------------------------------------------
  // Scalar helpers

  /** `max(lo, min(hi, value))`. */
  function Clamp(value: real, lo: real, hi: real): (r: real)
    ensures lo <= hi ==> lo <= r <= hi
    ensures lo <= value <= hi ==> r == value
    ensures value < lo ==> r == lo
    ensures lo <= hi && hi < value ==> r == hi
  {
    if hi < value then (if lo < hi then hi else lo)
    else if value < lo then lo
    else value
  }

  /** The integer nearest to `y`; a tie goes to the even neighbour, as Python's `round` does. */
  function NearestEven(y: real): (n: int)
    ensures y - 0.5 <= n as real <= y + 0.5
  {
    var f := y.Floor;
    var d := y - f as real;
    if d < 0.5 then f
    else if d > 0.5 then f + 1
    else if f % 2 == 0 then f else f + 1
  }

  lemma NearestEvenMonotone(a: real, b: real)
    requires a <= b
    ensures NearestEven(a) <= NearestEven(b)
  {
    var fa, fb := a.Floor, b.Floor;
    assert fa <= fb;
    if fa == fb {
      assert a - fa as real <= b - fb as real;
    }
  }

  /** `round(x, 2)` on the exact value: the nearest hundredth, a tie going to the even one. */
  function Round2(x: real): (r: real)
    ensures x - 0.005 <= r <= x + 0.005
  {
    NearestEven(x * 100.0) as real / 100.0
  }

  /** Ties go to the even hundredth: 0.125 rounds down to 0.12 and 0.375 rounds up to 0.38. */
  lemma Round2TiesToEven()
    ensures Round2(0.125) == 0.12 && Round2(0.375) == 0.38
  {
    assert (12.5).Floor == 12;
    assert (37.5).Floor == 37;
  }

  lemma Round2Monotone(x: real, y: real)
    requires x <= y
    ensures Round2(x) <= Round2(y)
  {
    NearestEvenMonotone(x * 100.0, y * 100.0);
  }

  /** A value that already has at most two decimals is left as it is. */
  lemma Round2Exact(n: int)
    ensures Round2(n as real / 100.0) == n as real / 100.0
  {
    assert (n as real / 100.0) * 100.0 == n as real;
    assert (n as real).Floor == n;
  }

  /** Rounding a value within bounds that have two decimals stays within those bounds. */
  lemma Round2Within(x: real, lo: int, hi: int)
    requires lo as real / 100.0 <= x <= hi as real / 100.0
    ensures lo as real / 100.0 <= Round2(x) <= hi as real / 100.0
  {
    Round2Monotone(lo as real / 100.0, x);
    Round2Monotone(x, hi as real / 100.0);
    Round2Exact(lo);
    Round2Exact(hi);
  }

  /** A raw score in [-5, 5] mapped onto [0, 5]. */
  function ToFivePointScale(raw: real): (r: real)
    ensures 0.0 <= r <= 5.0
  {
    var c := Clamp(raw, -5.0, 5.0);
    Round2Within((c + 5.0) / 2.0, 0, 500);
    Round2((c + 5.0) / 2.0)
  }

  /** For an integer raw score the scale is exact: `(clamp(raw) + 5) / 2`. */
  lemma ToFivePointScaleOfInt(raw: int)
    ensures ToFivePointScale(raw as real) == (Clamp(raw as real, -5.0, 5.0) + 5.0) / 2.0
  {
    var c := Clamp(raw as real, -5.0, 5.0);
    var k: int := if raw < -5 then 0 else if raw > 5 then 500 else 50 * (raw + 5);
    assert (c + 5.0) / 2.0 == k as real / 100.0;
    Round2Exact(k);
  }

  /** A rating counts towards a streak when its normalised score is at least 3.5. */
  predicate IsPositive(raw: int) {
    ToFivePointScale(raw as real) >= 3.5
  }

  /** On integer scores the threshold 3.5 is the same as a raw score of at least 2. */
  lemma PositiveIffAtLeastTwo(raw: int)
    ensures IsPositive(raw) <==> raw >= 2
  {
    ToFivePointScaleOfInt(raw);
  }

  // ---------------------------------------------------------------------------
  // Punctuality categories

  /** Whether `t` occurs in `s` starting at index `i`. */
  predicate OccursAt(s: string, t: string, i: int) {
    0 <= i && i + |t| <= |s| && s[i..i + |t|] == t
  }

  /** Whether `t` occurs in `s` as a contiguous substring. */
  predicate Contains(s: string, t: string) {
    exists i :: 0 <= i <= |s| && OccursAt(s, t, i)
  }

  /** A category is about punctuality when its trimmed, lower-cased text mentions one of four words. */
  predicate IsPunctualityCategory(category: string) {
    var normalized := Lower(Strip(category));
    Contains(normalized, "punctuality") || Contains(normalized, "attendance") ||
    Contains(normalized, "timeliness") || Contains(normalized, "late")
  }

  /** The classification ignores letter case. */
  lemma PunctualityIgnoresCase(a: string, b: string)
    requires Lower(a) == Lower(b)
    ensures IsPunctualityCategory(a) == IsPunctualityCategory(b)
  {
    StripOfLower(a);
    StripOfLower(b);
    LowerIdempotent(Strip(a));
    LowerIdempotent(Strip(b));
  }

  // ---------------------------------------------------------------------------
  // Streaks over a sequence of "is positive" flags

  /** Which of the raw scores are positive, in order. */
  function Positives(scores: seq<int>): (r: seq<bool>)
    ensures |r| == |scores|
  {
    seq(|scores|, i requires 0 <= i < |scores| => IsPositive(scores[i]))
  }

  /** The number of positive entries at the end of `f`, after the last non-positive one. */
  function TrailingRun(f: seq<bool>): (r: nat)
    ensures r <= |f|
  {
    if f == [] then 0
    else if f[|f| - 1] then TrailingRun(f[..|f| - 1]) + 1
    else 0
  }

  /** The longest trailing run seen at any point of `f`. */
  function BestRun(f: seq<bool>): (r: nat)
    ensures r <= |f|
  {
    if f == [] then 0
    else
      var prev := BestRun(f[..|f| - 1]);
      if TrailingRun(f) > prev then TrailingRun(f) else prev
  }

  /** The `len` entries starting at index `lo` are all positive. */
  predicate PositiveRun(f: seq<bool>, lo: nat, len: nat) {
    lo + len <= |f| && forall i :: lo <= i < lo + len ==> f[i]
  }

  lemma {:induction false} BestRunAtLeastTrailing(f: seq<bool>)
    ensures TrailingRun(f) <= BestRun(f)
  {
  }

  /**
   * The trailing run is exactly the block of positive entries that ends `f`:
   * those entries are all positive and the one before them, if any, is not.
   */
  lemma {:induction false} TrailingRunIsMaximalSuffix(f: seq<bool>)
    ensures PositiveRun(f, |f| - TrailingRun(f), TrailingRun(f))
    ensures TrailingRun(f) < |f| ==> !f[|f| - TrailingRun(f) - 1]
  {
    if f != [] && f[|f| - 1] {
      var p := f[..|f| - 1];
      TrailingRunIsMaximalSuffix(p);
      var k := TrailingRun(p);
      forall i | |f| - (k + 1) <= i < |f| ensures f[i] {
        if i < |f| - 1 {
          assert f[i] == p[i];
        }
      }
    }
  }

  /** Any all-positive block that ends `f` is no longer than the trailing run. */
  lemma {:induction false} TrailingRunIsLongest(f: seq<bool>, k: nat)
    requires k <= |f| && PositiveRun(f, |f| - k, k)
    ensures k <= TrailingRun(f)
  {
    if k > 0 {
      var p := f[..|f| - 1];
      assert f[|f| - 1];
      assert PositiveRun(p, |p| - (k - 1), k - 1) by {
        forall i | |p| - (k - 1) <= i < |p| ensures p[i] {
          assert p[i] == f[i];
        }
      }
      TrailingRunIsLongest(p, k - 1);
    }
  }

  /** Every block of consecutive positive entries is at most as long as the best run. */
  lemma {:induction false} BestRunIsLongest(f: seq<bool>, lo: nat, len: nat)
    requires PositiveRun(f, lo, len)
    ensures len <= BestRun(f)
  {
    if lo + len < |f| {
      var p := f[..|f| - 1];
      assert PositiveRun(p, lo, len) by {
        forall i | lo <= i < lo + len ensures p[i] {
          assert p[i] == f[i];
        }
      }
      BestRunIsLongest(p, lo, len);
    } else if len > 0 {
      TrailingRunIsLongest(f, len);
    }
  }

  /** The best run is achieved: some block of that many consecutive entries is all positive. */
  lemma {:induction false} BestRunIsAchieved(f: seq<bool>)
    ensures exists lo: nat :: PositiveRun(f, lo, BestRun(f))
  {
    if f == [] {
      assert BestRun(f) == 0;
      assert PositiveRun(f, 0, BestRun(f));
    } else {
      var p := f[..|f| - 1];
      if TrailingRun(f) > BestRun(p) {
        TrailingRunIsMaximalSuffix(f);
        assert PositiveRun(f, |f| - TrailingRun(f), BestRun(f));
      } else {
        BestRunIsAchieved(p);
        var lo: nat :| PositiveRun(p, lo, BestRun(p));
        assert PositiveRun(f, lo, BestRun(f)) by {
          forall i | lo <= i < lo + BestRun(f) ensures f[i] {
            assert p[i] == f[i];
          }
        }
      }
    }
  }

  /** Normalised scores 4, 4, 4, 2, 4 (raw 3, 3, 3, -1, 3) give a best streak of 3 and a current streak of 1. */
  lemma StreakExample()
    ensures var f := Positives([3, 3, 3, -1, 3]); BestRun(f) == 3 && TrailingRun(f) == 1
  {
    PositiveIffAtLeastTwo(3);
    PositiveIffAtLeastTwo(-1);
    var f := Positives([3, 3, 3, -1, 3]);
    assert f == [true, true, true, false, true];
    var f1, f2, f3, f4 := [true], [true, true], [true, true, true], [true, true, true, false];
    assert f1[..0] == [] && f2[..1] == f1 && f3[..2] == f2 && f4[..3] == f3 && f[..4] == f4;
    assert TrailingRun(f1) == 1 && BestRun(f1) == 1;
    assert TrailingRun(f2) == 2 && BestRun(f2) == 2;
    assert TrailingRun(f3) == 3 && BestRun(f3) == 3;
    assert TrailingRun(f4) == 0 && BestRun(f4) == 3;
  }

  // ---------------------------------------------------------------------------
  // Late trend and weights over ratings in time order

  /** The raw scores of the ratings, in order. */
  function Scores(s: seq<Rating>): (r: seq<int>)
    ensures |r| == |s|
  {
    seq(|s|, i requires 0 <= i < |s| => s[i].data.score)
  }

  /** The punctuality ratings, in order. */
  function Punctuality(s: seq<Rating>): (r: seq<Rating>)
    ensures |r| <= |s|
    ensures forall x :: x in r ==> x in s && IsPunctualityCategory(x.data.category)
    ensures forall x :: x in s && IsPunctualityCategory(x.data.category) ==> x in r
  {
    if s == [] then []
    else
      assert s == s[..|s| - 1] + [s[|s| - 1]];
      Punctuality(s[..|s| - 1]) + (if IsPunctualityCategory(s[|s| - 1].data.category) then [s[|s| - 1]] else [])
  }

  /** One more rating joins the end of the punctuality ratings exactly when it is about punctuality. */
  lemma PunctualitySnoc(s: seq<Rating>, x: Rating)
    ensures Punctuality(s + [x]) == Punctuality(s) + (if IsPunctualityCategory(x.data.category) then [x] else [])
  {
    assert (s + [x])[..|s|] == s;
  }

  /** `punctuality[-3:]`: the last three punctuality ratings, or all of them when there are fewer. */
  function RecentPunctuality(s: seq<Rating>): (r: seq<Rating>)
    ensures var p := Punctuality(s); |r| == (if |p| < 3 then |p| else 3) && r == p[|p| - |r|..]
  {
    var p := Punctuality(s);
    if |p| <= 3 then p else p[|p| - 3..]
  }

  /** The late trend applies when there are three recent punctuality ratings and none is above 0. */
  predicate LateTrendApplied(s: seq<Rating>) {
    var recent := RecentPunctuality(s);
    |recent| == 3 && forall i :: 0 <= i < 3 ==> recent[i].data.score <= 0
  }

  /**
   * The late trend applies exactly when there are at least three punctuality
   * ratings and the last three of them all have a score of at most 0.
   */
  lemma LateTrendAppliedIff(s: seq<Rating>)
    ensures var p := Punctuality(s);
      LateTrendApplied(s) <==> |p| >= 3 && forall k :: |p| - 3 <= k < |p| ==> p[k].data.score <= 0
  {
    var p := Punctuality(s);
    var r := RecentPunctuality(s);
    if |p| >= 3 {
      assert forall i :: 0 <= i < 3 ==> r[i] == p[|p| - 3 + i];
      if LateTrendApplied(s) {
        forall k | |p| - 3 <= k < |p| ensures p[k].data.score <= 0 {
          assert p[k] == r[k - (|p| - 3)];
        }
      }
    }
  }

  /** The multiplier of one rating's score. */
  function Weight(applied: bool, x: Rating): (r: int)
    ensures r == 2 <==> applied && IsPunctualityCategory(x.data.category)
    ensures r == 1 || r == 2
  {
    if applied && IsPunctualityCategory(x.data.category) then 2 else 1
  }

  /** Each rating's raw score times its multiplier. */
  function WeightedScores(s: seq<Rating>, applied: bool): (r: seq<int>)
    ensures |r| == |s|
  {
    seq(|s|, i requires 0 <= i < |s| => s[i].data.score * Weight(applied, s[i]))
  }

  /**
   * In the ratings taken in time order, a rating's weighted score is twice
   * its raw score when the late trend applies and it is about punctuality,
   * and its raw score otherwise.
   */
  lemma WeightedScoreAt(s: seq<Rating>, i: nat)
    requires i < |s|
    ensures WeightedScores(s, LateTrendApplied(s))[i] ==
      if LateTrendApplied(s) && IsPunctualityCategory(s[i].data.category) then 2 * Scores(s)[i] else Scores(s)[i]
  {
  }

  /** Each rating's score on the five-point scale. */
  function NormalizedScores(s: seq<Rating>): (r: seq<real>)
    ensures |r| == |s|
  {
    seq(|s|, i requires 0 <= i < |s| => ToFivePointScale(s[i].data.score as real))
  }

  function SumInt(xs: seq<int>): int {
    if xs == [] then 0 else SumInt(xs[..|xs| - 1]) + xs[|xs| - 1]
  }

  function SumReal(xs: seq<real>): real {
    if xs == [] then 0.0 else SumReal(xs[..|xs| - 1]) + xs[|xs| - 1]
  }

  function SquaredDeviations(xs: seq<real>, mean: real): (r: seq<real>)
    ensures |r| == |xs|
  {
    if xs == [] then [] else SquaredDeviations(xs[..|xs| - 1], mean) + [(xs[|xs| - 1] - mean) * (xs[|xs| - 1] - mean)]
  }

  /** The sum of the punctuality ratings' raw scores. */
  function PunctualitySum(s: seq<Rating>): int {
    SumInt(Scores(Punctuality(s)))
  }

  lemma ScoresSnoc(s: seq<Rating>, x: Rating)
    ensures Scores(s + [x]) == Scores(s) + [x.data.score]
  {
  }

  lemma SumIntSnoc(xs: seq<int>, v: int)
    ensures SumInt(xs + [v]) == SumInt(xs) + v
  {
    assert (xs + [v])[..|xs|] == xs;
  }

  /**
   * The weighted total is the plain total, plus the punctuality scores a
   * second time when the late trend applies.
   */
  lemma {:induction false} WeightedSumSplit(s: seq<Rating>, applied: bool)
    ensures SumInt(WeightedScores(s, applied)) == SumInt(Scores(s)) + (if applied then PunctualitySum(s) else 0)
  {
    if s != [] {
      var p := s[..|s| - 1];
      var last := s[|s| - 1];
      WeightedSumSplit(p, applied);
      assert s == p + [last];
      ScoresSnoc(p, last);
      SumIntSnoc(Scores(p), last.data.score);
      assert WeightedScores(s, applied) == WeightedScores(p, applied) + [last.data.score * Weight(applied, last)];
      SumIntSnoc(WeightedScores(p, applied), last.data.score * Weight(applied, last));
      if IsPunctualityCategory(last.data.category) {
        assert Punctuality(s) == Punctuality(p) + [last];
        ScoresSnoc(Punctuality(p), last);
        SumIntSnoc(Scores(Punctuality(p)), last.data.score);
      } else {
        assert Punctuality(s) == Punctuality(p);
      }
    }
  }

  // ---------------------------------------------------------------------------
  // The metrics

  const NoTrend: string := "No punctuality trend yet"
  const LateTrendDetected: string := "Always late trend detected; punctuality scores are doubled"
  const Monitored: string := "Punctuality is being monitored"

  datatype Metrics = Metrics(
    normalizedOverallScore: real,
    consistencyScore: real,
    currentPositiveStreak: nat,
    bestPositiveStreak: nat,
    lateTrendWeightApplied: bool,
    lateTrend: string)

  /** Ratings are processed by rating time, then by id. */
  function RatingStamp(x: Rating): Ordering.Stamp {
    Ordering.Stamp(x.data.ratedAt, x.id)
  }

  function InTimeOrder(ratings: seq<Rating>): seq<Rating> {
    Ordering.SortBy(ratings, RatingStamp)
  }

  function LateTrendText(s: seq<Rating>): string {
    if LateTrendApplied(s) then LateTrendDetected
    else if RecentPunctuality(s) != [] then Monitored
    else NoTrend
  }

  /** `min(0.5, current * 0.1)`. */
  function StreakBonus(current: nat): (r: real)
    ensures 0.0 <= r <= 0.5
  {
    if current as real * 0.1 < 0.5 then current as real * 0.1 else 0.5
  }

  /** The overall score from the weighted average and the current streak, clamped to [0, 5]. */
  function OverallScore(weightedSum: int, count: nat, current: nat): (r: real)
    requires count > 0
    ensures 0.0 <= r <= 5.0
  {
    var x := Clamp(ToFivePointScale(weightedSum as real / count as real) + StreakBonus(current), 0.0, 5.0);
    Round2Within(x, 0, 500);
    Round2(x)
  }

  /** `100 - 20 * (standard deviation)`, clamped to [0, 100]. */
  function ConsistencyScore(normalized: seq<real>, sqrt: real -> real): (r: real)
    requires |normalized| > 0
    ensures 0.0 <= r <= 100.0
  {
    var n := |normalized| as real;
    var mean := SumReal(normalized) / n;
    var variance := SumReal(SquaredDeviations(normalized, mean)) / n;
    var x := Clamp(100.0 - sqrt(variance) * 20.0, 0.0, 100.0);
    Round2Within(x, 0, 10000);
    Round2(x)
  }

  const EmptyMetrics := Metrics(0.0, 0.0, 0, 0, false, NoTrend)

  /** The metrics of a profile's ratings. */
  function MetricsOf(ratings: seq<Rating>, sqrt: real -> real): Metrics {
    if ratings == [] then EmptyMetrics
    else
      var s := InTimeOrder(ratings);
      Ordering.SortByCorrect(ratings, RatingStamp);
      var applied := LateTrendApplied(s);
      Metrics(
        OverallScore(SumInt(WeightedScores(s, applied)), |s|, TrailingRun(Positives(Scores(s)))),
        ConsistencyScore(NormalizedScores(s), sqrt),
        TrailingRun(Positives(Scores(s))),
        BestRun(Positives(Scores(s))),
        applied,
        LateTrendText(s))
  }

  /** The overall score lies in [0, 5], the consistency score in [0, 100], and the best streak is at least the current one. */
  lemma MetricsBounds(ratings: seq<Rating>, sqrt: real -> real)
    ensures var m := MetricsOf(ratings, sqrt);
      0.0 <= m.normalizedOverallScore <= 5.0 && 0.0 <= m.consistencyScore <= 100.0 &&
      m.currentPositiveStreak <= m.bestPositiveStreak <= |ratings|
  {
    if ratings != [] {
      var s := InTimeOrder(ratings);
      Ordering.SortByCorrect(ratings, RatingStamp);
      BestRunAtLeastTrailing(Positives(Scores(s)));
    }
  }

  /** The text describes the trend: detected, monitored when some punctuality rating exists, and otherwise none yet. */
  lemma LateTrendTextCases(ratings: seq<Rating>, sqrt: real -> real)
    ensures var m := MetricsOf(ratings, sqrt);
      (m.lateTrend == LateTrendDetected <==> m.lateTrendWeightApplied) &&
      (m.lateTrend == Monitored <==> !m.lateTrendWeightApplied && Punctuality(InTimeOrder(ratings)) != []) &&
      (m.lateTrend == NoTrend <==> Punctuality(InTimeOrder(ratings)) == [])
  {
    var s := InTimeOrder(ratings);
    if ratings == [] {
      assert s == [];
    }
    if Punctuality(s) == [] {
      assert RecentPunctuality(s) == [];
    } else {
      assert RecentPunctuality(s) != [];
    }
  }

  /**
   * The metrics depend only on which ratings a profile has, not on the order
   * in which they are handed over, as long as no two share a (time, id) stamp.
   */
  lemma MetricsIgnoreOrder(a: seq<Rating>, b: seq<Rating>, sqrt: real -> real)
    requires multiset(a) == multiset(b)
    requires Ordering.KeyInjective(a, RatingStamp)
    ensures MetricsOf(a, sqrt) == MetricsOf(b, sqrt)
  {
    Ordering.SortByOfPermutation(a, b, RatingStamp);
    if a == [] {
      assert |b| == |multiset(b)| == 0;
    } else {
      assert |b| == |multiset(b)| == |multiset(a)| == |a|;
    }
  }

  /** How each quantity the metrics pass keeps changes when one more rating is taken. */
  lemma MetricsStep(s: seq<Rating>, i: nat, applied: bool)
    requires i < |s|
    ensures WeightedScores(s[..i + 1], applied) == WeightedScores(s[..i], applied) + [s[i].data.score * Weight(applied, s[i])]
    ensures NormalizedScores(s[..i + 1]) == NormalizedScores(s[..i]) + [ToFivePointScale(s[i].data.score as real)]
    ensures Positives(Scores(s[..i + 1])) == Positives(Scores(s[..i])) + [IsPositive(s[i].data.score)]
  {
  }

  /**
   * The loop of `score_profile_metrics`: one pass over the ratings in time
   * order, collecting weighted and normalised scores and keeping the current
   * and the best positive streak.
   */
  method ScoreLoop(s: seq<Rating>, applied: bool) returns (weighted: seq<int>, normalized: seq<real>, current: nat, best: nat)
    ensures weighted == WeightedScores(s, applied)
    ensures normalized == NormalizedScores(s)
    ensures current == TrailingRun(Positives(Scores(s))) && best == BestRun(Positives(Scores(s)))
  {
    weighted, normalized, current, best := [], [], 0, 0;
    var i := 0;
    while i < |s|
      invariant 0 <= i <= |s|
      invariant weighted == WeightedScores(s[..i], applied)
      invariant normalized == NormalizedScores(s[..i])
      invariant current == TrailingRun(Positives(Scores(s[..i])))
      invariant best == BestRun(Positives(Scores(s[..i])))
    {
      var x := s[i];
      MetricsStep(s, i, applied);
      ghost var f := Positives(Scores(s[..i + 1]));
      assert f[..i] == Positives(Scores(s[..i]));
      var normalizedScore := ToFivePointScale(x.data.score as real);
      normalized := normalized + [normalizedScore];
      if normalizedScore >= 3.5 {
        current := current + 1;
        best := if best > current then best else current;
      } else {
        current := 0;
      }
      var multiplier := if applied && IsPunctualityCategory(x.data.category) then 2 else 1;
      weighted := weighted + [x.data.score * multiplier];
      i := i + 1;
    }
    assert s[..i] == s;
  }

  /** `score_profile_metrics`: the metrics of a profile's ratings. */
  method ScoreProfileMetrics(ratings: seq<Rating>, sqrt: real -> real) returns (m: Metrics)
    ensures m == MetricsOf(ratings, sqrt)
    ensures ratings == [] ==> m == EmptyMetrics
    ensures 0.0 <= m.normalizedOverallScore <= 5.0 && 0.0 <= m.consistencyScore <= 100.0
    ensures m.currentPositiveStreak <= m.bestPositiveStreak <= |ratings|
  {
    MetricsBounds(ratings, sqrt);
    if ratings == [] {
      return EmptyMetrics;
    }
    var s := InTimeOrder(ratings);
    Ordering.SortByCorrect(ratings, RatingStamp);
    var applied := LateTrendApplied(s);
    var weighted, normalized, current, best := ScoreLoop(s, applied);
    var overall := OverallScore(SumInt(weighted), |weighted|, current);
    var consistency := ConsistencyScore(normalized, sqrt);
    var trend := NoTrend;
    if applied {
      trend := LateTrendDetected;
    } else if RecentPunctuality(s) != [] {
      trend := Monitored;
    }
    m := Metrics(overall, consistency, current, best, applied, trend);
  }
}
