/**
 The statistics shown beside the canvas, computed from the sampler state
 in exact arithmetic, and the estimate shown in the completion message.
 */
module Statistics {
  import opened Sampler

  /** A quotient as JavaScript evaluates it: finite, or the result of dividing by zero. */
  datatype JsNumber = Finite(value: real) | PositiveInfinity | NaN

  /** 4 * inside / generated, or 0 before the first point. */
  function PiEstimate(s: State): (r: real)
    ensures s.currentPoints == 0 ==> r == 0.0
    ensures s.currentPoints > 0 ==> r * s.currentPoints as real == 4.0 * s.pointsInside as real
    ensures s.pointsInside <= s.currentPoints ==> 0.0 <= r <= 4.0
  {
    if s.currentPoints > 0 then
      var ratio := s.pointsInside as real / s.currentPoints as real;
      QuotientAtMostOne(s.pointsInside as real, s.currentPoints as real);
      4.0 * ratio
    else 0.0
  }

  /** Percentage of generated points classified inside, or 0 before the first point. */
  function PercentInside(s: State): (r: real)
    ensures r == 25.0 * PiEstimate(s)
    ensures s.pointsInside <= s.currentPoints ==> 0.0 <= r <= 100.0
  {
    if s.currentPoints > 0 then s.pointsInside as real / s.currentPoints as real * 100.0 else 0.0
  }

  /**
   Progress in percent of the target. The program divides by the target
   without a guard: a zero target gives NaN with no points and Infinity
   with some.
   */
  function Progress(s: State): (r: JsNumber)
    ensures r.NaN? <==> s.totalPoints == 0 && s.currentPoints == 0
    ensures r.PositiveInfinity? <==> s.totalPoints == 0 && s.currentPoints > 0
    ensures r.Finite? ==> r.value * s.totalPoints as real == 100.0 * s.currentPoints as real
    ensures s.totalPoints > 0 && s.currentPoints <= s.totalPoints ==> r.Finite? && 0.0 <= r.value <= 100.0
    ensures s.totalPoints > 0 && s.currentPoints >= s.totalPoints ==> r.Finite? && r.value >= 100.0
  {
    if s.totalPoints == 0 then
      if s.currentPoints == 0 then NaN else PositiveInfinity
    else
      var ratio := s.currentPoints as real / s.totalPoints as real;
      QuotientAtMostOne(s.currentPoints as real, s.totalPoints as real);
      QuotientAtLeastOne(s.currentPoints as real, s.totalPoints as real);
      Finite(ratio * 100.0)
  }

  /** A non-negative quotient whose numerator does not exceed its denominator is at most 1. */
  lemma QuotientAtMostOne(a: real, b: real)
    requires 0.0 < b
    ensures 0.0 <= a <= b ==> 0.0 <= a / b <= 1.0
  {
    var q := a / b;
    assert q * b == a;
    assert (1.0 - q) * b == b - a;
  }

  /** A quotient whose numerator is at least its positive denominator is at least 1. */
  lemma QuotientAtLeastOne(a: real, b: real)
    requires 0.0 < b
    ensures b <= a ==> a / b >= 1.0
  {
    var q := a / b;
    assert q * b == a;
    assert (q - 1.0) * b == a - b;
  }

  /** In every valid state the estimate lies in [0, 4] and the percentage in [0, 100]. */
  lemma ValidStatisticsBounded(s: State)
    requires Valid(s)
    ensures 0.0 <= PiEstimate(s) <= 4.0
    ensures 0.0 <= PercentInside(s) <= 100.0
  {
    ValidCountersOrdered(s);
  }

  /** Three inside out of four gives the estimate 3 and 75 percent. */
  lemma ThreeOfFourEstimatesThree(s: State)
    requires s.currentPoints == 4 && s.pointsInside == 3
    ensures PiEstimate(s) == 3.0
    ensures PercentInside(s) == 75.0
  {
  }

  /**
   The estimate in the completion message as written: 4 * inside / target.
   It divides by the target rather than by the number of points drawn, so a
   zero target gives NaN with no inside points and Infinity with some.
   */
  function CompletionEstimateAsWritten(s: State): (r: JsNumber)
    ensures s.totalPoints == 0 ==> !r.Finite?
    ensures r.NaN? <==> s.totalPoints == 0 && s.pointsInside == 0
    ensures r.PositiveInfinity? <==> s.totalPoints == 0 && s.pointsInside > 0
    ensures s.totalPoints > 0 ==> r.Finite? && r.value * s.totalPoints as real == 4.0 * s.pointsInside as real
  {
    if s.totalPoints == 0 then
      if s.pointsInside == 0 then NaN else PositiveInfinity
    else
      Finite(4.0 * (s.pointsInside as real / s.totalPoints as real))
  }

  /**
   Two points drawn at the centre, then the target lowered to 1: the next
   tick completes and the message's estimate is 8, outside [0, 4].
   */
  lemma CompletionEstimateExceedsFour(draws: seq<Sample>)
    requires |draws| >= 10
    ensures var centre := PointRecord(250.0, 250.0, true);
      var s := State(10000, 2, 2, [centre, centre], false, 3, 500, false);
      var t := Tick(SetTarget(s, 1), draws);
      && Valid(s) && Running(s)
      && t.isComplete
      && CompletionEstimateAsWritten(t) == Finite(8.0)
  {
    var centre := PointRecord(250.0, 250.0, true);
    var s := State(10000, 2, 2, [centre, centre], false, 3, 500, false);
    assert [centre, centre][..1] == [centre];
    assert [centre][..0] == [];
    assert CountInside([centre]) == 1;
    assert CountInside([centre, centre]) == 2;
    assert draws[..0] == [];
  }

  /**
   A zero target: the first running tick completes at once with the count
   equal to the target, yet the message as written divides 0 by 0 (NaN)
   while the corrected estimate is 0.
   */
  lemma ZeroTargetEstimatesDiffer(s: State, draws: seq<Sample>)
    requires Valid(s) && Running(s) && s.currentPoints == 0 && s.totalPoints == 0
    requires |draws| >= BatchSize(s.simulationSpeed)
    ensures var t := Tick(s, draws);
      && t.isComplete
      && t.currentPoints == t.totalPoints
      && CompletionEstimateAsWritten(t) == NaN
      && CompletionEstimate(t) == 0.0
  {
    assert draws[..0] == [];
    ValidCountersOrdered(s);
  }

  /**
   The completion estimate over the points actually drawn. It lies in
   [0, 4] in every valid state and agrees with the message as written
   whenever the run stopped exactly at a positive target.
   */
  function CompletionEstimate(s: State): (r: real)
    ensures Valid(s) ==> 0.0 <= r <= 4.0
    ensures s.currentPoints == s.totalPoints > 0 ==> CompletionEstimateAsWritten(s) == Finite(r)
  {
    ValidEstimateBounded(s);
    PiEstimate(s)
  }

  /**
   Once a run has reached its target, the message as written agrees with the
   corrected estimate exactly when the target is positive and either the run
   stopped exactly at it or no point is inside.
   */
  lemma CompletionEstimatesAgreeExactly(s: State)
    requires Valid(s) && s.currentPoints >= s.totalPoints
    ensures CompletionEstimateAsWritten(s) == Finite(CompletionEstimate(s))
        <==> s.totalPoints > 0 && (s.currentPoints == s.totalPoints || s.pointsInside == 0)
  {
  }

  /** The counter invariant bounds the estimate to [0, 4]. */
  lemma ValidEstimateBounded(s: State)
    ensures Valid(s) ==> 0.0 <= PiEstimate(s) <= 4.0
  {
    if Valid(s) {
      ValidCountersOrdered(s);
    }
  }
}
