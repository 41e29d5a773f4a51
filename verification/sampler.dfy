/**
 Monte Carlo estimator of pi: the sampler state machine.

 The state is an immutable record; every control action of the program
 (drawing one point, one animation tick, reset, pause toggle and the two
 slider setters) is a pure function from the old state to the new one.
 The random source is replaced by caller-supplied draws.
 */
module Sampler {

  /** Canvas size fixed by `createCanvas(500, 500)`. */
  const Width: real := 500.0
  const Height: real := 500.0

  /** The speed slider's levels; the slider cannot produce anything else. */
  type SpeedLevel = level: int | 1 <= level <= 5 witness 3

  /** Batch size per animation tick for each speed level. */
  const SpeedMultipliers: map<int, nat> := map[1 := 1, 2 := 5, 3 := 10, 4 := 50, 5 := 200]

  /** One random draw: a point of the sampling square. */
  datatype Sample = Sample(x: real, y: real)

  /** One recorded point of the history, with its classification. */
  datatype PointRecord = PointRecord(x: real, y: real, inside: bool)

  datatype State = State(
    totalPoints: nat,
    currentPoints: nat,
    pointsInside: nat,
    allPoints: seq<PointRecord>,
    isPaused: bool,
    simulationSpeed: SpeedLevel,
    radius: nat,
    isComplete: bool)

  /** The state the program starts in. */
  const Initial: State := State(10000, 0, 0, [], false, 3, 500, false)

  function Min(a: int, b: int): int
  {
    if a <= b then a else b
  }

  /** Number of samples still missing before the target; zero once it is reached or passed. */
  function Remaining(s: State): nat
  {
    if s.currentPoints < s.totalPoints then s.totalPoints - s.currentPoints else 0
  }

  /** Neither paused nor complete: a tick generates points. */
  predicate Running(s: State)
  {
    !s.isPaused && !s.isComplete
  }

  /** The batch size of a level: positive and at most 200, growing with the level. */
  function BatchSize(level: SpeedLevel): (r: nat)
    ensures 1 <= r <= 200
    ensures forall lower: SpeedLevel :: lower < level ==> SpeedMultipliers[lower] < r
  {
    SpeedMultipliers[level]
  }

  /** Is the sample within distance radius/2 of the canvas centre (compared squared). */
  predicate InsideCircle(x: real, y: real, radius: nat)
  {
    var dx := x - Width / 2.0;
    var dy := y - Height / 2.0;
    var half := radius as real / 2.0;
    dx * dx + dy * dy <= half * half
  }

  /** d is the (non-negative) Euclidean distance from (x, y) to the canvas centre. */
  predicate IsDistanceToCentre(x: real, y: real, d: real)
  {
    d >= 0.0 && d * d == (x - Width / 2.0) * (x - Width / 2.0) + (y - Height / 2.0) * (y - Height / 2.0)
  }

  /** A sample lies in the half-open sampling square [0, Width) x [0, Height). */
  predicate InDomain(p: Sample)
  {
    0.0 <= p.x < Width && 0.0 <= p.y < Height
  }

  /**
   The inside test agrees with the program's square-root form: for the
   distance d >= 0 whose square is the squared distance to the centre,
   d <= radius/2 exactly when the sample is classified inside.
   */
  lemma SquareRootTestAgrees(x: real, y: real, radius: nat, d: real)
    requires IsDistanceToCentre(x, y, d)
    ensures d <= radius as real / 2.0 <==> InsideCircle(x, y, radius)
  {
    var half := radius as real / 2.0;
    if d <= half {
      SquareMonotone(d, half);
    } else {
      SquareStrict(half, d);
    }
  }

  /** The square-root form of the inside test, for every distance to the centre at once. */
  lemma InsideByDistance(x: real, y: real, radius: nat)
    ensures forall d: real :: IsDistanceToCentre(x, y, d) ==> (InsideCircle(x, y, radius) <==> d <= radius as real / 2.0)
  {
    forall d: real | IsDistanceToCentre(x, y, d)
      ensures InsideCircle(x, y, radius) <==> d <= radius as real / 2.0
    {
      SquareRootTestAgrees(x, y, radius, d);
    }
  }

  lemma SquareMonotone(a: real, b: real)
    requires 0.0 <= a <= b
    ensures a * a <= b * b
  {
    var u, v := b - a, b + a;
    assert u * v >= 0.0;
    assert u * v == b * b - a * a;
  }

  lemma SquareStrict(a: real, b: real)
    requires 0.0 <= a < b
    ensures a * a < b * b
  {
    var u, v := b - a, b + a;
    assert u * v > 0.0;
    assert u * v == b * b - a * a;
  }

  /**
   The record kept for a drawn sample: its coordinates, flagged inside
   exactly when its distance to the centre is at most radius/2.
   */
  function Classify(p: Sample, radius: nat): (r: PointRecord)
    ensures r.x == p.x && r.y == p.y
    ensures r.inside <==> InsideCircle(p.x, p.y, radius)
    ensures forall d: real :: IsDistanceToCentre(p.x, p.y, d) ==> (r.inside <==> d <= radius as real / 2.0)
  {
    InsideByDistance(p.x, p.y, radius);
    PointRecord(p.x, p.y, InsideCircle(p.x, p.y, radius))
  }

  /** The records for a run of samples, in order. */
  function Records(ps: seq<Sample>, radius: nat): (r: seq<PointRecord>)
    ensures |r| == |ps|
  {
    seq(|ps|, j requires 0 <= j < |ps| => Classify(ps[j], radius))
  }

  /** How many records of a history are classified inside. */
  function CountInside(ps: seq<PointRecord>): nat
  {
    if |ps| == 0 then 0
    else CountInside(ps[..|ps| - 1]) + (if ps[|ps| - 1].inside then 1 else 0)
  }

  /** Every record's flag agrees with the classification rule for `radius`. */
  predicate Classified(ps: seq<PointRecord>, radius: nat)
  {
    forall j :: 0 <= j < |ps| ==> ps[j].inside == InsideCircle(ps[j].x, ps[j].y, radius)
  }

  /** The counters describe the history. */
  predicate Valid(s: State)
  {
    && |s.allPoints| == s.currentPoints
    && s.pointsInside == CountInside(s.allPoints)
    && Classified(s.allPoints, s.radius)
  }

  /** Everything but the counters and the history is the same. */
  predicate SameSettings(s: State, t: State)
  {
    && t.totalPoints == s.totalPoints
    && t.simulationSpeed == s.simulationSpeed
    && t.radius == s.radius
  }

  /** Counting inside records distributes over concatenation. */
  lemma {:induction false} CountInsideAppend(a: seq<PointRecord>, b: seq<PointRecord>)
    ensures CountInside(a + b) == CountInside(a) + CountInside(b)
    decreases |b|
  {
    if |b| == 0 {
      assert a + b == a;
    } else {
      var last := |b| - 1;
      assert (a + b)[..|a + b| - 1] == a + b[..last];
      CountInsideAppend(a, b[..last]);
    }
  }

  /** Extending a history never lowers its inside count. */
  lemma CountInsidePrefix(a: seq<PointRecord>, b: seq<PointRecord>)
    requires a <= b
    ensures CountInside(a) <= CountInside(b)
  {
    var rest := b[|a|..];
    assert a + rest == b;
    CountInsideAppend(a, rest);
  }

  /** At most every record is inside. */
  lemma {:induction false} CountInsideAtMostLength(ps: seq<PointRecord>)
    ensures CountInside(ps) <= |ps|
  {
    if |ps| > 0 {
      CountInsideAtMostLength(ps[..|ps| - 1]);
    }
  }

  /** In a valid state no more points are inside than were generated. */
  lemma ValidCountersOrdered(s: State)
    requires Valid(s)
    ensures s.pointsInside <= s.currentPoints
  {
    CountInsideAtMostLength(s.allPoints);
  }

  /** Appending a run's records to a valid history, and counting them, keeps the state valid. */
  lemma ExtendValid(s: State, ps: seq<Sample>, t: State)
    requires t.radius == s.radius
    requires t.allPoints == s.allPoints + Records(ps, s.radius)
    requires t.currentPoints == s.currentPoints + |ps|
    requires t.pointsInside == s.pointsInside + CountInside(Records(ps, s.radius))
    ensures Valid(s) ==> Valid(t)
  {
    if Valid(s) {
      CountInsideAppend(s.allPoints, Records(ps, s.radius));
      var recs := Records(ps, s.radius);
      forall j | 0 <= j < |t.allPoints|
        ensures t.allPoints[j].inside == InsideCircle(t.allPoints[j].x, t.allPoints[j].y, t.radius)
      {
        if j >= |s.allPoints| {
          assert t.allPoints[j] == recs[j - |s.allPoints|];
        }
      }
    }
  }

  /** The records of a non-empty run: the first sample's record, then the rest's. */
  lemma RecordsSplit(ps: seq<Sample>, radius: nat)
    requires |ps| > 0
    ensures Records(ps, radius) == Records([ps[0]], radius) + Records(ps[1..], radius)
    ensures CountInside(Records(ps, radius))
         == CountInside(Records([ps[0]], radius)) + CountInside(Records(ps[1..], radius))
  {
    assert Records(ps, radius) == Records([ps[0]], radius) + Records(ps[1..], radius);
    CountInsideAppend(Records([ps[0]], radius), Records(ps[1..], radius));
  }

  /**
   Draw one point: classify the sample, append its record, count it, and
   count it as inside exactly when it is classified so.
   */
  function DrawPoint(s: State, p: Sample): (r: State)
    ensures r.allPoints == s.allPoints + Records([p], s.radius)
    ensures r.currentPoints == s.currentPoints + 1
    ensures r.pointsInside == s.pointsInside + CountInside(Records([p], s.radius))
    ensures r.pointsInside == s.pointsInside + 1 <==> InsideCircle(p.x, p.y, s.radius)
    ensures SameSettings(s, r) && r.isPaused == s.isPaused && r.isComplete == s.isComplete
    ensures Valid(s) ==> Valid(r)
  {
    var inside := InsideCircle(p.x, p.y, s.radius);
    var r := s.(allPoints := s.allPoints + [PointRecord(p.x, p.y, inside)],
                pointsInside := if inside then s.pointsInside + 1 else s.pointsInside,
                currentPoints := s.currentPoints + 1);
    assert Records([p], s.radius) == [PointRecord(p.x, p.y, inside)];
    assert CountInside([PointRecord(p.x, p.y, inside)]) == (if inside then 1 else 0) by {
      assert [PointRecord(p.x, p.y, inside)][..0] == [];
    }
    ExtendValid(s, [p], r);
    r
  }

  /** The effect of generating: the next `k` draws' records appended and counted. */
  predicate Generated(s: State, draws: seq<Sample>, i: nat, k: nat, r: State)
    requires i + k <= |draws|
  {
    && r.allPoints == s.allPoints + Records(draws[i..i + k], s.radius)
    && r.currentPoints == s.currentPoints + k
    && r.pointsInside == s.pointsInside + CountInside(Records(draws[i..i + k], s.radius))
    && SameSettings(s, r) && r.isPaused == s.isPaused && r.isComplete == s.isComplete
  }

  /** Drawing draw `i` and then the following `k - 1` draws generates `k` draws from `i`. */
  lemma GeneratedStep(s: State, draws: seq<Sample>, i: nat, k: nat, r: State)
    requires 0 < k && i + k <= |draws|
    requires Generated(DrawPoint(s, draws[i]), draws, i + 1, k - 1, r)
    ensures Generated(s, draws, i, k, r)
  {
    var t := DrawPoint(s, draws[i]);
    var run := draws[i..i + k];
    var first := Records([draws[i]], s.radius);
    var rest := Records(draws[i + 1..i + k], s.radius);
    assert run[1..] == draws[i + 1..i + k];
    assert [run[0]] == [draws[i]];
    RecordsSplit(run, s.radius);
    assert Records(run, s.radius) == first + rest;
    assert r.allPoints == t.allPoints + rest == (s.allPoints + first) + rest;
    assert r.allPoints == s.allPoints + Records(run, s.radius);
    assert r.pointsInside == s.pointsInside + CountInside(first) + CountInside(rest);
  }

  /**
   The generation loop of one tick, from iteration `i` on: draw while fewer
   than `batch` points were drawn this tick and the target is not reached.
   It draws exactly the next min(batch - i, Remaining(s)) samples, in order.
   */
  function Generate(s: State, draws: seq<Sample>, batch: nat, i: nat): (r: State)
    requires i <= batch <= |draws|
    ensures Generated(s, draws, i, Min(batch - i, Remaining(s)), r)
    decreases batch - i
  {
    if i < batch && s.currentPoints < s.totalPoints then
      var t := DrawPoint(s, draws[i]);
      var r := Generate(t, draws, batch, i + 1);
      GeneratedStep(s, draws, i, Min(batch - i, Remaining(s)), r);
      r
    else
      assert draws[i..i] == [];
      s
  }

  /**
   One animation tick. Paused or complete: nothing happens. Otherwise the
   batch for the current level is generated (never past the target) and the
   run is marked complete when the count has reached or passed the target.
   */
  function Tick(s: State, draws: seq<Sample>): (r: State)
    requires |draws| >= BatchSize(s.simulationSpeed)
    ensures !Running(s) ==> r == s
    ensures Running(s) ==>
      var k := Min(BatchSize(s.simulationSpeed), Remaining(s));
      && r.allPoints == s.allPoints + Records(draws[..k], s.radius)
      && r.currentPoints == s.currentPoints + k
      && r.pointsInside == s.pointsInside + CountInside(Records(draws[..k], s.radius))
      && !r.isPaused
      && (r.isComplete <==> r.currentPoints >= r.totalPoints)
    ensures SameSettings(s, r)
    ensures Valid(s) ==> Valid(r)
    ensures s.currentPoints <= s.totalPoints ==> r.currentPoints <= r.totalPoints
  {
    if s.isPaused || s.isComplete then s
    else
      var t := Generate(s, draws, BatchSize(s.simulationSpeed), 0);
      var k := Min(BatchSize(s.simulationSpeed), Remaining(s));
      assert draws[0..k] == draws[..k];
      ExtendValid(s, draws[..k], t);
      if t.currentPoints >= t.totalPoints then t.(isComplete := true) else t
  }

  /** The tick as the program runs it: an imperative loop over the draws. */
  method Advance(s: State, draws: seq<Sample>) returns (r: State)
    requires |draws| >= BatchSize(s.simulationSpeed)
    ensures r == Tick(s, draws)
  {
    r := s;
    if !r.isPaused && !r.isComplete {
      var batch := BatchSize(r.simulationSpeed);
      var i := 0;
      while i < batch && r.currentPoints < r.totalPoints
        invariant 0 <= i <= batch
        invariant r.simulationSpeed == s.simulationSpeed
        invariant Generate(r, draws, batch, i) == Generate(s, draws, batch, 0)
        decreases batch - i
      {
        r := DrawPoint(r, draws[i]);
        i := i + 1;
      }
      if r.currentPoints >= r.totalPoints {
        r := r.(isComplete := true);
      }
    }
  }

  /**
   Restart: counters and history cleared, running again; the target, the
   speed and the radius are kept. The result is the start-up state with the
   current settings.
   */
  function Reset(s: State): (r: State)
    ensures r == Initial.(totalPoints := s.totalPoints, simulationSpeed := s.simulationSpeed, radius := s.radius)
    ensures Valid(r) && Running(r) && SameSettings(s, r)
  {
    s.(currentPoints := 0, pointsInside := 0, allPoints := [], isPaused := false, isComplete := false)
  }

  /** Flip the pause flag, whether or not the run is complete; nothing else changes. */
  function TogglePause(s: State): (r: State)
    ensures r.isPaused != s.isPaused
    ensures r.(isPaused := s.isPaused) == s
    ensures Valid(s) ==> Valid(r)
  {
    s.(isPaused := !s.isPaused)
  }

  /** Points slider: overwrite the target only; completion is not cleared. */
  function SetTarget(s: State, n: nat): (r: State)
    ensures r.totalPoints == n
    ensures r.(totalPoints := s.totalPoints) == s
    ensures Valid(s) ==> Valid(r)
  {
    s.(totalPoints := n)
  }

  /** Speed slider: overwrite the level only. */
  function SetSpeed(s: State, level: SpeedLevel): (r: State)
    ensures r.simulationSpeed == level
    ensures BatchSize(r.simulationSpeed) == SpeedMultipliers[level]
    ensures r.(simulationSpeed := s.simulationSpeed) == s
    ensures Valid(s) ==> Valid(r)
  {
    s.(simulationSpeed := level)
  }
}
