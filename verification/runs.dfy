/**
 Properties of the sampler over several control actions: sequences of
 ticks, completion and the pause latch.
 */
module Runs {
  import opened Sampler

  /** Every batch of draws is long enough for one tick at batch size `b`. */
  predicate EnoughDraws(batches: seq<seq<Sample>>, b: nat)
  {
    forall j :: 0 <= j < |batches| ==> |batches[j]| >= b
  }

  /** Consecutive ticks, one per batch of draws. */
  function Run(s: State, batches: seq<seq<Sample>>): (r: State)
    requires EnoughDraws(batches, BatchSize(s.simulationSpeed))
    ensures SameSettings(s, r)
    decreases |batches|
  {
    if |batches| == 0 then s
    else
      var t := Tick(s, batches[0]);
      assert EnoughDraws(batches[1..], BatchSize(t.simulationSpeed)) by {
        forall j | 0 <= j < |batches[1..]|
          ensures |batches[1..][j]| >= BatchSize(t.simulationSpeed)
        {
          assert batches[1..][j] == batches[j + 1];
        }
      }
      Run(t, batches[1..])
  }

  /**
   Any number of ticks preserves the counter invariant, only extends the
   history, and keeps the count within the target if it started within it.
   */
  lemma {:induction false} RunKeepsInvariants(s: State, batches: seq<seq<Sample>>)
    requires EnoughDraws(batches, BatchSize(s.simulationSpeed))
    ensures var r := Run(s, batches);
      && (Valid(s) ==> Valid(r))
      && (s.currentPoints <= s.totalPoints ==> r.currentPoints <= r.totalPoints)
      && s.allPoints <= r.allPoints
      && s.currentPoints <= r.currentPoints
      && (Valid(s) ==> s.pointsInside <= r.pointsInside)
    decreases |batches|
  {
    if |batches| > 0 {
      var t := Tick(s, batches[0]);
      assert Run(s, batches) == Run(t, batches[1..]);
      RunKeepsInvariants(t, batches[1..]);
      CountInsidePrefix(s.allPoints, Run(s, batches).allPoints);
    }
  }

  /** A paused or complete sampler ignores any number of ticks. */
  lemma {:induction false} StoppedRunIsIdentity(s: State, batches: seq<seq<Sample>>)
    requires !Running(s)
    requires EnoughDraws(batches, BatchSize(s.simulationSpeed))
    ensures Run(s, batches) == s
    decreases |batches|
  {
    if |batches| > 0 {
      StoppedRunIsIdentity(s, batches[1..]);
    }
  }

  /** Completion is latched: once complete, ticks change nothing until a reset. */
  lemma CompletionLatched(s: State, batches: seq<seq<Sample>>)
    requires s.isComplete
    requires EnoughDraws(batches, BatchSize(s.simulationSpeed))
    ensures Run(s, batches).isComplete && Run(s, batches).allPoints == s.allPoints
  {
    StoppedRunIsIdentity(s, batches);
  }

  /**
   One running tick within the target: when what remains fits in the batch
   the tick reaches the target exactly and completes; otherwise it draws a
   full batch and keeps running.
   */
  lemma TickProgress(s: State, draws: seq<Sample>)
    requires Running(s)
    requires s.currentPoints <= s.totalPoints
    requires |draws| >= BatchSize(s.simulationSpeed)
    ensures var t := Tick(s, draws);
      var b := BatchSize(s.simulationSpeed);
      && (s.totalPoints - s.currentPoints <= b ==> t.isComplete && t.currentPoints == s.totalPoints)
      && (s.totalPoints - s.currentPoints > b ==> Running(t) && t.currentPoints == s.currentPoints + b)
  {
  }

  /**
   From a running state within its target, n ticks at batch size b generate
   min(remaining, n * b) points, and the run is complete exactly when at
   least one tick happened and n * b covers what remained.
   */
  lemma {:induction false} RunProgress(s: State, batches: seq<seq<Sample>>)
    requires Running(s)
    requires s.currentPoints <= s.totalPoints
    requires EnoughDraws(batches, BatchSize(s.simulationSpeed))
    ensures var b := BatchSize(s.simulationSpeed);
      var remaining := s.totalPoints - s.currentPoints;
      && Run(s, batches).currentPoints == s.currentPoints + Min(remaining, |batches| * b)
      && (Run(s, batches).isComplete <==> |batches| > 0 && |batches| * b >= remaining)
    decreases |batches|
  {
    if |batches| > 0 {
      var b := BatchSize(s.simulationSpeed);
      var remaining := s.totalPoints - s.currentPoints;
      var t := Tick(s, batches[0]);
      var rest := batches[1..];
      TickProgress(s, batches[0]);
      assert EnoughDraws(rest, BatchSize(t.simulationSpeed)) by {
        forall j | 0 <= j < |rest|
          ensures |rest[j]| >= BatchSize(t.simulationSpeed)
        {
          assert rest[j] == batches[j + 1];
        }
      }
      assert Run(s, batches) == Run(t, rest);
      MulSplit(|rest|, b);
      if remaining <= b {
        StoppedRunIsIdentity(t, rest);
      } else {
        RunProgress(t, rest);
      }
    }
  }

  lemma MulSplit(n: nat, b: nat)
    ensures (n + 1) * b == n * b + b
    ensures (n + 1) * b >= b
  {
  }

  /**
   With target 50 at speed level 3 (batch 10), from a running state with no
   points: four ticks are not enough, the fifth completes with exactly 50
   points, and a sixth changes nothing.
   */
  lemma FiftyPointsAtMediumSpeed(start: State, batches: seq<seq<Sample>>)
    requires Running(start) && start.currentPoints == 0
    requires start.totalPoints == 50 && start.simulationSpeed == 3
    requires |batches| == 6 && EnoughDraws(batches, 10)
    ensures !Run(start, batches[..4]).isComplete
    ensures Run(start, batches[..5]).isComplete
    ensures Run(start, batches[..5]).currentPoints == 50
    ensures Run(start, batches) == Run(start, batches[..5])
  {
    TicksAtMediumSpeed(start, batches, 4);
    TicksAtMediumSpeed(start, batches, 5);
    CompletedPrefixIgnoresRest(start, batches, 5);
  }

  /** The first n ticks at level 3 towards target 50, by the general progress lemma. */
  lemma TicksAtMediumSpeed(start: State, batches: seq<seq<Sample>>, n: nat)
    requires Running(start) && start.currentPoints == 0
    requires start.totalPoints == 50 && start.simulationSpeed == 3
    requires n <= |batches| && EnoughDraws(batches, 10)
    ensures EnoughDraws(batches[..n], 10)
    ensures Run(start, batches[..n]).currentPoints == Min(50, 10 * n)
    ensures Run(start, batches[..n]).isComplete <==> n >= 5
  {
    assert BatchSize(start.simulationSpeed) == 10;
    EnoughDrawsPrefix(batches, n, 10);
    RunProgress(start, batches[..n]);
    assert |batches[..n]| * 10 == 10 * n;
  }

  lemma CompletedPrefixIgnoresRest(start: State, batches: seq<seq<Sample>>, n: nat)
    requires n <= |batches| && EnoughDraws(batches, BatchSize(start.simulationSpeed))
    requires EnoughDraws(batches[..n], BatchSize(start.simulationSpeed))
    requires Run(start, batches[..n]).isComplete
    ensures Run(start, batches) == Run(start, batches[..n])
  {
    TakeDrop(batches, n);
    CompletedRunIgnoresMore(start, batches[..n], batches[n..]);
  }

  lemma TakeDrop<T>(xs: seq<T>, n: nat)
    requires n <= |xs|
    ensures xs[..n] + xs[n..] == xs
  {
  }

  /** Ticks after completion change nothing. */
  lemma CompletedRunIgnoresMore(s: State, first: seq<seq<Sample>>, more: seq<seq<Sample>>)
    requires EnoughDraws(first + more, BatchSize(s.simulationSpeed))
    requires EnoughDraws(first, BatchSize(s.simulationSpeed))
    requires Run(s, first).isComplete
    ensures Run(s, first + more) == Run(s, first)
  {
    RunSplit(s, first, more);
    StoppedRunIsIdentity(Run(s, first), more);
  }

  lemma EnoughDrawsPrefix(batches: seq<seq<Sample>>, n: nat, b: nat)
    requires n <= |batches| && EnoughDraws(batches, b)
    ensures EnoughDraws(batches[..n], b)
  {
    forall j | 0 <= j < n
      ensures |batches[..n][j]| >= b
    {
      assert batches[..n][j] == batches[j];
    }
  }

  /** Running the ticks of two consecutive lists is running them one after the other. */
  lemma {:induction false} RunSplit(s: State, first: seq<seq<Sample>>, second: seq<seq<Sample>>)
    requires EnoughDraws(first + second, BatchSize(s.simulationSpeed))
    ensures EnoughDraws(first, BatchSize(s.simulationSpeed))
    ensures EnoughDraws(second, BatchSize(Run(s, first).simulationSpeed))
    ensures Run(s, first + second) == Run(Run(s, first), second)
    decreases |first|
  {
    var b := BatchSize(s.simulationSpeed);
    assert forall j :: 0 <= j < |first| ==> (first + second)[j] == first[j];
    assert forall j :: 0 <= j < |second| ==> (first + second)[|first| + j] == second[j];
    if |first| > 0 {
      var t := Tick(s, first[0]);
      assert (first + second)[1..] == first[1..] + second;
      RunSplit(t, first[1..], second);
    } else {
      assert first + second == second;
    }
  }

  /** With target 0, the first running tick completes without drawing anything. */
  lemma ZeroTargetCompletesAtOnce(s: State, draws: seq<Sample>)
    requires Running(s) && s.totalPoints == 0
    requires |draws| >= BatchSize(s.simulationSpeed)
    ensures Tick(s, draws).isComplete
    ensures Tick(s, draws).allPoints == s.allPoints
    ensures Tick(s, draws).currentPoints == s.currentPoints
  {
    assert draws[..0] == [];
  }

  /**
   Lowering the target below the count while running: the next tick draws
   nothing and latches completion, leaving more points than the target.
   */
  lemma LoweredTargetCompletesWithoutDrawing(s: State, n: nat, draws: seq<Sample>)
    requires Running(s) && n < s.currentPoints
    requires |draws| >= BatchSize(s.simulationSpeed)
    ensures var t := Tick(SetTarget(s, n), draws);
      && t.isComplete
      && t.allPoints == s.allPoints
      && t.currentPoints == s.currentPoints > t.totalPoints
  {
    assert draws[..0] == [];
  }

  /** Raising the target after completion does not resume sampling. */
  lemma RaisedTargetStaysComplete(s: State, n: nat, draws: seq<Sample>)
    requires s.isComplete
    requires |draws| >= BatchSize(s.simulationSpeed)
    ensures Tick(SetTarget(s, n), draws) == SetTarget(s, n)
  {
  }

  /** Toggling pause twice restores the state, whatever it was. */
  lemma TogglePauseInvolution(s: State)
    ensures TogglePause(TogglePause(s)) == s
  {
  }

  /** Pause then resume: a tick behaves exactly as it would have without the two toggles. */
  lemma ResumeRestoresAdvancing(s: State, draws: seq<Sample>)
    requires |draws| >= BatchSize(s.simulationSpeed)
    ensures Tick(TogglePause(TogglePause(s)), draws) == Tick(s, draws)
    ensures !s.isPaused ==> Tick(TogglePause(s), draws) == TogglePause(s)
  {
  }

  /** Every point recorded from in-domain draws lies in the sampling square. */
  lemma TickKeepsHistoryInDomain(s: State, draws: seq<Sample>)
    requires |draws| >= BatchSize(s.simulationSpeed)
    requires forall j :: 0 <= j < |s.allPoints| ==> InDomain(Sample(s.allPoints[j].x, s.allPoints[j].y))
    requires forall j :: 0 <= j < |draws| ==> InDomain(draws[j])
    ensures var t := Tick(s, draws);
      forall j :: 0 <= j < |t.allPoints| ==> InDomain(Sample(t.allPoints[j].x, t.allPoints[j].y))
  {
    var t := Tick(s, draws);
    if Running(s) {
      var k := Min(BatchSize(s.simulationSpeed), Remaining(s));
      var recs := Records(draws[..k], s.radius);
      forall j | 0 <= j < |t.allPoints|
        ensures InDomain(Sample(t.allPoints[j].x, t.allPoints[j].y))
      {
        if j >= |s.allPoints| {
          var m := j - |s.allPoints|;
          assert t.allPoints[j] == recs[m] == Classify(draws[m], s.radius);
        }
      }
    }
  }
}
