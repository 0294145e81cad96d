/** The atempo step planner (main.py:312-324, repeated at 365-377). ffmpeg's
    `atempo` filter accepts only a bounded tempo ratio per instance, so a speed
    factor above 2.0 is split into steps of 2.0 and one below 0.5 into steps
    of 0.5, followed by the residual. Durations and factors are `real`, so
    halving and doubling are exact. */
module Atempo {

  /** The tempo change of a chain of `atempo` filters applied in order. */
  function Product(steps: seq<real>): real
  {
    if steps == [] then 1.0 else steps[0] * Product(steps[1..])
  }

  /** The number of halvings or doublings still to come is bounded by this. */
  function Measure(f: real): int
    requires f > 0.0
  {
    if f > 2.0 then f.Floor else if f < 0.5 then (1.0 / f).Floor else 0
  }

  lemma HalvingDecreases(f: real)
    requires f > 2.0
    ensures 0 <= Measure(f / 2.0) < Measure(f)
  {
    var g := f / 2.0;
    if g > 2.0 {
      assert g <= f - 1.0;
      assert g.Floor <= (f - 1.0).Floor == f.Floor - 1;
    }
  }

  lemma DoublingDecreases(f: real)
    requires 0.0 < f < 0.5
    ensures 0 <= Measure(f * 2.0) < Measure(f)
  {
    var h := 1.0 / f;
    assert h > 2.0 by {
      assert h * f == 1.0;
    }
    var g := f * 2.0;
    if g < 0.5 {
      assert 1.0 / g == h / 2.0 by {
        assert g * (h / 2.0) == 1.0;
      }
      assert h / 2.0 <= h - 1.0;
      assert (h / 2.0).Floor <= (h - 1.0).Floor == h.Floor - 1;
    }
  }

  /** The steps the planner emits for a positive factor, one recursion per
      loop iteration of main.py:315-321 and the residual of line 323. */
  function AtempoSteps(f: real): seq<real>
    requires f > 0.0
    decreases Measure(f)
  {
    if f > 2.0 then
      HalvingDecreases(f);
      [2.0] + AtempoSteps(f / 2.0)
    else if f < 0.5 then
      DoublingDecreases(f);
      [0.5] + AtempoSteps(f * 2.0)
    else
      [f]
  }

  /** For a positive factor every step lies in [0.5, 2.0], the steps compose
      to exactly the factor, and the residual is always emitted last. Above
      2.0 every step but the residual is 2.0 and the residual lies in
      (1.0, 2.0]; below 0.5 every step but the residual is 0.5 and the
      residual lies in [0.5, 1.0); in between the factor is the only step. */
  lemma {:induction false} AtempoStepsSound(f: real)
    requires f > 0.0
    ensures var steps := AtempoSteps(f);
      && |steps| >= 1
      && Product(steps) == f
      && (forall i :: 0 <= i < |steps| ==> 0.5 <= steps[i] <= 2.0)
      && (0.5 <= f <= 2.0 ==> steps == [f])
      && (f > 2.0 ==>
            (forall i :: 0 <= i < |steps| - 1 ==> steps[i] == 2.0) && 1.0 < steps[|steps| - 1] <= 2.0)
      && (f < 0.5 ==>
            (forall i :: 0 <= i < |steps| - 1 ==> steps[i] == 0.5) && 0.5 <= steps[|steps| - 1] < 1.0)
    decreases Measure(f)
  {
    var steps := AtempoSteps(f);
    if f > 2.0 {
      HalvingDecreases(f);
      var rest := AtempoSteps(f / 2.0);
      AtempoStepsSound(f / 2.0);
      assert steps == [2.0] + rest;
      assert steps[1..] == rest;
      assert f / 2.0 > 1.0;
    } else if f < 0.5 {
      DoublingDecreases(f);
      var rest := AtempoSteps(f * 2.0);
      AtempoStepsSound(f * 2.0);
      assert steps == [0.5] + rest;
      assert steps[1..] == rest;
      assert f * 2.0 < 1.0;
    } else {
      assert steps == [f];
      assert Product(steps) == f * Product([]);
    }
  }

  /** The planner loop as written: halve while above 2.0, or else double
      while below 0.5, then emit the residual. A factor of zero or below would
      make the source loop forever, hence the precondition. */
  method PlanAtempo(factor: real) returns (steps: seq<real>)
    requires factor > 0.0
    ensures steps == AtempoSteps(factor)
  {
    var speed := factor;
    steps := [];
    if speed > 2.0 {
      while speed > 2.0
        invariant speed > 1.0
        invariant steps + AtempoSteps(speed) == AtempoSteps(factor)
        decreases Measure(speed)
      {
        HalvingDecreases(speed);
        HalvingStep(speed);
        steps := steps + [2.0];
        speed := speed / 2.0;
      }
    } else if speed < 0.5 {
      while speed < 0.5
        invariant 0.0 < speed < 1.0
        invariant steps + AtempoSteps(speed) == AtempoSteps(factor)
        decreases Measure(speed)
      {
        DoublingDecreases(speed);
        DoublingStep(speed);
        steps := steps + [0.5];
        speed := speed * 2.0;
      }
    }
    // The guard `speed_factor > 0` of line 322 always holds here.
    assert speed > 0.0;
    ResidualStep(speed);
    steps := steps + [speed];
  }

  /** The factor after `k` rounds of the doubling loop of main.py:319-321. */
  function Doubled(f: real, k: nat): real
  {
    if k == 0 then f else Doubled(f, k - 1) * 2.0
  }

  /** A factor of zero or below enters the doubling loop and, however many
      rounds it runs, never leaves it: the loop guard `speed_factor < 0.5`
      keeps holding. This is why the planner requires a positive factor. */
  lemma {:induction false} NonPositiveFactorNeverLeavesLoop(f: real, k: nat)
    requires f <= 0.0
    ensures !(f > 2.0) && f < 0.5
    ensures Doubled(f, k) <= 0.0 && Doubled(f, k) < 0.5
  {
    if k > 0 {
      NonPositiveFactorNeverLeavesLoop(f, k - 1);
    }
  }

  lemma HalvingStep(f: real)
    requires f > 2.0
    ensures AtempoSteps(f) == [2.0] + AtempoSteps(f / 2.0)
  {
  }

  lemma DoublingStep(f: real)
    requires 0.0 < f < 0.5
    ensures AtempoSteps(f) == [0.5] + AtempoSteps(f * 2.0)
  {
  }

  lemma ResidualStep(f: real)
    requires 0.5 <= f <= 2.0
    ensures AtempoSteps(f) == [f]
  {
  }

  /** A factor of 1.0 still yields one step. */
  lemma PlanOfOne()
    ensures AtempoSteps(1.0) == [1.0]
  {
  }

  lemma PlanOfFive()
    ensures AtempoSteps(5.0) == [2.0, 2.0, 1.25]
  {
    assert AtempoSteps(1.25) == [1.25];
    assert AtempoSteps(2.5) == [2.0, 1.25];
  }

  lemma PlanOfOneFifth()
    ensures AtempoSteps(0.2) == [0.5, 0.5, 0.8]
  {
    assert AtempoSteps(0.8) == [0.8];
    assert AtempoSteps(0.4) == [0.5, 0.8];
  }
}
