/** The feedback controller for the fraction of traffic to downgrade. Doubles are reals. */
module FracControl {
  import opened Reals

  datatype Config = Config(maxInc: real, propGain: real, ignoreBelow: real, ignoreCoarseness: real) {
    /** prop_gain is documented to range from 0 to 1. */
    predicate Valid() {
      0.0 <= propGain <= 1.0 && maxInc >= 0.0
    }
  }

  /** DumpStackTraceAndExit is an outcome of its own. */
  datatype Outcome = Inc(x: real) | Exit

  function Abs(x: real): real {
    if x < 0.0 then -x else x
  }

  function Min(x: real, y: real): real {
    if x < y then x else y
  }

  /** copysign of a magnitude that is not negative. */
  function CopySign(mag: real, sign: real): real {
    if sign < 0.0 then -mag else mag
  }

  predicate Ignored(c: Config, err: real, maxTask: real) {
    0.0 < err && (err < c.ignoreBelow || err < Times(c.ignoreCoarseness, maxTask))
  }

  function TrafficFracToDowngradeRaw(c: Config, cur: real, setpoint: real, i2o: real, maxTask: real): Outcome {
    var err := cur - setpoint;
    if 0.0 < err && err < c.ignoreBelow then Inc(0.0)
    else if 0.0 < err && err < Times(c.ignoreCoarseness, maxTask) then Inc(0.0)
    else
      var x := Times(Times(c.propGain, err), i2o);
      if x < -1.0 || x > 1.0 then Exit
      else Inc(Capped(c, x))
  }

  /** At most max_inc in absolute value. */
  function Capped(c: Config, x: real): real {
    CopySign(Min(Abs(x), c.maxInc), x)
  }

  function TrafficFracToDowngrade(c: Config, hipri: real, lopri: real, limit: real, maxTask: real): Outcome
    requires hipri + lopri > 0.0
  {
    var total := hipri + lopri;
    TrafficFracToDowngradeRaw(c, hipri / total, limit / total, 1.0, maxTask / total)
  }

  /** ClampFracLOPRI: the nearest fraction, and 0 for what is not a number. */
  function ClampFracLopri(f: Double): (r: real)
    ensures 0.0 <= r <= 1.0
    ensures f.NaN? ==> r == 0.0
    ensures f.Number? ==> r == f.value || (r == 0.0 && f.value < 0.0) || (r == 1.0 && f.value > 1.0)
  {
    if !(f.Number? && f.value >= 0.0) then 0.0 else if !(f.value <= 1.0) then 1.0 else f.value
  }

  /** One control period of the fast controller, unless both usage and approval are zero. */
  function NextFrac(c: Config, frac: real, usage: int, hipri: int, lopri: int, approval: int, maxTask: real): Outcome
    requires usage == hipri + lopri && (usage > 0 || usage < approval)
  {
    if usage < approval then Inc(ClampFracLopri(Number(frac - 0.2)))
    else
      match TrafficFracToDowngrade(c, hipri as real, lopri as real, approval as real, maxTask)
      case Inc(x) => Inc(ClampFracLopri(Number(frac + x)))
      case Exit => Exit
  }

  // ---- The exit is unreachable ----

  lemma ShareIsFraction(part: real, total: real)
    requires 0.0 <= part <= total && total > 0.0
    ensures 0.0 <= part / total <= 1.0
  {
    var q := part / total;
    assert q * total == part;
    assert (1.0 - q) * total == total - q * total;
    ScaleSign(q, total);
    ScaleSign(1.0 - q, total);
  }

  lemma ProductIsNotNegative(x: real, y: real)
    requires x >= 0.0 && y >= 0.0
    ensures x * y >= 0.0
  {
  }

  lemma GainShrinks(g: real, e: real)
    requires 0.0 <= g <= 1.0
    ensures 0.0 <= e ==> 0.0 <= Times(g, e) <= e
    ensures e <= 0.0 ==> e <= Times(g, e) <= 0.0
    ensures Times(Times(g, e), 1.0) == Times(g, e)
  {
    var m := Abs(e);
    ProductIsNotNegative(g, m);
    ProductIsNotNegative(1.0 - g, m);
    assert (1.0 - g) * m == m - g * m;
    assert g * (-e) == -(g * e);
  }

  /** With usage at or above the approval the controller never exits, and the fraction stays one. */
  lemma NeverExits(c: Config, frac: real, usage: int, hipri: int, lopri: int, approval: int, maxTask: real)
    requires c.Valid() && usage == hipri + lopri && hipri >= 0 && lopri >= 0 && approval >= 0
    requires usage > 0 || usage < approval
    ensures NextFrac(c, frac, usage, hipri, lopri, approval, maxTask).Inc?
    ensures 0.0 <= NextFrac(c, frac, usage, hipri, lopri, approval, maxTask).x <= 1.0
  {
    hide Times;
    if usage >= approval {
      var total := hipri as real + lopri as real;
      ShareIsFraction(hipri as real, total);
      ShareIsFraction(approval as real, total);
      GainShrinks(c.propGain, hipri as real / total - approval as real / total);
    }
  }

  /** Without the guard on usage it can exit: a quarter of the approval, all of it at LOPRI. */
  lemma GuardIsNeeded(maxTask: real)
    ensures TrafficFracToDowngrade(Config(1.0, 0.75, 0.0, 0.0), 0.0, 1.0, 4.0, maxTask).Exit?
  {
    assert 0.0 / 1.0 == 0.0 && 4.0 / 1.0 == 4.0;
  }

  // ---- Iterating the controller ----

  /** What one period takes off cur. */
  function Step(c: Config, cur: real, setpoint: real, maxTask: real): real {
    match TrafficFracToDowngradeRaw(c, cur, setpoint, 1.0, maxTask)
    case Inc(x) => cur - x
    case Exit => cur
  }

  ghost function Iterate(c: Config, cur: real, setpoint: real, maxTask: real, n: nat): real {
    if n == 0 then cur else Step(c, Iterate(c, cur, setpoint, maxTask, n - 1), setpoint, maxTask)
  }

  lemma CappedShrinks(c: Config, x: real)
    requires c.Valid()
    ensures 0.0 <= x ==> 0.0 <= Capped(c, x) <= x
    ensures x <= 0.0 ==> x <= Capped(c, x) <= 0.0
    ensures Abs(Capped(c, x)) == Min(Abs(x), c.maxInc)
  {
  }

  /** What a period does, case by case. */
  lemma StepCases(c: Config, cur: real, setpoint: real, maxTask: real)
    ensures var x := Times(c.propGain, cur - setpoint);
            Step(c, cur, setpoint, maxTask) ==
            if Ignored(c, cur - setpoint, maxTask) || x < -1.0 || x > 1.0 then cur else cur - Capped(c, x)
  {
    assert Times(Times(c.propGain, cur - setpoint), 1.0) == Times(c.propGain, cur - setpoint);
  }

  /** One period moves towards the setpoint and not past it. */
  lemma StepStaysOnItsSide(c: Config, cur: real, setpoint: real, maxTask: real)
    requires c.Valid()
    ensures cur >= setpoint ==> setpoint <= Step(c, cur, setpoint, maxTask) <= cur
    ensures cur <= setpoint ==> cur <= Step(c, cur, setpoint, maxTask) <= setpoint
  {
    hide Step, Capped, Times;
    StepCases(c, cur, setpoint, maxTask);
    GainShrinks(c.propGain, cur - setpoint);
    CappedShrinks(c, Times(c.propGain, cur - setpoint));
  }

  /** However long it runs, the setpoint is not crossed and the error never grows. */
  lemma {:induction false} NeverCrosses(c: Config, cur: real, setpoint: real, maxTask: real, m: nat, n: nat)
    requires c.Valid() && m <= n
    ensures var x, y := Iterate(c, cur, setpoint, maxTask, m), Iterate(c, cur, setpoint, maxTask, n);
            && (cur >= setpoint ==> setpoint <= y <= x <= cur)
            && (cur <= setpoint ==> cur <= x <= y <= setpoint)
    decreases n
  {
    if m < n {
      NeverCrosses(c, cur, setpoint, maxTask, m, n - 1);
      StepStaysOnItsSide(c, Iterate(c, cur, setpoint, maxTask, n - 1), setpoint, maxTask);
    } else if n > 0 {
      NeverCrosses(c, cur, setpoint, maxTask, n - 1, n - 1);
      StepStaysOnItsSide(c, Iterate(c, cur, setpoint, maxTask, n - 1), setpoint, maxTask);
    }
  }

  /** An error of at least eps that is not ignored shrinks by a fixed amount. */
  lemma StepMakesProgress(c: Config, cur: real, setpoint: real, maxTask: real, eps: real)
    requires c.Valid() && eps > 0.0 && eps <= Abs(cur - setpoint) <= 1.0
    requires !Ignored(c, cur - setpoint, maxTask)
    ensures Abs(Step(c, cur, setpoint, maxTask) - setpoint) <= Abs(cur - setpoint) - Min(Times(c.propGain, eps), c.maxInc)
  {
    hide Step, Capped, Times;
    var err := cur - setpoint;
    StepCases(c, cur, setpoint, maxTask);
    GainShrinks(c.propGain, err);
    CappedShrinks(c, Times(c.propGain, err));
    GainIsMonotone(c.propGain, eps, err);
  }

  lemma GainIsMonotone(g: real, eps: real, e: real)
    requires g >= 0.0 && eps <= Abs(e)
    ensures Times(g, eps) <= Abs(Times(g, e))
  {
    if e >= 0.0 {
      assert g * (e - eps) >= 0.0;
    } else {
      assert g * (-e - eps) >= 0.0;
      assert g * (-e) == -(g * e);
    }
  }

  /** Small, ignored, or at most bound. */
  ghost predicate Near(c: Config, err: real, maxTask: real, eps: real, bound: real) {
    Abs(err) < eps || Ignored(c, err, maxTask) || Abs(err) <= bound
  }

  lemma StepStaysNear(c: Config, x: real, setpoint: real, maxTask: real, eps: real, bound: real)
    requires c.Valid() && eps > 0.0 && Abs(x - setpoint) <= 1.0 && Near(c, x - setpoint, maxTask, eps, bound)
    ensures Near(c, Step(c, x, setpoint, maxTask) - setpoint, maxTask, eps,
                 bound - Min(Times(c.propGain, eps), c.maxInc))
  {
    hide Step, Min, Times, Capped;
    if Ignored(c, x - setpoint, maxTask) {
      StepCases(c, x, setpoint, maxTask);
    } else {
      hide Ignored;
      StepStaysOnItsSide(c, x, setpoint, maxTask);
      if Abs(x - setpoint) >= eps {
        StepMakesProgress(c, x, setpoint, maxTask, eps);
      }
    }
  }

  /** So the error gets below eps, or into the range that is ignored, within a bounded number of periods. */
  lemma {:induction false} Converges(c: Config, cur: real, setpoint: real, maxTask: real, eps: real, n: nat)
    requires c.Valid() && eps > 0.0 && Abs(cur - setpoint) <= 1.0
    ensures Near(c, Iterate(c, cur, setpoint, maxTask, n) - setpoint, maxTask, eps,
                 Abs(cur - setpoint) - Times(n as real, Min(Times(c.propGain, eps), c.maxInc)))
  {
    var d := Min(Times(c.propGain, eps), c.maxInc);
    if n == 0 {
      assert Times(0.0, d) == 0.0;
    } else {
      hide Step, Min, Times, Near;
      Converges(c, cur, setpoint, maxTask, eps, n - 1);
      NeverCrosses(c, cur, setpoint, maxTask, 0, n - 1);
      OneMore(n, d);
      StepStaysNear(c, Iterate(c, cur, setpoint, maxTask, n - 1), setpoint, maxTask, eps,
                    Abs(cur - setpoint) - Times((n - 1) as real, d));
    }
  }

  lemma OneMore(n: nat, d: real)
    requires n > 0
    ensures Times(n as real, d) == Times((n - 1) as real, d) + d
  {
    assert n as real == (n - 1) as real + 1.0;
  }

  // ---- The controller iterates this ----

  /** The fraction nearest to x. */
  function Nearest(x: real): real {
    if x < 0.0 then 0.0 else if x > 1.0 then 1.0 else x
  }

  /**
   One control period. Below its approval an aggregate gets a fifth of its traffic back; otherwise
   the fraction moves by what Step takes off the share at HIPRI, and so up while that share is
   above the approval and down while it is below.
   */
  lemma NextFracIs(c: Config, frac: real, usage: int, hipri: int, lopri: int, approval: int, maxTask: real)
    requires c.Valid() && 0.0 <= frac <= 1.0
    requires usage == hipri + lopri && hipri >= 0 && lopri >= 0 && approval >= 0 && (usage > 0 || usage < approval)
    ensures NextFrac(c, frac, usage, hipri, lopri, approval, maxTask).Inc?
    ensures var x := NextFrac(c, frac, usage, hipri, lopri, approval, maxTask).x;
            if usage < approval then x == if frac > 0.2 then frac - 0.2 else 0.0
            else
              var total := usage as real;
              var cur, setpoint := hipri as real / total, approval as real / total;
              && x == Nearest(frac + (cur - Step(c, cur, setpoint, maxTask / total)))
              && (0.0 < x < 1.0 ==> cur - (x - frac) == Step(c, cur, setpoint, maxTask / total))
              && (hipri >= approval ==> x >= frac)
              && (hipri <= approval ==> x <= frac)
  {
    hide Times;
    if usage >= approval {
      hide Capped;
      var total := usage as real;
      assert hipri as real + lopri as real == total;
      var cur, setpoint := hipri as real / total, approval as real / total;
      ShareIsFraction(hipri as real, total);
      ShareIsFraction(approval as real, total);
      GainShrinks(c.propGain, cur - setpoint);
      StepStaysOnItsSide(c, cur, setpoint, maxTask / total);
      if hipri >= approval {
        SharesCompare(hipri as real, approval as real, total);
      }
      if hipri <= approval {
        SharesCompare(approval as real, hipri as real, total);
      }
    }
  }

  lemma SharesCompare(x: real, y: real, total: real)
    requires x >= y && total > 0.0
    ensures x / total >= y / total
  {
    var d := x / total - y / total;
    assert d * total == x - y;
    ScaleSign(d, total);
  }

  /** Traffic at or above its approval that follows the fraction: the rest of it stays at HIPRI. */
  ghost predicate IsLoop(c: Config, fracs: seq<real>, hipris: seq<int>, usage: int, approval: int, maxTask: real) {
    && |fracs| == |hipris| > 0 && usage > 0 && usage >= approval >= 0
    && (forall k :: 0 <= k < |fracs| ==>
          0.0 <= fracs[k] <= 1.0 && 0 <= hipris[k] <= usage && hipris[k] as real / usage as real == 1.0 - fracs[k])
    && (forall k :: 0 < k < |fracs| ==>
          NextFrac(c, fracs[k - 1], usage, hipris[k - 1], usage - hipris[k - 1], approval, maxTask) == Inc(fracs[k]))
  }

  /** Then the share at HIPRI is what Iterate says: the controller never saturates. */
  lemma {:induction false} LoopIterates(
    c: Config, fracs: seq<real>, hipris: seq<int>, usage: int, approval: int, maxTask: real, k: nat)
    requires c.Valid() && IsLoop(c, fracs, hipris, usage, approval, maxTask) && k < |fracs|
    ensures var total := usage as real;
            1.0 - fracs[k] == Iterate(c, 1.0 - fracs[0], approval as real / total, maxTask / total, k)
  {
    if k > 0 {
      hide Step, NextFrac;
      LoopIterates(c, fracs, hipris, usage, approval, maxTask, k - 1);
      var total := usage as real;
      ShareIsFraction(approval as real, total);
      StepStaysOnItsSide(c, 1.0 - fracs[k - 1], approval as real / total, maxTask / total);
      NextFracIs(c, fracs[k - 1], usage, hipris[k - 1], usage - hipris[k - 1], approval, maxTask);
    }
  }

  /** The fraction converges: HIPRI gets as near to the approval as asked for, or as is not ignored. */
  lemma LoopConverges(
    c: Config, fracs: seq<real>, hipris: seq<int>, usage: int, approval: int, maxTask: real, eps: real, k: nat)
    requires c.Valid() && IsLoop(c, fracs, hipris, usage, approval, maxTask) && k < |fracs| && eps > 0.0
    ensures var total := usage as real;
            var setpoint := approval as real / total;
            && (hipris[0] >= approval ==> setpoint <= 1.0 - fracs[k] <= 1.0 - fracs[0])
            && (hipris[0] <= approval ==> 1.0 - fracs[0] <= 1.0 - fracs[k] <= setpoint)
            && Near(c, 1.0 - fracs[k] - setpoint, maxTask / total, eps,
                    Abs(1.0 - fracs[0] - setpoint) - Times(k as real, Min(Times(c.propGain, eps), c.maxInc)))
  {
    hide Times, Min, Near, Iterate, NextFrac;
    var total := usage as real;
    var setpoint := approval as real / total;
    ShareIsFraction(approval as real, total);
    LoopIterates(c, fracs, hipris, usage, approval, maxTask, k);
    if hipris[0] >= approval {
      SharesCompare(hipris[0] as real, approval as real, total);
    }
    if hipris[0] <= approval {
      SharesCompare(approval as real, hipris[0] as real, total);
    }
    IterateZero(c, 1.0 - fracs[0], setpoint, maxTask / total);
    NeverCrosses(c, 1.0 - fracs[0], setpoint, maxTask / total, 0, k);
    Converges(c, 1.0 - fracs[0], setpoint, maxTask / total, eps, k);
  }

  lemma IterateZero(c: Config, cur: real, setpoint: real, maxTask: real)
    ensures Iterate(c, cur, setpoint, maxTask, 0) == cur
  {
  }

  // ---- Without feedback ----

  /** What is above the approval, as a fraction of the usage. */
  function StaticFrac(usage: int, approval: int): real {
    var lopri := if usage > approval then usage - approval else 0;
    ClampFracLopri(Quotient(lopri as real, usage as real))
  }

  /** What stays at HIPRI is the approval, or all of a usage below it; without usage nothing is downgraded. */
  lemma StaticKeepsApproval(usage: int, approval: int)
    requires usage >= 0 && approval >= 0
    ensures (1.0 - StaticFrac(usage, approval)) * usage as real == (if usage < approval then usage else approval) as real
    ensures usage <= approval ==> StaticFrac(usage, approval) == 0.0
  {
    var lopri := if usage > approval then usage - approval else 0;
    if usage > 0 {
      ShareIsFraction(lopri as real, usage as real);
      var f := lopri as real / usage as real;
      assert f * usage as real == lopri as real;
      assert (1.0 - f) * usage as real == usage as real - f * usage as real;
    }
  }

  // ---- FracAdmittedAtLOPRI ----

  function FracAdmittedAtLopri(volume: int, hipriLimit: int, lopriLimit: int): real
    requires hipriLimit >= 0
  {
    if lopriLimit > 0 && volume > 0 && volume > hipriLimit then
      var limit := hipriLimit + lopriLimit;
      var admitted := if limit < volume then limit else volume;
      1.0 - hipriLimit as real / admitted as real
    else 0.0
  }

  /** Of what is admitted, exactly the HIPRI limit goes at HIPRI, and LOPRI stays within its own. */
  lemma AdmittedSplit(volume: int, hipriLimit: int, lopriLimit: int)
    requires hipriLimit >= 0
    ensures var f := FracAdmittedAtLopri(volume, hipriLimit, lopriLimit);
            if lopriLimit > 0 && volume > hipriLimit then
              var admitted := if hipriLimit + lopriLimit < volume then hipriLimit + lopriLimit else volume;
              && 0.0 <= f <= 1.0
              && (1.0 - f) * admitted as real == hipriLimit as real
              && f * admitted as real <= lopriLimit as real
            else f == 0.0
  {
    if !(lopriLimit > 0 && volume > hipriLimit) {
      return;
    }
    var admitted := if hipriLimit + lopriLimit < volume then hipriLimit + lopriLimit else volume;
    ShareIsFraction(hipriLimit as real, admitted as real);
    var q := hipriLimit as real / admitted as real;
    assert q * admitted as real == hipriLimit as real;
    assert (1.0 - q) * admitted as real == admitted as real - q * admitted as real;
  }
}
