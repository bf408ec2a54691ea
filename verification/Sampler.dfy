/**
 Threshold sampling: a host reports its usage with a probability proportional to it, and the
 aggregator weighs each report by the inverse of that probability. Doubles are reals, except
 that a quotient 0/0 is kept apart as not a number.
 */
module Sampling {
  import opened Reals
  import opened Sequences

  /** The configuration of a ThresholdSampler; thresh is numSamples / approval. */
  datatype Sampler = Sampler(numSamples: real, approval: real) {
    predicate Valid() {
      numSamples > 0.0 && approval >= 0.0
    }
  }

  function ProbOf(s: Sampler, usage: real): real {
    if s.approval == 0.0 then 1.0
    else
      var x := usage * (s.numSamples / s.approval);
      if x < 1.0 then x else 1.0
  }

  /** ShouldInclude, with the random draw from [0, 1) as a parameter. */
  predicate ShouldInclude(s: Sampler, usage: real, rand: real) {
    rand < ProbOf(s, usage)
  }

  function Plus(x: Double, y: Double): Double {
    if x.Number? && y.Number? then Number(x.value + y.value) else NaN
  }

  class AggUsageEstimator {
    const sampler: Sampler
    var est: Double

    constructor (s: Sampler)
      ensures sampler == s && est == Number(0.0)
    {
      sampler, est := s, Number(0.0);
    }

    method RecordSample(usage: real)
      requires sampler.Valid()
      modifies this
      ensures est == Plus(old(est), Contribution(sampler, usage))
    {
      ContributionIsQuotient(sampler, usage);
      var p := ProbOf(sampler, usage);
      est := Plus(est, Quotient(usage, p));
    }
  }

  lemma UnsureBelowOne(s: Sampler, usage: real)
    requires s.Valid()
    ensures ProbOf(s, usage) >= 1.0 <==> s.approval == 0.0 || usage * s.numSamples >= s.approval
  {
    if s.approval != 0.0 {
      var q := s.numSamples / s.approval;
      assert q * s.approval == s.numSamples;
      ScaleCompare(usage, q, s.approval, s.numSamples);
      var x := usage * q;
      assert ProbOf(s, usage) == if x < 1.0 then x else 1.0;
      assert x < 1.0 <==> usage * s.numSamples < s.approval;
    }
  }

  /** A draw lets a host report exactly when its usage is above that share of approval / numSamples. */
  lemma ReportsIff(s: Sampler, usage: real, rand: real)
    requires s.Valid() && 0.0 <= rand < 1.0
    ensures ShouldInclude(s, usage, rand) <==> s.approval == 0.0 || usage * s.numSamples > rand * s.approval
  {
    if s.approval != 0.0 {
      var q := s.numSamples / s.approval;
      assert q * s.approval == s.numSamples;
      var x := usage * q;
      assert x * s.approval == usage * (q * s.approval);
      assert (x - rand) * s.approval == usage * s.numSamples - rand * s.approval;
      ScaleSign(x - rand, s.approval);
      ScaleSign(rand - x, s.approval);
      assert (rand - x) * s.approval == rand * s.approval - usage * s.numSamples;
    }
  }

  /** A host is sure to report exactly when its usage is at least approval / numSamples. */
  lemma SureToReport(s: Sampler, usage: real)
    requires s.Valid()
    ensures (forall rand :: 0.0 <= rand < 1.0 ==> ShouldInclude(s, usage, rand)) <==>
            s.approval == 0.0 || usage * s.numSamples >= s.approval
  {
    hide ProbOf;
    UnsureBelowOne(s, usage);
    var p := ProbOf(s, usage);
    if p < 1.0 {
      assert !ShouldInclude(s, usage, if p < 0.0 then 0.0 else p);
    }
  }

  /** What one report adds to the estimate, said without the probability. */
  function Contribution(s: Sampler, usage: real): Double
    requires s.Valid()
  {
    if s.approval == 0.0 then Number(usage)
    else if usage == 0.0 then NaN
    else if usage * s.numSamples < s.approval then Number(s.approval / s.numSamples)
    else Number(usage)
  }

  lemma ScaleCompare(u: real, q: real, a: real, n: real)
    requires a > 0.0 && q * a == n
    ensures u * q < 1.0 <==> u * n < a
  {
    var x := u * q;
    assert x * a == u * n;
    assert (x - 1.0) * a == x * a - a;
    ScaleSign(x - 1.0, a);
  }

  lemma CrossMultiply(u: real, x: real, a: real, n: real)
    requires x != 0.0 && n != 0.0 && u * n == a * x
    ensures u / x == a / n
  {
    var r := a / n;
    assert r * n == a;
    assert (u - r * x) * n == u * n - (r * n) * x;
  }

  lemma RatioOfScaled(u: real, q: real, a: real, n: real)
    requires u != 0.0 && q != 0.0 && n != 0.0 && q * a == n
    ensures u * q != 0.0 && u / (u * q) == a / n
  {
    assert a * (u * q) == u * n;
    CrossMultiply(u, u * q, a, n);
  }

  lemma DivideByOne(u: real)
    ensures u / 1.0 == u
  {
  }

  lemma ContributionIsQuotient(s: Sampler, usage: real)
    requires s.Valid()
    ensures Quotient(usage, ProbOf(s, usage)) == Contribution(s, usage)
  {
    if s.approval != 0.0 {
      var n, a := s.numSamples, s.approval;
      var q := n / a;
      assert q * a == n && q != 0.0;
      ScaleCompare(usage, q, a, n);
      if usage != 0.0 {
        RatioOfScaled(usage, q, a, n);
        DivideByOne(usage);
        var x := usage * q;
        assert ProbOf(s, usage) == if x < 1.0 then x else 1.0;
        assert x < 1.0 <==> usage * n < a;
      } else {
        assert usage * q == 0.0;
      }
    }
  }

  /** For positive usage the weight is the usage itself, or the floor approval / numSamples. */
  lemma PositiveContribution(s: Sampler, usage: real)
    requires s.Valid() && usage > 0.0
    ensures var floor := s.approval / s.numSamples;
            Contribution(s, usage) == Number(if usage < floor then floor else usage)
  {
    var floor := s.approval / s.numSamples;
    assert floor * s.numSamples == s.approval;
    if usage < floor {
      assert usage * s.numSamples < floor * s.numSamples;
    } else {
      assert usage * s.numSamples >= floor * s.numSamples;
    }
  }

  ghost function Estimate(s: Sampler, usages: seq<real>): Double
    requires s.Valid()
  {
    if usages == [] then Number(0.0)
    else Plus(Estimate(s, usages[..|usages| - 1]), Contribution(s, usages[|usages| - 1]))
  }

  /** The estimate is a number exactly when no zero usage was recorded against a positive approval. */
  lemma {:induction false} EstimateIsNumber(s: Sampler, usages: seq<real>)
    requires s.Valid()
    ensures Estimate(s, usages).Number? <==> s.approval == 0.0 || 0.0 !in usages
  {
    if usages != [] {
      var x, u := usages[..|usages| - 1], usages[|usages| - 1];
      EstimateIsNumber(s, x);
      SplitLast(usages);
    }
  }

  // ---- Expectation over all outcomes ----

  function Sum(xs: seq<real>): real {
    if xs == [] then 0.0 else Sum(xs[..|xs| - 1]) + xs[|xs| - 1]
  }

  /** Every way to include or leave out each of n items. */
  ghost function Outcomes(n: nat): seq<seq<bool>> {
    if n == 0 then [[]] else Extend(Outcomes(n - 1))
  }

  ghost function Extend(outs: seq<seq<bool>>): seq<seq<bool>> {
    if outs == [] then [] else [outs[0] + [true], outs[0] + [false]] + Extend(outs[1..])
  }

  lemma {:induction false} ExtendHas(outs: seq<seq<bool>>, o: seq<bool>, b: bool)
    requires o in outs
    ensures o + [b] in Extend(outs)
  {
    if o != outs[0] {
      assert o in outs[1..];
      ExtendHas(outs[1..], o, b);
    }
  }

  lemma {:induction false} OutcomesAreAll(n: nat, o: seq<bool>)
    requires |o| == n
    ensures o in Outcomes(n)
  {
    if n > 0 {
      OutcomesAreAll(n - 1, o[..n - 1]);
      ExtendHas(Outcomes(n - 1), o[..n - 1], o[n - 1]);
      SplitLast(o);
    }
  }

  ghost predicate AllOfLength(outs: seq<seq<bool>>, n: nat) {
    forall k :: 0 <= k < |outs| ==> |outs[k]| == n
  }

  ghost function TwoTo(n: nat): nat {
    if n == 0 then 1 else 2 * TwoTo(n - 1)
  }

  /** There are 2^n of them, so each occurs once. */
  lemma {:induction false} OutcomesCount(n: nat)
    ensures |Outcomes(n)| == TwoTo(n) && AllOfLength(Outcomes(n), n)
  {
    if n > 0 {
      OutcomesCount(n - 1);
      ExtendLength(Outcomes(n - 1), n - 1);
    }
  }

  lemma {:induction false} ExtendLength(outs: seq<seq<bool>>, n: nat)
    requires AllOfLength(outs, n)
    ensures |Extend(outs)| == 2 * |outs| && AllOfLength(Extend(outs), n + 1)
  {
    if outs != [] {
      ExtendLength(outs[1..], n);
    }
  }

  /** Independent inclusions: the product over all items. */
  ghost function Probability(s: Sampler, us: seq<real>, o: seq<bool>): real
    requires |us| == |o|
  {
    if us == [] then 1.0
    else
      var k := |us| - 1;
      Times(Probability(s, us[..k], o[..k]), if o[k] then ProbOf(s, us[k]) else 1.0 - ProbOf(s, us[k]))
  }

  /** The usages reported in outcome o. */
  ghost function Reported(us: seq<real>, o: seq<bool>): seq<real>
    requires |us| == |o|
  {
    if us == [] then []
    else
      var k := |us| - 1;
      Reported(us[..k], o[..k]) + if o[k] then [us[k]] else []
  }

  ghost predicate AllPositive(us: seq<real>) {
    forall k :: 0 <= k < |us| ==> us[k] > 0.0
  }

  lemma {:induction false} ReportedIsPositive(s: Sampler, us: seq<real>, o: seq<bool>)
    requires s.Valid() && |us| == |o| && AllPositive(us)
    ensures AllPositive(Reported(us, o)) && Estimate(s, Reported(us, o)).Number?
  {
    if us != [] {
      var k := |us| - 1;
      ReportedIsPositive(s, us[..k], o[..k]);
    }
    EstimateIsNumber(s, Reported(us, o));
  }

  /** The estimator's value in outcome o. */
  ghost function Value(s: Sampler, us: seq<real>, o: seq<bool>): real
    requires s.Valid() && |us| == |o| && AllPositive(us)
  {
    ReportedIsPositive(s, us, o);
    Estimate(s, Reported(us, o)).value
  }

  ghost function TotalProbability(s: Sampler, us: seq<real>, outs: seq<seq<bool>>): real
    requires AllOfLength(outs, |us|)
  {
    if outs == [] then 0.0 else Probability(s, us, outs[0]) + TotalProbability(s, us, outs[1..])
  }

  ghost function Expectation(s: Sampler, us: seq<real>, outs: seq<seq<bool>>): real
    requires s.Valid() && AllOfLength(outs, |us|) && AllPositive(us)
  {
    if outs == [] then 0.0
    else Times(Probability(s, us, outs[0]), Value(s, us, outs[0])) + Expectation(s, us, outs[1..])
  }

  ghost function ExpectedCount(s: Sampler, us: seq<real>, outs: seq<seq<bool>>): real
    requires AllOfLength(outs, |us|)
  {
    if outs == [] then 0.0
    else Times(Probability(s, us, outs[0]), |Reported(us, outs[0])| as real) + ExpectedCount(s, us, outs[1..])
  }

  /** Probability times weight is the usage itself: this is what makes the estimator unbiased. */
  lemma WeightUndoesProbability(s: Sampler, u: real)
    requires s.Valid() && u > 0.0
    ensures Contribution(s, u).Number? && ProbOf(s, u) * Contribution(s, u).value == u
    ensures 0.0 < ProbOf(s, u) <= 1.0
  {
    ContributionIsQuotient(s, u);
    if s.approval != 0.0 {
      var q := s.numSamples / s.approval;
      assert q * s.approval == s.numSamples;
      assert q > 0.0;
      assert u * q > 0.0;
    }
  }

  lemma EstimateSnoc(s: Sampler, r: seq<real>, u: real)
    requires s.Valid()
    ensures Estimate(s, r + [u]) == Plus(Estimate(s, r), Contribution(s, u))
  {
    TakeAppend(r, [u]);
  }

  lemma OutcomeSnoc(s: Sampler, us: seq<real>, u: real, o: seq<bool>, b: bool)
    requires |us| == |o|
    ensures Probability(s, us + [u], o + [b]) ==
            Times(Probability(s, us, o), if b then ProbOf(s, u) else 1.0 - ProbOf(s, u))
    ensures Reported(us + [u], o + [b]) == if b then Reported(us, o) + [u] else Reported(us, o)
  {
    hide ProbOf, Times;
    TakeAppend(us, [u]);
    TakeAppend(o, [b]);
    assert Reported(us, o) + [] == Reported(us, o);
  }

  /** One more item splits every outcome in two. */
  lemma OutcomeSplits(s: Sampler, us: seq<real>, u: real, o: seq<bool>)
    requires s.Valid() && |us| == |o| && AllPositive(us) && u > 0.0
    ensures AllPositive(us + [u])
    ensures var p := ProbOf(s, u);
            && Probability(s, us + [u], o + [true]) == Times(Probability(s, us, o), p)
            && Probability(s, us + [u], o + [false]) == Times(Probability(s, us, o), 1.0 - p)
            && Value(s, us + [u], o + [true]) == Value(s, us, o) + Contribution(s, u).value
            && Value(s, us + [u], o + [false]) == Value(s, us, o)
            && |Reported(us + [u], o + [true])| == |Reported(us, o)| + 1
            && |Reported(us + [u], o + [false])| == |Reported(us, o)|
  {
    hide ProbOf, Contribution, Probability, Reported, Estimate, Times;
    OutcomeSnoc(s, us, u, o, true);
    OutcomeSnoc(s, us, u, o, false);
    WeightUndoesProbability(s, u);
    ReportedIsPositive(s, us, o);
    EstimateSnoc(s, Reported(us, o), u);
  }

  lemma SplitExpectation(p: real, q: real, v: real, c: real, u: real, e: real, e': real, t: real)
    requires q * c == u && e' == e + Times(u, t)
    ensures Times(Times(p, q), v + c) + (Times(Times(p, 1.0 - q), v) + e') == (Times(p, v) + e) + Times(u, p + t)
  {
    assert (p * q) * (v + c) == (p * q) * v + p * (q * c);
    assert (p * (1.0 - q)) * v == p * v - (p * q) * v;
    assert u * (p + t) == p * u + u * t;
  }

  lemma SplitProbability(p: real, q: real)
    ensures Times(p, q) + Times(p, 1.0 - q) == p
  {
  }

  lemma {:induction false} TotalsSplit(s: Sampler, us: seq<real>, u: real, outs: seq<seq<bool>>)
    requires s.Valid() && AllPositive(us) && u > 0.0 && AllOfLength(outs, |us|)
    ensures AllPositive(us + [u]) && AllOfLength(Extend(outs), |us + [u]|)
    ensures TotalProbability(s, us + [u], Extend(outs)) == TotalProbability(s, us, outs)
    ensures Expectation(s, us + [u], Extend(outs)) ==
            Expectation(s, us, outs) + Times(u, TotalProbability(s, us, outs))
    ensures ExpectedCount(s, us + [u], Extend(outs)) ==
            ExpectedCount(s, us, outs) + Times(ProbOf(s, u), TotalProbability(s, us, outs))
  {
    hide ProbOf, Contribution, Probability, Value, Reported, Times, TotalProbability, Expectation, ExpectedCount, Extend;
    ExtendLength(outs, |us|);
    if outs == [] {
      NoOutcomes(s, us);
      NoOutcomes(s, us + [u]);
      assert Times(u, 0.0) == 0.0 && Times(ProbOf(s, u), 0.0) == 0.0 by { TimesZero(u); TimesZero(ProbOf(s, u)); }
    } else {
      var o, rest := outs[0], outs[1..];
      TotalsSplit(s, us, u, rest);
      OutcomeSplits(s, us, u, o);
      WeightUndoesProbability(s, u);
      ExtendCons(outs);
      FirstThenRest(s, us, outs);
      TwoThenRest(s, us + [u], o + [true], o + [false], Extend(rest));
      var p, v, n := Probability(s, us, o), Value(s, us, o), |Reported(us, o)| as real;
      var q, t := ProbOf(s, u), TotalProbability(s, us, rest);
      SplitExpectation(p, q, v, Contribution(s, u).value, u,
                       Expectation(s, us, rest), Expectation(s, us + [u], Extend(rest)), t);
      SplitExpectation(p, q, n, 1.0, q,
                       ExpectedCount(s, us, rest), ExpectedCount(s, us + [u], Extend(rest)), t);
      SplitProbability(p, q);
    }
  }

  lemma TimesZero(x: real)
    ensures Times(x, 0.0) == 0.0
  {
  }

  lemma ExtendCons(outs: seq<seq<bool>>)
    requires outs != []
    ensures Extend(outs) == [outs[0] + [true], outs[0] + [false]] + Extend(outs[1..])
  {
  }

  lemma NoOutcomes(s: Sampler, us: seq<real>)
    requires s.Valid() && AllPositive(us)
    ensures Extend([]) == []
    ensures TotalProbability(s, us, []) == 0.0
    ensures Expectation(s, us, []) == 0.0 && ExpectedCount(s, us, []) == 0.0
  {
  }

  lemma FirstThenRest(s: Sampler, us: seq<real>, outs: seq<seq<bool>>)
    requires s.Valid() && AllPositive(us) && outs != [] && AllOfLength(outs, |us|)
    ensures TotalProbability(s, us, outs) == Probability(s, us, outs[0]) + TotalProbability(s, us, outs[1..])
    ensures Expectation(s, us, outs) ==
            Times(Probability(s, us, outs[0]), Value(s, us, outs[0])) + Expectation(s, us, outs[1..])
    ensures ExpectedCount(s, us, outs) ==
            Times(Probability(s, us, outs[0]), |Reported(us, outs[0])| as real) + ExpectedCount(s, us, outs[1..])
  {
    hide Probability, Value, Reported, Times;
  }

  lemma TwoThenRest(s: Sampler, us: seq<real>, a: seq<bool>, b: seq<bool>, rest: seq<seq<bool>>)
    requires s.Valid() && AllPositive(us) && |a| == |b| == |us| && AllOfLength(rest, |us|)
    ensures AllOfLength([a, b] + rest, |us|)
    ensures TotalProbability(s, us, [a, b] + rest) ==
            Probability(s, us, a) + (Probability(s, us, b) + TotalProbability(s, us, rest))
    ensures Expectation(s, us, [a, b] + rest) ==
            Times(Probability(s, us, a), Value(s, us, a))
            + (Times(Probability(s, us, b), Value(s, us, b)) + Expectation(s, us, rest))
    ensures ExpectedCount(s, us, [a, b] + rest) ==
            Times(Probability(s, us, a), |Reported(us, a)| as real)
            + (Times(Probability(s, us, b), |Reported(us, b)| as real) + ExpectedCount(s, us, rest))
  {
    hide Probability, Value, Reported, Times;
    var all := [a, b] + rest;
    assert all[1..] == [b] + rest;
    assert all[1..][1..] == rest;
  }

  /** The probabilities of all outcomes add up to one. */
  lemma {:induction false} ProbabilitiesSumToOne(s: Sampler, us: seq<real>)
    requires s.Valid() && AllPositive(us)
    ensures AllOfLength(Outcomes(|us|), |us|)
    ensures TotalProbability(s, us, Outcomes(|us|)) == 1.0
  {
    hide ProbOf, Contribution;
    OutcomesCount(|us|);
    if us != [] {
      var x, u := us[..|us| - 1], us[|us| - 1];
      ProbabilitiesSumToOne(s, x);
      TotalsSplit(s, x, u, Outcomes(|x|));
      SplitLast(us);
    } else {
      assert Outcomes(0)[1..] == [];
    }
  }

  /** The estimator is unbiased: its expectation over all outcomes is the true total usage. */
  lemma {:induction false} EstimatorIsUnbiased(s: Sampler, us: seq<real>)
    requires s.Valid() && AllPositive(us)
    ensures AllOfLength(Outcomes(|us|), |us|)
    ensures Expectation(s, us, Outcomes(|us|)) == Sum(us)
  {
    hide ProbOf, Contribution;
    OutcomesCount(|us|);
    if us != [] {
      var x, u := us[..|us| - 1], us[|us| - 1];
      EstimatorIsUnbiased(s, x);
      ProbabilitiesSumToOne(s, x);
      TotalsSplit(s, x, u, Outcomes(|x|));
      SplitLast(us);
    } else {
      assert Outcomes(0)[1..] == [];
      assert Reported([], []) == [];
    }
  }

  lemma DistributeRate(a: real, b: real, q: real)
    ensures (a + b) * q == a * q + b * q
  {
  }

  /** The expected number of reports is at most numSamples * total / approval. */
  lemma {:induction false} ExpectedCountIsBounded(s: Sampler, us: seq<real>)
    requires s.Valid() && s.approval > 0.0 && AllPositive(us)
    ensures AllOfLength(Outcomes(|us|), |us|)
    ensures ExpectedCount(s, us, Outcomes(|us|)) <= Sum(us) * (s.numSamples / s.approval)
  {
    hide Contribution, Expectation, TotalProbability, ExpectedCount, Sum;
    OutcomesCount(|us|);
    if us != [] {
      var x, u := us[..|us| - 1], us[|us| - 1];
      ExpectedCountIsBounded(s, x);
      ProbabilitiesSumToOne(s, x);
      TotalsSplit(s, x, u, Outcomes(|x|));
      SplitLast(us);
      DistributeRate(Sum(x), u, s.numSamples / s.approval);
      SumSnoc(x, u);
    } else {
      NoItemsNoReports(s);
    }
  }

  lemma SumSnoc(x: seq<real>, u: real)
    ensures Sum(x + [u]) == Sum(x) + u
  {
    TakeAppend(x, [u]);
  }

  lemma NoItemsNoReports(s: Sampler)
    ensures AllOfLength(Outcomes(0), 0)
    ensures ExpectedCount(s, [], Outcomes(0)) == 0.0 && Sum([]) == 0.0
  {
    assert Outcomes(0) == [[]] && Outcomes(0)[1..] == [];
    assert Reported([], []) == [];
  }
}
