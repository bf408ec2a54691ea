/** The controller fed with a snapshot of the aggregator: the two together never exit. */
module ControlLoop {
  import opened Sampling
  import opened ShardProtocol
  import opened Snapshots
  import opened FastAggregation
  import FracControl

  lemma {:induction false} PartSumIsNotNegative(s: Sampler, shards: seq<Buffer>, a: nat, sel: Selector, lo: bool)
    requires s.Valid() && AllPositiveVolumes(shards, a)
    ensures PartSum(s, shards, a, sel, lo) >= 0
  {
    if shards != [] {
      hide Estimate, Volumes, PrioWeight;
      var k := |shards| - 1;
      PartSumIsNotNegative(s, shards[..k], a, sel, lo);
      EstimateIsPrioWeight(s, shards[k].infos, a, sel, lo);
    }
  }

  /** From any snapshot of positive volumes the next fraction is a fraction. */
  lemma SnapshotNeverExits(
    agg: FastAggregator, r: FastAggInfo, a: nat, shards: seq<Buffer>, sel: Selector,
    c: FracControl.Config, frac: real, approval: int, maxTask: real)
    requires agg.Valid() && a < |agg.samplers| && agg.IsCombined(r, a, shards, sel)
    requires AllPositiveVolumes(shards, a) && c.Valid() && approval >= 0
    requires r.parent.usageBps > 0 || r.parent.usageBps < approval
    ensures var o := FracControl.NextFrac(c, frac, r.parent.usageBps, r.parent.hipriBps, r.parent.lopriBps, approval, maxTask);
            o.Inc? && 0.0 <= o.x <= 1.0
  {
    hide PartSum, FracControl.NextFrac;
    PartSumIsNotNegative(agg.samplers[a], shards, a, sel, false);
    PartSumIsNotNegative(agg.samplers[a], shards, a, sel, true);
    FracControl.NeverExits(c, frac, r.parent.usageBps, r.parent.hipriBps, r.parent.lopriBps, approval, maxTask);
  }
}
