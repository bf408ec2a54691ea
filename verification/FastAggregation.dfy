/** Aggregate and the merge loop of CollectSnapshot, over the buffers that the shard tasks read. */
module FastAggregation {
  import opened Sequences
  import opened Reals
  import opened Sampling
  import opened ShardProtocol
  import opened Snapshots

  const NUM_INFO_SHARDS := 8

  ghost predicate Separate(est: seq<PrioEstimators>) {
    && (forall i, j :: 0 <= i < |est| && 0 <= j < |est| ==> est[i].hipri != est[j].lopri)
    && (forall i, j :: 0 <= i < j < |est| ==> est[i].hipri != est[j].hipri && est[i].lopri != est[j].lopri)
  }

  /** The estimators of one aggregate hold what these infos amount to, priority by priority. */
  ghost predicate Estimates(e: PrioEstimators, s: Sampler, infos: seq<Info>, a: nat, sel: Selector)
    reads e.hipri, e.lopri
  {
    && s.Valid() && e.hipri.sampler == e.lopri.sampler == s
    && e.hipri.est == Estimate(s, Volumes(infos, a, sel, false))
    && e.lopri.est == Estimate(s, Volumes(infos, a, sel, true))
  }

  /** One shard's part of the result: its infos grouped by aggregate, each with every generation. */
  ghost predicate IsPart(agg: seq<FastAggInfo>, shard: Buffer) {
    forall i :: 0 <= i < |agg| ==>
      agg[i].aggId == i && agg[i].children == Children(shard.infos, i) && agg[i].infoGen == shard.gens
  }

  /** A conversion from double to integer; what 0/0 becomes is not defined. */
  method ToInteger(x: Double) returns (n: int)
    ensures x.Number? ==> n == Truncate(x.value)
  {
    if x.Number? {
      n := Truncate(x.value);
    } else {
      n := *;
    }
  }

  lemma RecordedSnoc(e: PrioEstimators, s: Sampler, infos: seq<Info>, x: Info, a: nat, sel: Selector)
    requires s.Valid()
    ensures var hi, lo := Volumes(infos, a, sel, false), Volumes(infos, a, sel, true);
            var w := Contribution(s, x.volumeBps as real);
            && Estimate(s, Volumes(infos + [x], a, sel, false)) ==
               (if x.aggId == a && !sel(a, x.childId) then Plus(Estimate(s, hi), w) else Estimate(s, hi))
            && Estimate(s, Volumes(infos + [x], a, sel, true)) ==
               (if x.aggId == a && sel(a, x.childId) then Plus(Estimate(s, lo), w) else Estimate(s, lo))
  {
    hide Contribution, Estimate, Volumes;
    VolumesSnoc(infos, x, a, sel, false);
    VolumesSnoc(infos, x, a, sel, true);
    EstimateSnoc(s, Volumes(infos, a, sel, false), x.volumeBps as real);
    EstimateSnoc(s, Volumes(infos, a, sel, true), x.volumeBps as real);
  }

  class FastAggregator {
    const samplers: seq<Sampler>
    const flows: seq<string>

    constructor (flows: seq<string>, samplers: seq<Sampler>)
      requires |samplers| == |flows| && forall i :: 0 <= i < |samplers| ==> samplers[i].Valid()
      ensures Valid() && this.samplers == samplers && this.flows == flows
    {
      this.samplers, this.flows := samplers, flows;
    }

    ghost predicate Valid() {
      |samplers| == |flows| && forall i :: 0 <= i < |samplers| ==> samplers[i].Valid()
    }

    ghost predicate Known(infos: seq<Info>) {
      forall k :: 0 <= k < |infos| ==> infos[k].aggId < |samplers|
    }

    method Template(ghost sel: Selector) returns (agg: seq<FastAggInfo>, est: seq<PrioEstimators>)
      requires Valid()
      ensures |agg| == |est| == |samplers| && IsPart(agg, EMPTY)
      ensures Separate(est) && forall i :: 0 <= i < |est| ==>
        fresh(est[i].hipri) && fresh(est[i].lopri) && Estimates(est[i], samplers[i], [], i, sel)
    {
      agg, est := [], [];
      for i := 0 to |samplers|
        invariant |agg| == |est| == i && IsPart(agg, EMPTY) && Separate(est)
        invariant forall j :: 0 <= j < i ==>
          fresh(est[j].hipri) && fresh(est[j].lopri) && Estimates(est[j], samplers[j], [], j, sel)
      {
        var hipri := new AggUsageEstimator(samplers[i]);
        var lopri := new AggUsageEstimator(samplers[i]);
        agg := agg + [FastAggInfo(i, NO_PARENT, [], [])];
        est := est + [PrioEstimators(hipri, lopri)];
      }
    }

    method Record(agg: seq<FastAggInfo>, est: seq<PrioEstimators>, info: Info, sel: Selector, ghost infos: seq<Info>)
      returns (agg': seq<FastAggInfo>)
      requires Valid() && |agg| == |est| == |samplers| && info.aggId < |samplers|
      requires IsPart(agg, Buffer([], infos)) && Separate(est)
      requires forall i :: 0 <= i < |est| ==> Estimates(est[i], samplers[i], infos, i, sel)
      modifies est[info.aggId].hipri, est[info.aggId].lopri
      ensures |agg'| == |agg| && IsPart(agg', Buffer([], infos + [info]))
      ensures forall i :: 0 <= i < |est| ==> Estimates(est[i], samplers[i], infos + [info], i, sel)
    {
      hide Contribution, Estimate, Volumes, Children, Plus;
      var a := info.aggId;
      agg' := agg[a := agg[a].(children := agg[a].children + [AsChild(info)])];
      if sel(a, info.childId) {
        est[a].lopri.RecordSample(info.volumeBps as real);
      } else {
        est[a].hipri.RecordSample(info.volumeBps as real);
      }
      forall i | 0 <= i < |est|
        ensures Estimates(est[i], samplers[i], infos + [info], i, sel)
        ensures agg'[i].aggId == i && agg'[i].children == Children(infos + [info], i)
      {
        RecordedSnoc(est[i], samplers[i], infos, info, i, sel);
        ChildrenSnoc(infos, info, i);
      }
    }

    method Aggregate(shard: Buffer, sel: Selector) returns (agg: seq<FastAggInfo>, est: seq<PrioEstimators>)
      requires Valid() && Known(shard.infos)
      ensures |agg| == |est| == |samplers| && IsPart(agg, shard)
      ensures forall i :: 0 <= i < |agg| ==> AreInfos(agg[i].children, shard.infos, i)
      ensures forall i :: 0 <= i < |est| ==>
        fresh(est[i].hipri) && fresh(est[i].lopri) && Estimates(est[i], samplers[i], shard.infos, i, sel)
    {
      hide Contribution, Estimate, Volumes, Children, AreInfos;
      agg, est := Template(sel);
      for k := 0 to |shard.infos|
        invariant |agg| == |est| == |samplers| && IsPart(agg, Buffer([], shard.infos[..k])) && Separate(est)
        invariant forall i :: 0 <= i < |est| ==>
          fresh(est[i].hipri) && fresh(est[i].lopri) && Estimates(est[i], samplers[i], shard.infos[..k], i, sel)
      {
        TakeSnoc(shard.infos, k);
        agg := Record(agg, est, shard.infos[k], sel, shard.infos[..k]);
      }
      assert shard.infos[..|shard.infos|] == shard.infos;
      agg := AddGens(agg, shard);
      forall i | 0 <= i < |agg| ensures AreInfos(agg[i].children, shard.infos, i) {
        var _ := ChildrenAreInfos(shard.infos, i);
      }
    }

    method AddGens(agg: seq<FastAggInfo>, shard: Buffer) returns (agg': seq<FastAggInfo>)
      requires IsPart(agg, Buffer([], shard.infos))
      ensures |agg'| == |agg| && IsPart(agg', shard)
    {
      hide Children;
      agg' := agg;
      for g := 0 to |shard.gens|
        invariant |agg'| == |agg| && IsPart(agg', Buffer(shard.gens[..g], shard.infos))
      {
        TakeSnoc(shard.gens, g);
        for i := 0 to |agg'|
          invariant |agg'| == |agg|
          invariant forall j :: 0 <= j < |agg'| ==>
            && agg'[j].aggId == j && agg'[j].children == Children(shard.infos, j)
            && agg'[j].infoGen == if j < i then shard.gens[..g + 1] else shard.gens[..g]
        {
          agg' := agg'[i := agg'[i].(infoGen := agg'[i].infoGen + [shard.gens[g]])];
        }
      }
      assert shard.gens[..|shard.gens|] == shard.gens;
    }

    /** The estimates of one aggregate added up over the shards, one truncation for each. */
    method SumParts(a: nat, ests: seq<seq<PrioEstimators>>, ghost shards: seq<Buffer>, ghost sel: Selector)
      returns (sum: int, hipri: int, lopri: int)
      requires Valid() && a < |samplers| && |ests| == |shards|
      requires forall p :: 0 <= p < |ests| ==> |ests[p]| == |samplers|
      requires forall p :: 0 <= p < |ests| ==> Estimates(ests[p][a], samplers[a], shards[p].infos, a, sel)
      ensures sum == hipri + lopri
      ensures Convertible(samplers[a], shards, a, sel) ==>
                && hipri == PartSum(samplers[a], shards, a, sel, false)
                && lopri == PartSum(samplers[a], shards, a, sel, true)
    {
      hide Contribution, Estimate, Volumes;
      sum, hipri, lopri := 0, 0, 0;
      assert shards[..0] == [];
      ghost var numbers := Convertible(samplers[a], shards, a, sel);
      for p := 0 to |ests|
        invariant sum == hipri + lopri
        invariant numbers ==> hipri == PartSum(samplers[a], shards[..p], a, sel, false)
        invariant numbers ==> lopri == PartSum(samplers[a], shards[..p], a, sel, true)
      {
        PartSumSnoc(samplers[a], shards, p, a, sel, false);
        PartSumSnoc(samplers[a], shards, p, a, sel, true);
        var hipriPart := ToInteger(ests[p][a].hipri.est);
        var lopriPart := ToInteger(ests[p][a].lopri.est);
        hipri := hipri + hipriPart;
        lopri := lopri + lopriPart;
        sum := sum + hipriPart + lopriPart;
      }
      assert shards[..|shards|] == shards;
    }

    method MergeChildren(a: nat, parts: seq<seq<FastAggInfo>>, ghost shards: seq<Buffer>) returns (children: seq<Child>)
      requires |parts| == |shards| == NUM_INFO_SHARDS && forall p :: 0 <= p < |parts| ==> a < |parts[p]|
      requires forall p :: 0 <= p < |parts| ==> IsPart(parts[p], shards[p])
      ensures children == Children(AllInfos(shards), a) && AreInfos(children, AllInfos(shards), a)
    {
      hide Children, AreInfos;
      children := parts[0][a].children;
      AllInfosOne(shards);
      for p := 1 to |parts|
        invariant children == Children(AllInfos(shards[..p]), a)
      {
        AllInfosSnoc(shards, p);
        ChildrenAppend(AllInfos(shards[..p]), shards[p].infos, a);
        children := children + parts[p][a].children;
      }
      assert shards[..|shards|] == shards;
      var _ := ChildrenAreInfos(AllInfos(shards), a);
    }

    /** The part of the merge for one aggregate that does not depend on estimates. */
    ghost predicate IsMerged(r: FastAggInfo, a: nat, shards: seq<Buffer>)
      requires Valid() && a < |samplers|
    {
      && r.aggId == a
      && r.children == Children(AllInfos(shards), a) && AreInfos(r.children, AllInfos(shards), a)
      && r.parent.flow == flows[a]
      && r.parent.usageBps == r.parent.demandBps == r.parent.hipriBps + r.parent.lopriBps
      && (shards != [] ==> r.infoGen == shards[0].gens)
    }

    /** The result of the merge for one aggregate. */
    ghost predicate IsCombined(r: FastAggInfo, a: nat, shards: seq<Buffer>, sel: Selector)
      requires Valid() && a < |samplers|
    {
      && IsMerged(r, a, shards)
      && r.parent.hipriBps == PartSum(samplers[a], shards, a, sel, false)
      && r.parent.lopriBps == PartSum(samplers[a], shards, a, sel, true)
    }

    /** Children, flow and total are right in any case, the estimates unless one of them is 0/0. */
    ghost predicate IsResult(r: FastAggInfo, a: nat, shards: seq<Buffer>, sel: Selector)
      requires Valid() && a < |samplers|
    {
      IsMerged(r, a, shards) && (Convertible(samplers[a], shards, a, sel) ==> IsCombined(r, a, shards, sel))
    }

    method CollectSnapshot(shards: seq<Buffer>, sel: Selector) returns (combined: seq<FastAggInfo>)
      requires Valid() && |shards| == NUM_INFO_SHARDS
      requires forall p :: 0 <= p < |shards| ==> Known(shards[p].infos)
      ensures |combined| == |samplers|
      ensures forall a :: 0 <= a < |combined| ==> IsResult(combined[a], a, shards, sel)
    {
      hide Contribution, Estimate, Volumes, Children, PartSum, AllInfos, Convertible, AreInfos;
      var parts: seq<seq<FastAggInfo>>, ests: seq<seq<PrioEstimators>> := [], [];
      for p := 0 to NUM_INFO_SHARDS
        invariant |parts| == |ests| == p
        invariant forall q :: 0 <= q < p ==> |parts[q]| == |ests[q]| == |samplers| && IsPart(parts[q], shards[q])
        invariant forall q, i :: 0 <= q < p && 0 <= i < |samplers| ==>
          Estimates(ests[q][i], samplers[i], shards[q].infos, i, sel)
      {
        var part, est := Aggregate(shards[p], sel);
        parts, ests := parts + [part], ests + [est];
      }
      combined := parts[0];
      for i := 0 to |combined|
        invariant |combined| == |samplers|
        invariant forall a :: i <= a < |combined| ==> combined[a].aggId == a && combined[a].infoGen == shards[0].gens
        invariant forall a :: 0 <= a < i ==> IsResult(combined[a], a, shards, sel)
        invariant forall q, j :: 0 <= q < NUM_INFO_SHARDS && 0 <= j < |samplers| ==>
          Estimates(ests[q][j], samplers[j], shards[q].infos, j, sel)
      {
        var children := MergeChildren(i, parts, shards);
        var sum, hipri, lopri := SumParts(i, ests, shards, sel);
        combined := combined[i := combined[i].(children := children, parent := Parent(flows[i], sum, hipri, lopri, sum))];
      }
    }

    /** The merge takes the generations of the first shard: they are all there are if and only if no other has any. */
    lemma GensAreAllIff(r: FastAggInfo, a: nat, shards: seq<Buffer>)
      requires Valid() && a < |samplers| && |shards| == NUM_INFO_SHARDS && IsMerged(r, a, shards)
      ensures r.infoGen == AllGens(shards) <==> forall p :: 0 < p < |shards| ==> shards[p].gens == []
      ensures r.infoGen <= AllGens(shards)
    {
      hide Children, AllInfos, AreInfos;
      AllGensFrom(shards, |shards|);
      assert shards[..|shards|] == shards;
    }

    /** The parent's usage is within 16 of what its children amount to, and exact without an approval. */
    lemma UsageOfChildren(r: FastAggInfo, a: nat, shards: seq<Buffer>, sel: Selector)
      requires Valid() && a < |samplers| && |shards| == NUM_INFO_SHARDS
      requires IsCombined(r, a, shards, sel)
      ensures AllPositiveVolumes(shards, a) ==>
                r.parent.usageBps as real <= FlooredSum(samplers[a], r.children) < r.parent.usageBps as real + 16.0
      ensures samplers[a].approval == 0.0 ==> r.parent.usageBps == VolumeSum(r.children)
    {
      hide Weigh, FlooredSum, PartSum, Children, AllInfos, VolumeSum;
      if AllPositiveVolumes(shards, a) {
        MergeBounds(samplers[a], shards, a, sel);
        AllInfosArePositive(shards, a);
        ChildrenArePositive(AllInfos(shards), a);
        WeighIsFlooredSum(samplers[a], r.children);
      }
      if samplers[a].approval == 0.0 {
        MergeIsExact(samplers[a], shards, a, sel);
      }
    }
  }

  /** All generations of the shards, shard after shard. */
  ghost function AllGens(shards: seq<Buffer>): seq<HostGen> {
    if shards == [] then [] else AllGens(shards[..|shards| - 1]) + shards[|shards| - 1].gens
  }

  lemma {:induction false} AllGensFrom(shards: seq<Buffer>, n: nat)
    requires 0 < n <= |shards|
    ensures shards[0].gens <= AllGens(shards[..n])
    ensures AllGens(shards[..n]) == shards[0].gens <==> forall p :: 0 < p < n ==> shards[p].gens == []
  {
    var s := shards[..n];
    assert s[..n - 1] == shards[..n - 1] && s[n - 1] == shards[n - 1];
    if n > 1 {
      AllGensFrom(shards, n - 1);
    } else {
      assert s[..0] == [];
      assert AllGens(s) == [] + s[0].gens;
    }
  }

  /** A host whose id is not a multiple of eight is not recorded as heard. */
  lemma SecondShardIsDropped(agg: FastAggregator, r: FastAggInfo, g: HostGen)
    requires agg.Valid() && |agg.samplers| > 0
    requires agg.IsMerged(r, 0, [EMPTY, Buffer([g], []), EMPTY, EMPTY, EMPTY, EMPTY, EMPTY, EMPTY])
    ensures g !in r.infoGen
  {
    hide Children, AllInfos, AreInfos;
  }

  lemma PartSumSnoc(s: Sampler, shards: seq<Buffer>, p: nat, a: nat, sel: Selector, lo: bool)
    requires s.Valid() && p < |shards|
    ensures PartSum(s, shards[..p + 1], a, sel, lo) == PartSum(s, shards[..p], a, sel, lo) + Part(s, shards[p].infos, a, sel, lo)
  {
    hide Part;
    TakeSnoc(shards, p);
    TakeAppend(shards[..p], [shards[p]]);
  }

  lemma AllInfosSnoc(shards: seq<Buffer>, p: nat)
    requires p < |shards|
    ensures AllInfos(shards[..p + 1]) == AllInfos(shards[..p]) + shards[p].infos
  {
    TakeSnoc(shards, p);
    TakeAppend(shards[..p], [shards[p]]);
  }

  lemma AllInfosOne(shards: seq<Buffer>)
    requires shards != []
    ensures AllInfos(shards[..1]) == shards[0].infos
  {
    AllInfosSnoc(shards, 0);
    assert shards[..0] == [];
  }
}
