/**
 The snapshot of the fast aggregator: each shard's infos are grouped by aggregate and priority,
 and the eight parts are merged. EstUsage is a double that the merge truncates to an integer.
 */
module Snapshots {
  import opened Sequences
  import opened Reals
  import opened Sampling
  import opened ShardProtocol

  datatype Child = Child(childId: nat, volumeBps: int, currentlyLopri: bool)

  datatype Parent = Parent(flow: string, usageBps: int, hipriBps: int, lopriBps: int, demandBps: int)

  datatype FastAggInfo = FastAggInfo(aggId: int, parent: Parent, children: seq<Child>, infoGen: seq<HostGen>)

  datatype PrioEstimators = PrioEstimators(hipri: AggUsageEstimator, lopri: AggUsageEstimator)

  const NO_PARENT := Parent("", 0, 0, 0, 0)

  /** Says which children of which aggregate the downgrade selectors hold at LOPRI. */
  type Selector = (nat, nat) -> bool

  // ---- Specification ----

  function AsChild(info: Info): Child {
    Child(info.childId, info.volumeBps, info.currentlyLopri)
  }

  /** The infos of aggregate a, in order. */
  function Children(infos: seq<Info>, a: nat): seq<Child> {
    if infos == [] then []
    else
      var k := |infos| - 1;
      Children(infos[..k], a) + if infos[k].aggId == a then [AsChild(infos[k])] else []
  }

  /** The volumes of the infos of aggregate a at one priority, in order. */
  function Volumes(infos: seq<Info>, a: nat, sel: Selector, lo: bool): seq<real> {
    if infos == [] then []
    else
      var k := |infos| - 1;
      Volumes(infos[..k], a, sel, lo) +
      if infos[k].aggId == a && sel(a, infos[k].childId) == lo then [infos[k].volumeBps as real] else []
  }

  lemma ChildrenSnoc(infos: seq<Info>, x: Info, a: nat)
    ensures Children(infos + [x], a) == if x.aggId == a then Children(infos, a) + [AsChild(x)] else Children(infos, a)
  {
    TakeAppend(infos, [x]);
    assert Children(infos, a) + [] == Children(infos, a);
  }

  lemma VolumesSnoc(infos: seq<Info>, x: Info, a: nat, sel: Selector, lo: bool)
    ensures Volumes(infos + [x], a, sel, lo) ==
            if x.aggId == a && sel(a, x.childId) == lo then Volumes(infos, a, sel, lo) + [x.volumeBps as real]
            else Volumes(infos, a, sel, lo)
  {
    TakeAppend(infos, [x]);
    assert Volumes(infos, a, sel, lo) + [] == Volumes(infos, a, sel, lo);
  }

  lemma {:induction false} ChildrenAppend(x: seq<Info>, y: seq<Info>, a: nat)
    ensures Children(x + y, a) == Children(x, a) + Children(y, a)
  {
    if y == [] {
      assert x + y == x;
    } else {
      var k := |y| - 1;
      ChildrenAppend(x, y[..k], a);
      Regroup(x, y[..k], [y[k]]);
      SplitLast(y);
      ChildrenSnoc(x + y[..k], y[k], a);
      ChildrenSnoc(y[..k], y[k], a);
    }
  }

  /** The children are the infos of a, found at these places, in order and field by field. */
  ghost predicate AreInfosAt(children: seq<Child>, infos: seq<Info>, a: nat, places: seq<nat>) {
    && |places| == |children|
    && (forall k :: 0 <= k < |places| ==> places[k] < |infos| && IsInfo(children[k], infos[places[k]]))
    && (forall j, k :: 0 <= j < k < |places| ==> places[j] < places[k])
    && (forall j :: 0 <= j < |infos| ==> (infos[j].aggId == a <==> j in places))
  }

  ghost predicate IsInfo(c: Child, info: Info) {
    c.childId == info.childId && c.volumeBps == info.volumeBps && c.currentlyLopri == info.currentlyLopri
  }

  ghost predicate AreInfos(children: seq<Child>, infos: seq<Info>, a: nat) {
    exists places :: AreInfosAt(children, infos, a, places)
  }

  lemma AreInfosSnoc(children: seq<Child>, infos: seq<Info>, x: Info, a: nat, c: Child, places: seq<nat>)
    requires AreInfosAt(children, infos, a, places) && IsInfo(c, x)
    ensures x.aggId == a ==> AreInfosAt(children + [c], infos + [x], a, places + [|infos|])
    ensures x.aggId != a ==> AreInfosAt(children, infos + [x], a, places)
  {
    hide IsInfo;
    var infos', places' := infos + [x], places + [|infos|];
    forall j | 0 <= j < |infos'|
      ensures x.aggId == a ==> (infos'[j].aggId == a <==> j in places')
      ensures x.aggId != a ==> (infos'[j].aggId == a <==> j in places)
    {
      assert j < |infos| ==> infos'[j] == infos[j];
      assert j in places' <==> j in places || j == |infos|;
      assert |infos| !in places;
    }
    forall k | 0 <= k < |places| ensures infos'[places[k]] == infos[places[k]] {
    }
  }

  lemma {:induction false} ChildrenAreInfos(infos: seq<Info>, a: nat) returns (places: seq<nat>)
    ensures AreInfosAt(Children(infos, a), infos, a, places) && AreInfos(Children(infos, a), infos, a)
  {
    if infos == [] {
      places := [];
      assert AreInfosAt(Children(infos, a), infos, a, places);
    } else {
      var k := |infos| - 1;
      var before := ChildrenAreInfos(infos[..k], a);
      hide AreInfosAt, Children;
      SplitLast(infos);
      ChildrenSnoc(infos[..k], infos[k], a);
      AreInfosSnoc(Children(infos[..k], a), infos[..k], infos[k], a, AsChild(infos[k]), before);
      places := if infos[k].aggId == a then before + [k] else before;
    }
  }

  /** All infos of the shards, shard after shard. */
  function AllInfos(shards: seq<Buffer>): seq<Info> {
    if shards == [] then [] else AllInfos(shards[..|shards| - 1]) + shards[|shards| - 1].infos
  }

  /** A conversion from double to integer drops the fraction. */
  function Truncate(x: real): (n: int)
    ensures x >= 0.0 ==> 0.0 <= n as real <= x < n as real + 1.0
    ensures x <= 0.0 ==> 0.0 >= n as real >= x > n as real - 1.0
  {
    if x >= 0.0 then x.Floor else -((-x).Floor)
  }

  /** What the inverse-probability estimates of these children add up to. */
  ghost function Weigh(s: Sampler, children: seq<Child>): real
    requires s.Valid()
  {
    if children == [] then 0.0
    else
      var k := |children| - 1;
      Weigh(s, children[..k]) + Weight(s, children[k].volumeBps)
  }

  ghost function Weight(s: Sampler, volume: int): real
    requires s.Valid()
  {
    match Contribution(s, volume as real)
    case Number(w) => w
    case NaN => 0.0
  }

  ghost function VolumeSum(children: seq<Child>): int {
    if children == [] then 0 else VolumeSum(children[..|children| - 1]) + children[|children| - 1].volumeBps
  }

  /** The estimates of a positive volume: itself, or the floor approval / numSamples. */
  lemma WeightOfPositive(s: Sampler, volume: int)
    requires s.Valid() && volume > 0
    ensures var floor := s.approval / s.numSamples;
            Weight(s, volume) == if (volume as real) < floor then floor else volume as real
  {
    PositiveContribution(s, volume as real);
  }

  /** Each child counts with its volume, but not below the floor approval / numSamples. */
  ghost function FlooredSum(s: Sampler, children: seq<Child>): real
    requires s.Valid()
  {
    if children == [] then 0.0
    else
      var k := |children| - 1;
      var floor, volume := s.approval / s.numSamples, children[k].volumeBps as real;
      FlooredSum(s, children[..k]) + if volume < floor then floor else volume
  }

  lemma {:induction false} WeighIsFlooredSum(s: Sampler, children: seq<Child>)
    requires s.Valid() && forall k :: 0 <= k < |children| ==> children[k].volumeBps > 0
    ensures Weigh(s, children) == FlooredSum(s, children)
  {
    if children != [] {
      var k := |children| - 1;
      WeighIsFlooredSum(s, children[..k]);
      hide Weight;
      WeightOfPositive(s, children[k].volumeBps);
    }
  }

  lemma {:induction false} ChildrenArePositive(infos: seq<Info>, a: nat)
    requires PositiveVolumes(infos, a)
    ensures forall k :: 0 <= k < |Children(infos, a)| ==> Children(infos, a)[k].volumeBps > 0
  {
    if infos != [] {
      ChildrenArePositive(infos[..|infos| - 1], a);
    }
  }

  lemma {:induction false} AllInfosArePositive(shards: seq<Buffer>, a: nat)
    requires AllPositiveVolumes(shards, a)
    ensures PositiveVolumes(AllInfos(shards), a)
  {
    if shards != [] {
      AllInfosArePositive(shards[..|shards| - 1], a);
    }
  }

  ghost predicate PositiveVolumes(infos: seq<Info>, a: nat) {
    forall k :: 0 <= k < |infos| && infos[k].aggId == a ==> infos[k].volumeBps > 0
  }

  /** What one priority of one shard is worth. */
  ghost function PrioWeight(s: Sampler, infos: seq<Info>, a: nat, sel: Selector, lo: bool): real
    requires s.Valid()
  {
    if infos == [] then 0.0
    else
      var k := |infos| - 1;
      PrioWeight(s, infos[..k], a, sel, lo) +
      if infos[k].aggId == a && sel(a, infos[k].childId) == lo then Weight(s, infos[k].volumeBps) else 0.0
  }

  lemma WeightIsContribution(s: Sampler, v: int)
    requires s.Valid() && (s.approval == 0.0 || v > 0)
    ensures Contribution(s, v as real) == Number(Weight(s, v))
    ensures v > 0 ==> Weight(s, v) >= 0.0
  {
    if v > 0 {
      PositiveContribution(s, v as real);
    }
  }

  lemma PrioWeightSnoc(s: Sampler, infos: seq<Info>, x: Info, a: nat, sel: Selector, lo: bool)
    requires s.Valid()
    ensures PrioWeight(s, infos + [x], a, sel, lo) == PrioWeight(s, infos, a, sel, lo) +
            if x.aggId == a && sel(a, x.childId) == lo then Weight(s, x.volumeBps) else 0.0
  {
    hide Weight;
    TakeAppend(infos, [x]);
  }

  ghost predicate Weighable(s: Sampler, infos: seq<Info>, a: nat) {
    s.approval == 0.0 || PositiveVolumes(infos, a)
  }

  lemma NothingReported(s: Sampler, a: nat, sel: Selector, lo: bool)
    requires s.Valid()
    ensures Estimate(s, Volumes([], a, sel, lo)) == Number(0.0) && PrioWeight(s, [], a, sel, lo) == 0.0
  {
  }

  lemma {:induction false} EstimateIsPrioWeight(s: Sampler, infos: seq<Info>, a: nat, sel: Selector, lo: bool)
    requires s.Valid() && Weighable(s, infos, a)
    ensures Estimate(s, Volumes(infos, a, sel, lo)) == Number(PrioWeight(s, infos, a, sel, lo))
    ensures PositiveVolumes(infos, a) ==> PrioWeight(s, infos, a, sel, lo) >= 0.0
  {
    hide Contribution, Weight, Volumes, PrioWeight, Estimate;
    if infos == [] {
      NothingReported(s, a, sel, lo);
    } else {
      var k := |infos| - 1;
      var x := infos[k];
      EstimateIsPrioWeight(s, infos[..k], a, sel, lo);
      SplitLast(infos);
      VolumesSnoc(infos[..k], x, a, sel, lo);
      PrioWeightSnoc(s, infos[..k], x, a, sel, lo);
      if x.aggId == a && sel(a, x.childId) == lo {
        EstimateSnoc(s, Volumes(infos[..k], a, sel, lo), x.volumeBps as real);
        WeightIsContribution(s, x.volumeBps);
      }
    }
  }

  lemma WeighSnoc(s: Sampler, c: seq<Child>, x: Child)
    requires s.Valid()
    ensures Weigh(s, c + [x]) == Weigh(s, c) + Weight(s, x.volumeBps)
    ensures VolumeSum(c + [x]) == VolumeSum(c) + x.volumeBps
  {
    TakeAppend(c, [x]);
  }

  /** Every child counts towards exactly one of the two priorities. */
  lemma {:induction false} PrioritiesPartition(s: Sampler, infos: seq<Info>, a: nat, sel: Selector)
    requires s.Valid()
    ensures PrioWeight(s, infos, a, sel, false) + PrioWeight(s, infos, a, sel, true) == Weigh(s, Children(infos, a))
  {
    if infos != [] {
      hide Weight, Weigh;
      var k := |infos| - 1;
      PrioritiesPartition(s, infos[..k], a, sel);
      SplitLast(infos);
      ChildrenSnoc(infos[..k], infos[k], a);
      if infos[k].aggId == a {
        WeighSnoc(s, Children(infos[..k], a), AsChild(infos[k]));
      }
    }
  }

  lemma {:induction false} WeighAppend(s: Sampler, x: seq<Child>, y: seq<Child>)
    requires s.Valid()
    ensures Weigh(s, x + y) == Weigh(s, x) + Weigh(s, y)
  {
    if y == [] {
      assert x + y == x;
    } else {
      hide Weight, Weigh;
      var k := |y| - 1;
      WeighAppend(s, x, y[..k]);
      Regroup(x, y[..k], [y[k]]);
      SplitLast(y);
      WeighSnoc(s, x + y[..k], y[k]);
      WeighSnoc(s, y[..k], y[k]);
    }
  }

  // ---- What the merge adds up ----

  /** One shard's estimate of one priority, truncated. */
  ghost function Part(s: Sampler, infos: seq<Info>, a: nat, sel: Selector, lo: bool): int
    requires s.Valid()
  {
    match Estimate(s, Volumes(infos, a, sel, lo))
    case Number(x) => Truncate(x)
    case NaN => 0
  }

  ghost function PartSum(s: Sampler, shards: seq<Buffer>, a: nat, sel: Selector, lo: bool): int
    requires s.Valid()
  {
    if shards == [] then 0
    else
      var k := |shards| - 1;
      PartSum(s, shards[..k], a, sel, lo) + Part(s, shards[k].infos, a, sel, lo)
  }

  /** Neither priority of any shard comes out as 0/0. */
  ghost predicate Convertible(s: Sampler, shards: seq<Buffer>, a: nat, sel: Selector)
    requires s.Valid()
  {
    forall p, lo :: 0 <= p < |shards| ==> Estimate(s, Volumes(shards[p].infos, a, sel, lo)).Number?
  }

  ghost predicate HasZero(infos: seq<Info>, a: nat) {
    exists k :: 0 <= k < |infos| && infos[k].aggId == a && infos[k].volumeBps == 0
  }

  lemma {:induction false} VolumesHoldZero(infos: seq<Info>, a: nat, sel: Selector)
    ensures HasZero(infos, a) <==> 0.0 in Volumes(infos, a, sel, false) || 0.0 in Volumes(infos, a, sel, true)
  {
    if infos != [] {
      var k := |infos| - 1;
      var x, v := infos[k], infos[k].volumeBps as real;
      VolumesHoldZero(infos[..k], a, sel);
      SplitLast(infos);
      HasZeroSnoc(infos, a);
      hide Volumes, HasZero;
      VolumesSnoc(infos[..k], x, a, sel, false);
      VolumesSnoc(infos[..k], x, a, sel, true);
    }
  }

  lemma HasZeroSnoc(infos: seq<Info>, a: nat)
    requires infos != []
    ensures var k := |infos| - 1;
            HasZero(infos, a) <==> HasZero(infos[..k], a) || (infos[k].aggId == a && infos[k].volumeBps == 0)
  {
    var k := |infos| - 1;
    if HasZero(infos[..k], a) {
      var j :| 0 <= j < k && infos[..k][j].aggId == a && infos[..k][j].volumeBps == 0;
      assert infos[j] == infos[..k][j];
    }
    if HasZero(infos, a) {
      var j :| 0 <= j < |infos| && infos[j].aggId == a && infos[j].volumeBps == 0;
      assert j < k ==> infos[..k][j] == infos[j];
    }
  }

  /** Exactly a volume of zero under a positive approval cannot be converted. */
  lemma ConvertibleIff(s: Sampler, shards: seq<Buffer>, a: nat, sel: Selector)
    requires s.Valid()
    ensures Convertible(s, shards, a, sel) <==>
            s.approval == 0.0 || forall p :: 0 <= p < |shards| ==> !HasZero(shards[p].infos, a)
  {
    hide Estimate, Volumes, HasZero;
    forall p | 0 <= p < |shards|
      ensures (Estimate(s, Volumes(shards[p].infos, a, sel, false)).Number? &&
               Estimate(s, Volumes(shards[p].infos, a, sel, true)).Number?) <==>
              s.approval == 0.0 || !HasZero(shards[p].infos, a)
    {
      EstimateIsNumber(s, Volumes(shards[p].infos, a, sel, false));
      EstimateIsNumber(s, Volumes(shards[p].infos, a, sel, true));
      VolumesHoldZero(shards[p].infos, a, sel);
    }
  }

  /** One info of volume zero under an approval of one unit. */
  lemma ZeroVolumeIsNotConverted(sel: Selector)
    ensures !Convertible(Sampler(10.0, 1.0), [Buffer([], [Info(0, 0, 0, false)])], 0, sel)
  {
    hide Convertible;
    var shards := [Buffer([], [Info(0, 0, 0, false)])];
    assert shards[0].infos[0].aggId == 0 && shards[0].infos[0].volumeBps == 0;
    assert HasZero(shards[0].infos, 0);
    ConvertibleIff(Sampler(10.0, 1.0), shards, 0, sel);
  }

  ghost predicate AllPositiveVolumes(shards: seq<Buffer>, a: nat) {
    forall p :: 0 <= p < |shards| ==> PositiveVolumes(shards[p].infos, a)
  }

  lemma PartBounds(s: Sampler, infos: seq<Info>, a: nat, sel: Selector, lo: bool)
    requires s.Valid() && PositiveVolumes(infos, a)
    ensures var w := PrioWeight(s, infos, a, sel, lo);
            var t := Part(s, infos, a, sel, lo);
            t as real <= w < t as real + 1.0
  {
    EstimateIsPrioWeight(s, infos, a, sel, lo);
  }

  /** Truncation loses less than one unit for each priority of each shard. */
  lemma {:induction false} MergeBounds(s: Sampler, shards: seq<Buffer>, a: nat, sel: Selector)
    requires s.Valid() && AllPositiveVolumes(shards, a)
    ensures var usage := (PartSum(s, shards, a, sel, false) + PartSum(s, shards, a, sel, true)) as real;
            var w := Weigh(s, Children(AllInfos(shards), a));
            && usage <= w
            && (shards != [] ==> w < usage + (2 * |shards|) as real)
            && (shards == [] ==> w == 0.0)
  {
    if shards != [] {
      hide Part, Weigh, Children, PrioWeight;
      var k := |shards| - 1;
      var infos := shards[k].infos;
      MergeBounds(s, shards[..k], a, sel);
      PartBounds(s, infos, a, sel, false);
      PartBounds(s, infos, a, sel, true);
      PrioritiesPartition(s, infos, a, sel);
      ChildrenAppend(AllInfos(shards[..k]), infos, a);
      WeighAppend(s, Children(AllInfos(shards[..k]), a), Children(infos, a));
    }
  }

  /** With approval 0 every weight is the volume, so nothing is lost. */
  lemma {:induction false} WholePrioWeight(s: Sampler, infos: seq<Info>, a: nat, sel: Selector, lo: bool) returns (v: int)
    requires s.Valid() && s.approval == 0.0
    ensures PrioWeight(s, infos, a, sel, lo) == v as real
  {
    v := 0;
    if infos != [] {
      var k := |infos| - 1;
      v := WholePrioWeight(s, infos[..k], a, sel, lo);
      if infos[k].aggId == a && sel(a, infos[k].childId) == lo {
        v := v + infos[k].volumeBps;
      }
    }
  }

  lemma {:induction false} WeighIsVolumeSum(s: Sampler, c: seq<Child>)
    requires s.Valid() && s.approval == 0.0
    ensures Weigh(s, c) == VolumeSum(c) as real
  {
    if c != [] {
      WeighIsVolumeSum(s, c[..|c| - 1]);
    }
  }

  lemma TruncateWhole(v: int)
    ensures Truncate(v as real) == v
  {
    assert (v as real).Floor == v;
    assert (-(v as real)) == (-v) as real;
    assert ((-v) as real).Floor == -v;
  }

  lemma PartIsExact(s: Sampler, infos: seq<Info>, a: nat, sel: Selector, lo: bool)
    requires s.Valid() && s.approval == 0.0
    ensures Part(s, infos, a, sel, lo) as real == PrioWeight(s, infos, a, sel, lo)
  {
    EstimateIsPrioWeight(s, infos, a, sel, lo);
    var v := WholePrioWeight(s, infos, a, sel, lo);
    TruncateWhole(v);
  }

  lemma {:induction false} MergeIsExact(s: Sampler, shards: seq<Buffer>, a: nat, sel: Selector)
    requires s.Valid() && s.approval == 0.0
    ensures PartSum(s, shards, a, sel, false) + PartSum(s, shards, a, sel, true) ==
            VolumeSum(Children(AllInfos(shards), a))
  {
    MergeIsWeigh(s, shards, a, sel);
    WeighIsVolumeSum(s, Children(AllInfos(shards), a));
  }

  lemma {:induction false} MergeIsWeigh(s: Sampler, shards: seq<Buffer>, a: nat, sel: Selector)
    requires s.Valid() && s.approval == 0.0
    ensures (PartSum(s, shards, a, sel, false) + PartSum(s, shards, a, sel, true)) as real ==
            Weigh(s, Children(AllInfos(shards), a))
  {
    if shards != [] {
      hide Part, Weigh, Children, PrioWeight;
      var k := |shards| - 1;
      var infos := shards[k].infos;
      MergeIsWeigh(s, shards[..k], a, sel);
      PartIsExact(s, infos, a, sel, false);
      PartIsExact(s, infos, a, sel, true);
      PrioritiesPartition(s, infos, a, sel);
      ChildrenAppend(AllInfos(shards[..k]), infos, a);
      WeighAppend(s, Children(AllInfos(shards[..k]), a), Children(infos, a));
    }
  }
}
