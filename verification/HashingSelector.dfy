/** The hashing selector on top of the ring, and how a host's state follows it round after round. */
module HashingSelector {
  import opened Selection
  import opened HashRings
  import opened ChildStates
  import opened ControllerRuns
  import opened ControllerRound

  function NonEmpty(r: RingRanges): seq<IdRange> {
    (if r.a.Empty() then [] else [r.a]) + if r.b.Empty() then [] else [r.b]
  }

  lemma NonEmptyHolds(r: RingRanges, id: nat)
    ensures InAny(NonEmpty(r), id) <==> r.Contains(id)
  {
    var s := NonEmpty(r);
    if r.a.Contains(id) {
      assert s[0].Contains(id);
    }
    if r.b.Contains(id) {
      assert s[|s| - 1].Contains(id);
    }
  }

  ghost predicate CarriesDiff(input: AggInput, d: RangeDiff) {
    forall id: nat, before: bool :: Wanted(input, id, before) == Applied(d, before, id)
  }

  class HashingDowngradeSelector {
    const lopri: HashRing

    constructor ()
      ensures fresh(lopri) && lopri.Valid() && lopri.start == 0 && lopri.frac == 0.0
    {
      lopri := new HashRing();
    }

    /** The diff ends up in the one list that its type names. */
    method PickChildren(wantFracLopri: real) returns (toDowngrade: UnorderedIds, toUpgrade: UnorderedIds)
      requires lopri.Valid()
      modifies lopri
      ensures lopri.Valid() && lopri.frac == Clamp(wantFracLopri)
      ensures lopri.start == NewStart(old(lopri.start), old(lopri.frac), lopri.frac)
      ensures forall gens :: CarriesDiff(AggInput(toDowngrade, toUpgrade, gens),
        ComputeRangeDiff(old(lopri.start), old(lopri.frac), lopri.start, lopri.frac))
      ensures forall r :: r in toDowngrade.ranges + toUpgrade.ranges ==> !r.Empty()
      ensures toDowngrade.points == [] == toUpgrade.points
    {
      var d := lopri.UpdateFrac(wantFracLopri);
      var ranges: seq<IdRange> := [];
      if !d.diff.a.Empty() {
        ranges := ranges + [d.diff.a];
      }
      if !d.diff.b.Empty() {
        ranges := ranges + [d.diff.b];
      }
      assert ranges == NonEmpty(d.diff);
      match d {
        case Add(_) =>
          toDowngrade, toUpgrade := UnorderedIds(ranges, []), UnorderedIds([], []);
        case Del(_) =>
          toDowngrade, toUpgrade := UnorderedIds([], []), UnorderedIds(ranges, []);
      }
      forall gens: seq<(nat, int)>, id: nat, before: bool
        ensures Wanted(AggInput(toDowngrade, toUpgrade, gens), id, before) == Applied(d, before, id)
      {
        NonEmptyHolds(d.diff, id);
        NothingInNone(id);
      }
    }
  }

  lemma NothingInNone(id: nat)
    ensures !UnorderedIds([], []).Contains(id)
  {
  }

  /** A host whose state agrees with the selector still agrees after a round whose diff is exact. */
  lemma HostFollowsRing(w: World, r: Round, e: HostPar, agg: nat, start: nat, oldFrac: real, newFrac: real)
    requires IsRound(w, r) && e in r.host2par && e.par in w.children && agg < |r.inputs| && e.host < TWO64
    requires IsFrac(oldFrac) && IsFrac(newFrac) && start < TWO64
    requires CarriesDiff(r.inputs[agg], ComputeRangeDiff(start, oldFrac, NewStart(start, oldFrac, newFrac), newFrac))
    requires DiffIsExact(start, oldFrac, newFrac)
    requires Reads(w.children[e.par].aggIsLopri, agg) == Matching(start, oldFrac).Contains(e.host)
    ensures Reads(AfterRound(w, r).children[e.par].aggIsLopri, agg) ==
            Matching(NewStart(start, oldFrac, newFrac), newFrac).Contains(e.host)
  {
    hide IsRound, Matching, NewStart, ComputeRangeDiff, DiffIsExact, Wanted, Applied, AfterRound;
    RoundAppliesDiffs(w, r, e, agg);
    ExactWorks(start, oldFrac, newFrac, e.host);
  }
}
