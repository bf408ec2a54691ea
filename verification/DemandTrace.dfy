/** The fortio demand trace generator: a sweep over the stage ends of all workload instances. */
module DemandTraces {

  /** Times and durations are in nanoseconds. */
  const HALF_SECOND := 500_000_000
  const MINUTE := 60_000_000_000

  datatype Stage = Stage(runDur: int, targetBps: real)

  datatype Instance = Instance(fg: string, stages: seq<Stage>)

  datatype Snapshot = Snapshot(time: int, fgDemand: map<string, real>)

  // ---- Specification ----

  function TotalDur(stages: seq<Stage>): int {
    if stages == [] then 0 else TotalDur(stages[..|stages| - 1]) + stages[|stages| - 1].runDur
  }

  /** When stage j of an instance begins and ends, counted from start. */
  function Begins(stages: seq<Stage>, j: nat): int
    requires j <= |stages|
  {
    TotalDur(stages[..j])
  }

  function Ends(stages: seq<Stage>, j: nat): int
    requires j < |stages|
  {
    TotalDur(stages[..j + 1])
  }

  /** Stage j is the first one that ends after t; j is the number of stages if there is none. */
  ghost predicate IsFirst(stages: seq<Stage>, start: int, t: int, j: nat) {
    && j <= |stages|
    && (forall k :: 0 <= k < j ==> start + Ends(stages, k) <= t)
    && (j < |stages| ==> start + Ends(stages, j) > t)
  }

  /** What an instance demands at t: the stages under way at t, added up. */
  ghost function InstanceDemand(stages: seq<Stage>, start: int, t: int, n: nat): real
    requires n <= |stages|
  {
    if n == 0 then 0.0
    else
      InstanceDemand(stages, start, t, n - 1) +
      if start + Begins(stages, n - 1) <= t < start + Ends(stages, n - 1) then stages[n - 1].targetBps else 0.0
  }

  ghost predicate NonNegative(stages: seq<Stage>) {
    forall k :: 0 <= k < |stages| ==> stages[k].runDur >= 0
  }

  lemma DurSnoc(stages: seq<Stage>, j: nat)
    requires j < |stages|
    ensures Ends(stages, j) == Begins(stages, j) + stages[j].runDur
  {
    assert stages[..j + 1][..j] == stages[..j];
  }

  lemma {:induction false} EndsAreSorted(stages: seq<Stage>, i: nat, j: nat)
    requires NonNegative(stages) && i <= j < |stages|
    ensures Ends(stages, i) <= Ends(stages, j)
    decreases j
  {
    if i < j {
      EndsAreSorted(stages, i, j - 1);
      DurSnoc(stages, j);
    }
  }

  /** With durations that are not negative, the stage under way at t is the first that ends after t. */
  lemma {:induction false} FirstIsUnderWay(stages: seq<Stage>, start: int, t: int, j: nat, n: nat)
    requires NonNegative(stages) && start <= t && IsFirst(stages, start, t, j) && n <= |stages|
    ensures InstanceDemand(stages, start, t, n) == if j < n then stages[j].targetBps else 0.0
  {
    if n > 0 {
      FirstIsUnderWay(stages, start, t, j, n - 1);
      DurSnoc(stages, n - 1);
      if j < n - 1 {
        EndsAreSorted(stages, j, n - 2);
      }
      if j == n - 1 && j > 0 {
        assert start + Ends(stages, j - 1) <= t;
      }
    }
  }

  /** What the sweep takes an instance to demand when its position is j. */
  function AtStage(inst: Instance, j: nat): real {
    if j < |inst.stages| then inst.stages[j].targetBps else 0.0
  }

  /** The demand of a flow group when instance i is at stage pos[i]. */
  ghost function Demand(insts: seq<Instance>, pos: seq<nat>, fg: string): real
    requires |insts| == |pos|
  {
    if insts == [] then 0.0
    else
      var k := |insts| - 1;
      Demand(insts[..k], pos[..k], fg) + if insts[k].fg == fg then AtStage(insts[k], pos[k]) else 0.0
  }

  /** The demand of a flow group at t. */
  ghost function DemandAt(insts: seq<Instance>, start: int, t: int, fg: string): real {
    if insts == [] then 0.0
    else
      var k := |insts| - 1;
      var stages := insts[k].stages;
      DemandAt(insts[..k], start, t, fg) + if insts[k].fg == fg then InstanceDemand(stages, start, t, |stages|) else 0.0
  }

  ghost predicate AllFirst(insts: seq<Instance>, start: int, t: int, pos: seq<nat>) {
    && |pos| == |insts|
    && forall i :: 0 <= i < |insts| ==> IsFirst(insts[i].stages, start, t, pos[i])
  }

  ghost predicate AllNonNegative(insts: seq<Instance>) {
    forall i :: 0 <= i < |insts| ==> NonNegative(insts[i].stages)
  }

  lemma {:induction false} DemandIsExact(insts: seq<Instance>, start: int, t: int, pos: seq<nat>, fg: string)
    requires AllNonNegative(insts) && start <= t && AllFirst(insts, start, t, pos)
    ensures Demand(insts, pos, fg) == DemandAt(insts, start, t, fg)
  {
    if insts != [] {
      hide IsFirst, InstanceDemand, NonNegative;
      var k := |insts| - 1;
      DemandIsExact(insts[..k], start, t, pos[..k], fg);
      FirstIsUnderWay(insts[k].stages, start, t, pos[k], |insts[k].stages|);
    }
  }

  /** The demand a snapshot gives for a flow group; groups that are not listed demand nothing. */
  ghost function Listed(m: map<string, real>, fg: string): real {
    if fg in m then m[fg] else 0.0
  }

  /** All the times at which some stage ends. */
  ghost function StageEnds(insts: seq<Instance>, start: int): set<int> {
    set i, j | 0 <= i < |insts| && 0 <= j < |insts[i].stages| :: start + Ends(insts[i].stages, j)
  }

  /** The loop that turns stage durations into stage ends. */
  method CumDurs(stages: seq<Stage>) returns (cum: seq<int>)
    ensures |cum| == |stages| && forall j :: 0 <= j < |cum| ==> cum[j] == Ends(stages, j)
  {
    var dur := 0;
    cum := [];
    for j := 0 to |stages|
      invariant |cum| == j && dur == Begins(stages, j)
      invariant forall k :: 0 <= k < j ==> cum[k] == Ends(stages, k)
    {
      DurSnoc(stages, j);
      dur := dur + stages[j].runDur;
      cum := cum + [dur];
    }
  }

  class Generator {
    const insts: seq<Instance>
    const fgNames: seq<string>
    const start: int
    const end: int
    const cumDurs: seq<seq<int>>
    const pos: array<nat>
    var nextTime: int
    var snapshot: Snapshot

    ghost predicate Fixed() {
      && |cumDurs| == |insts| && pos.Length == |insts|
      && (forall i :: 0 <= i < |insts| ==> |cumDurs[i]| == |insts[i].stages|)
      && (forall i, j :: 0 <= i < |insts| && 0 <= j < |cumDurs[i]| ==> cumDurs[i][j] == Ends(insts[i].stages, j))
    }

    /** No stage is skipped before it has ended. */
    ghost predicate Valid()
      reads this, pos
    {
      && Fixed() && start <= nextTime
      && forall i :: 0 <= i < |insts| ==> NotPast(i, pos[i], nextTime)
    }

    ghost predicate NotPast(i: nat, p: nat, t: int)
      requires Fixed() && i < |insts|
    {
      p <= |cumDurs[i]| && forall k :: 0 <= k < p ==> start + cumDurs[i][k] <= t
    }

    constructor (insts: seq<Instance>, fgNames: seq<string>, start: int, end: int)
      ensures Valid() && fresh(pos)
      ensures this.insts == insts && this.fgNames == fgNames && this.start == start == nextTime
      ensures this.end == end + HALF_SECOND
    {
      var cums: seq<seq<int>> := [];
      for i := 0 to |insts|
        invariant |cums| == i
        invariant forall k :: 0 <= k < i ==> |cums[k]| == |insts[k].stages|
        invariant forall k, j :: 0 <= k < i && 0 <= j < |cums[k]| ==> cums[k][j] == Ends(insts[k].stages, j)
      {
        var c := CumDurs(insts[i].stages);
        cums := cums + [c];
      }
      this.insts, this.fgNames, this.start, this.end := insts, fgNames, start, end + HALF_SECOND;
      cumDurs := cums;
      pos := new nat[|insts|](_ => 0);
      nextTime := start;
      snapshot := Snapshot(0, map[]);
    }

    /** The inner loop: advance instance i past the stages that have ended. */
    method Seek(i: nat) returns (found: bool, posEnd: int)
      requires Valid() && i < |insts|
      modifies pos
      ensures Valid() && forall k :: 0 <= k < pos.Length && k != i ==> pos[k] == old(pos[k])
      ensures IsFirst(insts[i].stages, start, nextTime, pos[i])
      ensures found == (pos[i] < |insts[i].stages|)
      ensures found ==> posEnd == start + Ends(insts[i].stages, pos[i])
    {
      posEnd := 0;
      found := false;
      while pos[i] < |cumDurs[i]| && !found
        invariant Valid() && forall k :: 0 <= k < pos.Length && k != i ==> pos[k] == old(pos[k])
        invariant found ==> pos[i] < |cumDurs[i]| && posEnd == start + cumDurs[i][pos[i]] && posEnd > nextTime
        decreases |cumDurs[i]| - pos[i], !found
      {
        posEnd := start + cumDurs[i][pos[i]];
        if posEnd <= nextTime {
          pos[i] := pos[i] + 1;
        } else {
          found := true;
        }
      }
    }

    method Zeros() returns (fgDemands: map<string, real>)
      ensures forall fg :: Listed(fgDemands, fg) == 0.0
      ensures forall k :: 0 <= k < |fgNames| ==> fgNames[k] in fgDemands
    {
      fgDemands := map[];
      for k := 0 to |fgNames|
        invariant forall fg :: Listed(fgDemands, fg) == 0.0
        invariant forall j :: 0 <= j < k ==> fgNames[j] in fgDemands
      {
        ghost var was := fgDemands;
        fgDemands := fgDemands[fgNames[k] := 0.0];
        assert forall fg :: Listed(was, fg) == 0.0 ==> Listed(fgDemands, fg) == 0.0;
      }
    }

    /** Where the outer loop of Next stands after n instances. */
    ghost predicate Swept(n: nat, fgDemands: map<string, real>, possibleNext: int)
      requires Fixed() && n <= |insts|
      reads this, pos
    {
      && (forall i :: 0 <= i < n ==> IsFirst(insts[i].stages, start, nextTime, pos[i]))
      && (forall i :: 0 <= i < n && pos[i] < |insts[i].stages| ==> possibleNext <= start + Ends(insts[i].stages, pos[i]))
      && nextTime < possibleNext
      && (possibleNext == end + MINUTE || possibleNext in StageEnds(insts, start))
      && (forall fg :: Listed(fgDemands, fg) == Demand(insts[..n], pos[..n], fg))
      && (forall k :: 0 <= k < |fgNames| ==> fgNames[k] in fgDemands)
    }

    lemma InStageEnds(i: nat, j: nat)
      requires i < |insts| && j < |insts[i].stages|
      ensures start + Ends(insts[i].stages, j) in StageEnds(insts, start)
    {
    }

    /** One turn of the outer loop. */
    method SweepOne(i: nat, fgDemands: map<string, real>, possibleNext: int)
      returns (fgDemands': map<string, real>, possibleNext': int)
      requires Valid() && i < |insts| && Swept(i, fgDemands, possibleNext)
      modifies pos
      ensures Valid() && Swept(i + 1, fgDemands', possibleNext') && possibleNext' <= possibleNext
    {
      hide StageEnds, IsFirst, Demand, Ends;
      ghost var before := pos[..i];
      var found, posEnd := Seek(i);
      assert pos[..i] == before;
      fgDemands', possibleNext' := fgDemands, possibleNext;
      if found {
        if posEnd < possibleNext {
          possibleNext' := posEnd;
          InStageEnds(i, pos[i]);
        }
        EndIsLater(insts[i].stages, start, nextTime, pos[i]);
        var fg := insts[i].fg;
        var sofar := if fg in fgDemands then fgDemands[fg] else 0.0;
        fgDemands' := fgDemands[fg := sofar + insts[i].stages[pos[i]].targetBps];
      }
      forall fg ensures Listed(fgDemands', fg) == Demand(insts[..i + 1], pos[..i + 1], fg) {
        DemandSnoc(insts, pos[..], i, fg);
        assert pos[..][..i + 1] == pos[..i + 1] && pos[..][..i] == pos[..i];
      }
    }

    /**
     Next. A snapshot gives the demand of every flow group at every time from its own up to the
     next snapshot's, and the next snapshot comes strictly later, at the end of a stage or past the end.
     */
    method Next() returns (ok: bool)
      requires Valid()
      modifies this, pos
      ensures Valid() && ok == (old(nextTime) <= end)
      ensures !ok ==> nextTime == old(nextTime) && snapshot == old(snapshot)
      ensures ok ==> snapshot.time == old(nextTime) < nextTime
      ensures ok ==> nextTime == end + MINUTE || nextTime in StageEnds(insts, start)
      ensures ok ==> forall t :: old(nextTime) <= t < nextTime ==> AllFirst(insts, start, t, pos[..])
      ensures ok ==> forall fg :: Listed(snapshot.fgDemand, fg) == Demand(insts, pos[..], fg)
      ensures ok ==> forall k :: 0 <= k < |fgNames| ==> fgNames[k] in snapshot.fgDemand
      ensures ok && AllNonNegative(insts) ==> forall t, fg :: old(nextTime) <= t < nextTime ==>
        Listed(snapshot.fgDemand, fg) == DemandAt(insts, start, t, fg)
    {
      hide StageEnds, IsFirst, Demand, DemandAt, Ends, AllNonNegative;
      if nextTime > end {
        return false;
      }
      var fgDemands := Zeros();
      var possibleNext := end + MINUTE;
      NoDemand(insts, pos[..]);
      assert pos[..][..0] == pos[..0];
      for i := 0 to |insts|
        invariant Valid() && Swept(i, fgDemands, possibleNext) && nextTime == old(nextTime)
      {
        fgDemands, possibleNext := SweepOne(i, fgDemands, possibleNext);
      }
      var now := nextTime;
      ghost var p := pos[..];
      assert insts[..|insts|] == insts && pos[..|insts|] == p;
      forall fg ensures Listed(fgDemands, fg) == Demand(insts, p, fg) {
        assert Listed(fgDemands, fg) == Demand(insts[..|insts|], pos[..|insts|], fg);
      }
      forall t | now <= t < possibleNext ensures AllFirst(insts, start, t, p) {
        StillFirst(insts, start, now, t, possibleNext, p);
      }
      forall t, fg | now <= t < possibleNext && AllNonNegative(insts)
        ensures Demand(insts, p, fg) == DemandAt(insts, start, t, fg)
      {
        DemandIsExact(insts, start, t, p, fg);
      }
      forall i | 0 <= i < |insts| ensures NotPast(i, pos[i], possibleNext) {
      }
      nextTime := possibleNext;
      snapshot := Snapshot(now, fgDemands);
      assert pos[..] == p;
      return true;
    }
  }

  lemma EndIsLater(stages: seq<Stage>, start: int, t: int, j: nat)
    requires IsFirst(stages, start, t, j) && j < |stages|
    ensures start + Ends(stages, j) > t
  {
  }

  lemma DemandSnoc(insts: seq<Instance>, pos: seq<nat>, i: nat, fg: string)
    requires |insts| == |pos| && i < |insts|
    ensures Demand(insts[..i + 1], pos[..i + 1], fg) ==
            Demand(insts[..i], pos[..i], fg) + if insts[i].fg == fg then AtStage(insts[i], pos[i]) else 0.0
  {
    assert insts[..i + 1][..i] == insts[..i] && pos[..i + 1][..i] == pos[..i];
  }

  lemma NoDemand(insts: seq<Instance>, pos: seq<nat>)
    requires |insts| == |pos|
    ensures forall fg :: Demand(insts[..0], pos[..0], fg) == 0.0
  {
  }

  /** Until the next end of a stage every instance stays where it is. */
  lemma StillFirst(insts: seq<Instance>, start: int, now: int, t: int, next: int, pos: seq<nat>)
    requires AllFirst(insts, start, now, pos) && now <= t < next
    requires forall i :: 0 <= i < |insts| && pos[i] < |insts[i].stages| ==> next <= start + Ends(insts[i].stages, pos[i])
    ensures AllFirst(insts, start, t, pos)
  {
    hide Ends;
  }

  // ---- A whole trace ----

  ghost predicate StrictlyIncreasing(times: seq<int>) {
    forall i, j :: 0 <= i < j < |times| ==> times[i] < times[j]
  }

  lemma {:induction false} CountIsBounded(times: seq<int>, ends: set<int>)
    requires StrictlyIncreasing(times) && forall k :: 0 <= k < |times| ==> times[k] in ends
    ensures |times| <= |ends|
  {
    if times != [] {
      var k := |times| - 1;
      CountIsBounded(times[..k], ends - {times[k]});
    }
  }

  /** The caller's loop over Next: one snapshot at the start, and at most one for each time at which a stage ends. */
  method Drain(g: Generator) returns (times: seq<int>)
    requires g.Valid() && g.nextTime == g.start
    modifies g, g.pos
    ensures g.Valid() && StrictlyIncreasing(times)
    ensures times == [] <==> g.start > g.end
    ensures times != [] ==> times[0] == g.start
    ensures forall k :: 0 < k < |times| ==> times[k] in StageEnds(g.insts, g.start)
    ensures |times| <= 1 + |StageEnds(g.insts, g.start)|
  {
    hide StageEnds;
    times := [];
    var ok := true;
    while ok
      invariant g.Valid() && StrictlyIncreasing(times)
      invariant forall k :: 0 <= k < |times| ==> times[k] < g.nextTime && times[k] <= g.end
      invariant times == [] ==> g.nextTime == g.start
      invariant times != [] ==> times[0] == g.start
      invariant forall k :: 0 < k < |times| ==> times[k] in StageEnds(g.insts, g.start)
      invariant times != [] ==> g.nextTime == g.end + MINUTE || g.nextTime in StageEnds(g.insts, g.start)
      invariant !ok ==> g.nextTime > g.end
      decreases ok, g.end + MINUTE - g.nextTime
    {
      ok := g.Next();
      if ok {
        times := times + [g.snapshot.time];
      }
    }
    if times != [] {
      CountIsBounded(times[1..], StageEnds(g.insts, g.start));
    }
  }
}
