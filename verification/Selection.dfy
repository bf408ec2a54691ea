/** Sets of host ids given as ranges and points, and the lookup of the registered hosts in them. */
module Selection {
  import opened Sequences

  /** Both ends are inclusive; a range whose hi is below its lo is empty. */
  datatype IdRange = IdRange(lo: nat, hi: nat) {
    predicate Contains(id: nat) {
      lo <= id <= hi
    }

    predicate Empty()
      ensures Empty() <==> forall id :: !Contains(id)
    {
      assert lo <= hi ==> Contains(lo);
      hi < lo
    }
  }

  datatype UnorderedIds = UnorderedIds(ranges: seq<IdRange>, points: seq<nat>) {
    ghost predicate Contains(id: nat) {
      InAny(ranges, id) || id in points
    }
  }

  ghost predicate InAny(ranges: seq<IdRange>, id: nat) {
    exists k :: 0 <= k < |ranges| && ranges[k].Contains(id)
  }

  /** One entry of host2par_. */
  datatype HostPar = HostPar(host: nat, par: nat)

  /** The order of a btree_map. */
  ghost predicate Ordered(id2par: seq<HostPar>) {
    forall i, j :: 0 <= i < j < |id2par| ==> id2par[i].host < id2par[j].host
  }

  /** The entries whose host lies in a range, in map order. */
  ghost function InRange(id2par: seq<HostPar>, r: IdRange): seq<HostPar> {
    if id2par == [] then []
    else
      var k := |id2par| - 1;
      InRange(id2par[..k], r) + if r.Contains(id2par[k].host) then [id2par[k]] else []
  }

  ghost function InRanges(id2par: seq<HostPar>, ranges: seq<IdRange>): seq<HostPar> {
    if ranges == [] then []
    else InRanges(id2par, ranges[..|ranges| - 1]) + InRange(id2par, ranges[|ranges| - 1])
  }

  /** What ForEachSelected hands to its callback: range after range, then point after point. */
  ghost function Selected(id2par: seq<HostPar>, ids: UnorderedIds): seq<HostPar> {
    InRanges(id2par, ids.ranges) + InRanges(id2par, AsRanges(ids.points))
  }

  /** A point is the range from itself to itself. */
  ghost function AsRanges(points: seq<nat>): seq<IdRange> {
    seq(|points|, k requires 0 <= k < |points| => IdRange(points[k], points[k]))
  }

  lemma {:induction false} InRangeHolds(id2par: seq<HostPar>, r: IdRange, e: HostPar)
    ensures e in InRange(id2par, r) <==> e in id2par && r.Contains(e.host)
  {
    if id2par != [] {
      InRangeHolds(id2par[..|id2par| - 1], r, e);
      SplitLast(id2par);
    }
  }

  lemma InAnySnoc(ranges: seq<IdRange>, id: nat)
    requires ranges != []
    ensures InAny(ranges, id) <==> InAny(ranges[..|ranges| - 1], id) || ranges[|ranges| - 1].Contains(id)
  {
    var n := |ranges| - 1;
    if InAny(ranges, id) {
      var k :| 0 <= k < |ranges| && ranges[k].Contains(id);
      assert k < n ==> ranges[..n][k].Contains(id);
    }
    if InAny(ranges[..n], id) {
      var k :| 0 <= k < n && ranges[..n][k].Contains(id);
      assert ranges[k].Contains(id);
    }
  }

  lemma {:induction false} InRangesHolds(id2par: seq<HostPar>, ranges: seq<IdRange>, e: HostPar)
    ensures e in InRanges(id2par, ranges) <==> e in id2par && InAny(ranges, e.host)
  {
    if ranges != [] {
      hide InRange, InAny;
      var n := |ranges| - 1;
      InRangesHolds(id2par, ranges[..n], e);
      InRangeHolds(id2par, ranges[n], e);
      InAnySnoc(ranges, e.host);
    }
  }

  /** A host is selected exactly when it is registered and one of the ids. */
  lemma SelectedHolds(id2par: seq<HostPar>, ids: UnorderedIds, e: HostPar)
    ensures e in Selected(id2par, ids) <==> e in id2par && ids.Contains(e.host)
  {
    hide InRanges, InAny, AsRanges;
    InRangesHolds(id2par, ids.ranges, e);
    InRangesHolds(id2par, AsRanges(ids.points), e);
    PointsAreRanges(ids.points, e.host);
  }

  lemma PointsAreRanges(points: seq<nat>, id: nat)
    ensures InAny(AsRanges(points), id) <==> id in points
  {
    var ps := AsRanges(points);
    assert forall k :: 0 <= k < |ps| ==> ps[k] == IdRange(points[k], points[k]);
    if id in points {
      var k :| 0 <= k < |points| && points[k] == id;
      assert ps[k].Contains(id);
    }
  }

  lemma {:induction false} InRangeSlice(id2par: seq<HostPar>, r: IdRange, from: nat, to: nat)
    requires from <= to <= |id2par|
    requires forall i :: 0 <= i < |id2par| ==> (r.Contains(id2par[i].host) <==> from <= i < to)
    ensures InRange(id2par, r) == id2par[from..to]
  {
    if id2par != [] {
      var k := |id2par| - 1;
      if to <= k {
        InRangeSlice(id2par[..k], r, from, to);
        assert id2par[..k][from..to] == id2par[from..to];
      } else if from <= k {
        InRangeSlice(id2par[..k], r, from, k);
        assert id2par[..k][from..k] + [id2par[k]] == id2par[from..to];
      } else {
        InRangeSlice(id2par[..k], r, k, k);
        assert id2par[..k][k..k] == id2par[from..to];
      }
    }
  }

  method LowerBound(id2par: seq<HostPar>, lo: nat) returns (i: nat)
    requires Ordered(id2par)
    ensures i <= |id2par|
    ensures forall j :: 0 <= j < i ==> id2par[j].host < lo
    ensures forall j :: i <= j < |id2par| ==> id2par[j].host >= lo
  {
    var hi := |id2par|;
    i := 0;
    while i < hi
      invariant 0 <= i <= hi <= |id2par|
      invariant forall j :: 0 <= j < i ==> id2par[j].host < lo
      invariant forall j :: hi <= j < |id2par| ==> id2par[j].host >= lo
    {
      var mid := (i + hi) / 2;
      if id2par[mid].host < lo {
        i := mid + 1;
      } else {
        hi := mid;
      }
    }
  }

  /** One range of ForEachSelected: an iterator that starts at lower_bound and stops past hi. */
  method WalkRange(id2par: seq<HostPar>, r: IdRange) returns (calls: seq<HostPar>)
    requires Ordered(id2par)
    ensures calls == InRange(id2par, r)
  {
    var from := LowerBound(id2par, r.lo);
    var i := from;
    calls := [];
    while i < |id2par| && id2par[i].host <= r.hi
      invariant from <= i <= |id2par| && calls == id2par[from..i]
      invariant forall j :: from <= j < i ==> id2par[j].host <= r.hi
    {
      calls := calls + [id2par[i]];
      i := i + 1;
    }
    InRangeSlice(id2par, r, from, i);
  }

  /** ForEachSelected; the calls it makes to func, in order. */
  method ForEachSelected(id2par: seq<HostPar>, ids: UnorderedIds) returns (calls: seq<HostPar>)
    requires Ordered(id2par)
    ensures calls == Selected(id2par, ids)
  {
    hide InRange;
    calls := [];
    for k := 0 to |ids.ranges|
      invariant calls == InRanges(id2par, ids.ranges[..k])
    {
      var got := WalkRange(id2par, ids.ranges[k]);
      InRangesSnoc(id2par, ids.ranges, k);
      calls := calls + got;
    }
    assert ids.ranges[..|ids.ranges|] == ids.ranges;
    ghost var fromRanges := calls;
    ghost var all := AsRanges(ids.points);
    for k := 0 to |ids.points|
      invariant calls == fromRanges + InRanges(id2par, all[..k])
    {
      var p := ids.points[k];
      var i := LowerBound(id2par, p);
      InRangesSnoc(id2par, all, k);
      if i < |id2par| && id2par[i].host == p {
        InRangeSlice(id2par, all[k], i, i + 1);
        Regroup(fromRanges, InRanges(id2par, all[..k]), [id2par[i]]);
        calls := calls + [id2par[i]];
      } else {
        InRangeSlice(id2par, all[k], i, i);
      }
    }
    assert all[..|all|] == all;
  }

  lemma InRangesSnoc(id2par: seq<HostPar>, ranges: seq<IdRange>, k: nat)
    requires k < |ranges|
    ensures InRanges(id2par, ranges[..k + 1]) == InRanges(id2par, ranges[..k]) + InRange(id2par, ranges[k])
  {
    TakeSnoc(ranges, k);
    TakeAppend(ranges[..k], [ranges[k]]);
  }
}
