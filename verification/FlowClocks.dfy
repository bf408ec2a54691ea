/**
 The times that ForEachAgg works with: the oldest report among an aggregate's active flows or,
 without any, the newest burial among its dead ones; and when that time can go back.
 */
module FlowClocks {
  import opened Wrappers
  import opened FlowSums
  import opened FlowAccounting

  /** Aggregates with the times of their flows. */
  type Stamps = set<(Flow, int)>

  ghost function StampsOf(m: map<Flow, Timed>, to: Project): Stamps {
    set f | f in m :: (to(f), m[f].time)
  }

  ghost predicate Stamped(s: Stamps, g: Flow) {
    exists t: int :: (g, t) in s
  }

  /** std::min, where None is the infinite future. */
  function Earlier(o: Option<int>, t: int): Option<int> {
    if o.None? || t < o.value then Some(t) else o
  }

  /** std::max, where None is the infinite past. */
  function Later(o: Option<int>, t: int): Option<int> {
    if o.None? || t > o.value then Some(t) else o
  }

  ghost predicate IsOldest(o: Option<int>, s: Stamps, g: Flow) {
    && (o.Some? <==> Stamped(s, g))
    && (o.Some? ==> (g, o.value) in s && forall t: int :: (g, t) in s ==> o.value <= t)
  }

  ghost predicate IsNewest(o: Option<int>, s: Stamps, g: Flow) {
    && (o.Some? <==> Stamped(s, g))
    && (o.Some? ==> (g, o.value) in s && forall t: int :: (g, t) in s ==> o.value >= t)
  }

  lemma OldestInsert(o: Option<int>, s: Stamps, g: Flow, h: Flow, t: int)
    requires IsOldest(o, s, g)
    ensures IsOldest(if h == g then Earlier(o, t) else o, s + {(h, t)}, g)
  {
    var s' := s + {(h, t)};
    assert (h, t) in s';
    if u: int :| (g, u) in s {
      assert (g, u) in s';
    }
    if h == g {
      assert (g, t) in s';
    }
  }

  lemma NewestInsert(o: Option<int>, s: Stamps, g: Flow, h: Flow, t: int)
    requires IsNewest(o, s, g)
    ensures IsNewest(if h == g then Later(o, t) else o, s + {(h, t)}, g)
  {
    var s' := s + {(h, t)};
    assert (h, t) in s';
    if u: int :| (g, u) in s {
      assert (g, u) in s';
    }
    if h == g {
      assert (g, t) in s';
    }
  }

  // ---- The time of an aggregate ----

  /** The time of aggregate g, given the times of its active and of its dead flows. */
  ghost predicate IsTime(t: int, actives: Stamps, deads: Stamps, g: Flow) {
    if Stamped(actives, g) then IsOldest(Some(t), actives, g) else IsNewest(Some(t), deads, g)
  }

  /** The time of g is known, and not before u. */
  ghost predicate Reaches(u: int, actives: Stamps, deads: Stamps, g: Flow) {
    && (forall t: int :: (g, t) in actives ==> u <= t)
    && (Stamped(actives, g) || exists t: int :: (g, t) in deads && u <= t)
  }

  lemma TimeReaches(t: int, actives: Stamps, deads: Stamps, g: Flow)
    requires IsTime(t, actives, deads, g)
    ensures Reaches(t, actives, deads, g)
  {
  }

  /** Reaching u is what it takes not to be before u. */
  lemma ReachesIffNotBefore(u: int, t: int, actives: Stamps, deads: Stamps, g: Flow)
    requires IsTime(t, actives, deads, g)
    ensures Reaches(u, actives, deads, g) <==> u <= t
  {
  }

  // ---- Several bundlers ----

  ghost function Union(ss: seq<Stamps>): Stamps {
    set i, x | 0 <= i < |ss| && x in ss[i] :: x
  }

  lemma UnionSnoc(ss: seq<Stamps>, s: Stamps)
    ensures Union(ss + [s]) == Union(ss) + s
  {
    var ss' := ss + [s];
    forall x | x in Union(ss) ensures x in Union(ss') {
      var i :| 0 <= i < |ss| && x in ss[i];
      assert x in ss'[i];
    }
    forall x | x in s ensures x in Union(ss') {
      assert x in ss'[|ss|];
    }
  }

  ghost predicate NoneAfter(s: Stamps, clock: int) {
    forall g: Flow, t: int :: (g, t) in s ==> t <= clock
  }

  lemma MovedNoneAfter(active: map<Flow, Timed>, dead: map<Flow, Timed>, active': map<Flow, Timed>,
                       dead': map<Flow, Timed>, clock: int, to: Project)
    requires Moved(active, dead, active', dead', clock)
    requires NoneAfter(StampsOf(active, to), clock) && NoneAfter(StampsOf(dead, to), clock)
    ensures NoneAfter(StampsOf(active', to), clock) && NoneAfter(StampsOf(dead', to), clock)
  {
    forall g: Flow, t: int | (g, t) in StampsOf(active', to) ensures t <= clock {
      var f :| f in active' && to(f) == g && active'[f].time == t;
      assert t == clock || (to(f), active[f].time) in StampsOf(active, to);
    }
    forall g: Flow, t: int | (g, t) in StampsOf(dead', to) ensures t <= clock {
      var f :| f in dead' && to(f) == g && dead'[f].time == t;
      assert t == clock || (to(f), dead[f].time) in StampsOf(dead, to);
    }
  }

  ghost predicate AllNoneAfter(ss: seq<Stamps>, clock: int) {
    forall i :: 0 <= i < |ss| ==> NoneAfter(ss[i], clock)
  }

  lemma MovedActive(active: map<Flow, Timed>, dead: map<Flow, Timed>, active': map<Flow, Timed>,
                    dead': map<Flow, Timed>, clock: int, to: Project, g: Flow, t: int)
    requires Moved(active, dead, active', dead', clock) && (g, t) in StampsOf(active', to)
    ensures t == clock || (g, t) in StampsOf(active, to)
  {
    var f :| f in active' && to(f) == g && active'[f].time == t;
    assert t == clock || (to(f), active[f].time) in StampsOf(active, to);
  }

  /** No flow is lost: one that was active or dead is active now, or dead as of no earlier. */
  lemma MovedStays(active: map<Flow, Timed>, dead: map<Flow, Timed>, active': map<Flow, Timed>,
                   dead': map<Flow, Timed>, clock: int, to: Project, g: Flow, t: int)
    requires Moved(active, dead, active', dead', clock) && t <= clock
    requires (g, t) in StampsOf(active, to) || (g, t) in StampsOf(dead, to)
    ensures Stamped(StampsOf(active', to), g) || exists u: int :: (g, u) in StampsOf(dead', to) && t <= u
  {
    var f: Flow;
    if (g, t) in StampsOf(active, to) {
      f :| f in active && to(f) == g && active[f].time == t;
    } else {
      f :| f in dead && to(f) == g && dead[f].time == t;
    }
    if f in active' {
      assert (g, active'[f].time) in StampsOf(active', to);
    } else {
      assert (g, dead'[f].time) in StampsOf(dead', to);
    }
  }

  /** A report that is not older than all before it never sets an aggregate's time back. */
  lemma ReportReaches(as_: seq<Stamps>, ds: seq<Stamps>, i: nat, active: map<Flow, Timed>, dead: map<Flow, Timed>,
                      active': map<Flow, Timed>, dead': map<Flow, Timed>, clock: int, to: Project, u: int, g: Flow)
    requires i < |as_| == |ds| && as_[i] == StampsOf(active, to) && ds[i] == StampsOf(dead, to)
    requires Moved(active, dead, active', dead', clock) && AllNoneAfter(as_, clock) && AllNoneAfter(ds, clock)
    requires Reaches(u, Union(as_), Union(ds), g)
    ensures Reaches(u, Union(as_[i := StampsOf(active', to)]), Union(ds[i := StampsOf(dead', to)]), g)
  {
    hide StampsOf, Moved;
    var as', ds' := as_[i := StampsOf(active', to)], ds[i := StampsOf(dead', to)];
    var j, t := Witness(as_, ds, u, g);
    assert NoneAfter(as_[j], clock) && NoneAfter(ds[j], clock);
    forall t: int | (g, t) in Union(as') ensures u <= t {
      var k :| 0 <= k < |as'| && (g, t) in as'[k];
      if k == i {
        MovedActive(active, dead, active', dead', clock, to, g, t);
      }
      assert k != i || t != clock ==> (g, t) in as_[k] && (g, t) in Union(as_);
    }
    if j == i {
      MovedStays(active, dead, active', dead', clock, to, g, t);
      Survives(as', ds', i, u, t, g);
    } else if (g, t) in as_[j] {
      assert (g, t) in as'[j] && (g, t) in Union(as');
    } else {
      assert (g, t) in ds'[j] && (g, t) in Union(ds');
    }
  }

  /** A flow of g with a time not before u. */
  lemma Witness(as_: seq<Stamps>, ds: seq<Stamps>, u: int, g: Flow) returns (j: nat, t: int)
    requires |as_| == |ds| && Reaches(u, Union(as_), Union(ds), g)
    ensures j < |as_| && u <= t && ((g, t) in as_[j] || (g, t) in ds[j])
  {
    if Stamped(Union(as_), g) {
      t :| (g, t) in Union(as_);
      j :| 0 <= j < |as_| && (g, t) in as_[j];
    } else {
      t :| (g, t) in Union(ds) && u <= t;
      j :| 0 <= j < |ds| && (g, t) in ds[j];
    }
  }

  lemma Survives(as_: seq<Stamps>, ds: seq<Stamps>, i: nat, u: int, t: int, g: Flow)
    requires i < |as_| == |ds| && u <= t
    requires Stamped(as_[i], g) || exists v: int :: (g, v) in ds[i] && t <= v
    ensures Stamped(Union(as_), g) || exists v: int :: (g, v) in Union(ds) && u <= v
  {
    if Stamped(as_[i], g) {
      var v :| (g, v) in as_[i];
      assert (g, v) in Union(as_);
    } else {
      var v :| (g, v) in ds[i] && t <= v;
      assert (g, v) in Union(ds);
    }
  }
}
