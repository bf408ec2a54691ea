/** Sums over the flows of several bundlers: nothing is lost or counted twice, in one step or two. */
module FlowConservation {
  import opened FlowSums

  /** The sum of an aggregate over all bundlers. */
  ghost function SumAll(all: seq<Flows>, to: Project, g: Flow): Sums {
    if all == [] then ZERO
    else Plus(Total(Group(all[|all| - 1], to, g)), SumAll(all[..|all| - 1], to, g))
  }

  lemma SumAllSnoc(all: seq<Flows>, n: nat, to: Project, g: Flow)
    requires n < |all|
    ensures SumAll(all[..n + 1], to, g) == Plus(Total(Group(all[n], to, g)), SumAll(all[..n], to, g))
  {
    assert all[..n + 1][..n] == all[..n];
  }

  /** Everything that all bundlers report. */
  ghost function TotalAll(all: seq<Flows>): Sums {
    if all == [] then ZERO else Plus(Total(all[|all| - 1]), TotalAll(all[..|all| - 1]))
  }

  /** The sums of the given aggregates. */
  ghost function SumsAt(all: seq<Flows>, to: Project, keys: set<Flow>): Flows {
    map g | g in keys :: SumAll(all, to, g)
  }

  ghost predicate Covers(keys: set<Flow>, all: seq<Flows>, to: Project) {
    forall i :: 0 <= i < |all| ==> Keys(all[i], to) <= keys
  }

  lemma TotalOfNone()
    ensures Total(map[]) == ZERO == Plus(ZERO, ZERO)
  {
  }

  lemma PlusRegroups(a: Sums, b: Sums, x: Sums, y: Sums)
    ensures Plus(Plus(a, b), Plus(x, y)) == Plus(Plus(a, x), Plus(b, y))
  {
  }

  lemma {:induction false} TotalPointwise(a: Flows, b: Flows, c: Flows)
    requires a.Keys == b.Keys == c.Keys && forall g :: g in a ==> c[g] == Plus(a[g], b[g])
    ensures Total(c) == Plus(Total(a), Total(b))
    decreases |c|
  {
    hide Total, Plus;
    if c == map[] {
      assert a == map[] && b == map[];
      TotalOfNone();
    } else {
      var g :| g in c;
      TotalRemove(a, g);
      TotalRemove(b, g);
      TotalRemove(c, g);
      TotalPointwise(a - {g}, b - {g}, c - {g});
      PlusRegroups(a[g], b[g], Total(a - {g}), Total(b - {g}));
    }
  }

  /** Aggregates with nothing in them add nothing. */
  lemma {:induction false} TotalPadded(m: Flows, padded: Flows)
    requires m.Keys <= padded.Keys
    requires forall g :: g in padded ==> padded[g] == if g in m then m[g] else ZERO
    ensures Total(padded) == Total(m)
    decreases |padded|
  {
    if padded == map[] {
      assert m == map[];
    } else {
      var g :| g in padded;
      TotalRemove(padded, g);
      if g in m {
        TotalRemove(m, g);
        TotalPadded(m - {g}, padded - {g});
      } else {
        TotalPadded(m, padded - {g});
      }
    }
  }

  ghost function Groups(m: Flows, to: Project, keys: set<Flow>): Flows {
    map g | g in keys :: Total(Group(m, to, g))
  }

  lemma GroupsConserve(m: Flows, to: Project, keys: set<Flow>)
    requires Keys(m, to) <= keys
    ensures Total(Groups(m, to, keys)) == Total(m)
  {
    hide Total, Keys;
    forall g | g in keys && g !in Keys(m, to) ensures Total(Group(m, to, g)) == ZERO {
      NoGroup(m, to, g);
    }
    TotalPadded(Fold(m, to), Groups(m, to, keys));
    FoldConserves(m, to);
  }

  /** The aggregates add up to what the flows of all bundlers add up to. */
  lemma {:induction false} SumsConserve(all: seq<Flows>, to: Project, keys: set<Flow>)
    requires Covers(keys, all, to)
    ensures Total(SumsAt(all, to, keys)) == TotalAll(all)
  {
    hide Total, Plus, Keys, Group;
    if all == [] {
      TotalPadded(map[], SumsAt(all, to, keys));
      TotalOfNone();
    } else {
      var k := |all| - 1;
      SumsConserve(all[..k], to, keys);
      GroupsConserve(all[k], to, keys);
      TotalPointwise(Groups(all[k], to, keys), SumsAt(all[..k], to, keys), SumsAt(all, to, keys));
    }
  }

  // ---- Two steps ----

  ghost function GroupAll(all: seq<Flows>, to: Project, g: Flow): seq<Flows> {
    seq(|all|, i requires 0 <= i < |all| => Group(all[i], to, g))
  }

  lemma {:induction false} TotalOfGroups(all: seq<Flows>, to: Project, g: Flow)
    ensures TotalAll(GroupAll(all, to, g)) == SumAll(all, to, g)
  {
    if all != [] {
      hide Total, Group;
      var k := |all| - 1;
      TotalOfGroups(all[..k], to, g);
      assert GroupAll(all, to, g)[..k] == GroupAll(all[..k], to, g);
    }
  }

  lemma {:induction false} SumOfGroups(all: seq<Flows>, fine: Project, coarse: Project, h: Flow)
    requires forall f :: coarse(fine(f)) == coarse(f)
    ensures SumAll(GroupAll(all, coarse, coarse(h)), fine, h) == SumAll(all, fine, h)
  {
    if all != [] {
      hide Total, Group;
      var k := |all| - 1;
      SumOfGroups(all[..k], fine, coarse, h);
      assert GroupAll(all, coarse, coarse(h))[..k] == GroupAll(all[..k], coarse, coarse(h));
      GroupOfGroup(all[k], fine, coarse, h);
    }
  }

  ghost function Within(keys: set<Flow>, coarse: Project, g: Flow): set<Flow> {
    set h | h in keys && coarse(h) == g
  }

  lemma GroupsCovered(all: seq<Flows>, fine: Project, coarse: Project, keys: set<Flow>, g: Flow)
    requires (forall f :: coarse(fine(f)) == coarse(f)) && Covers(keys, all, fine)
    ensures Covers(Within(keys, coarse, g), GroupAll(all, coarse, g), fine)
  {
    hide Total;
    var sub := GroupAll(all, coarse, g);
    forall i, h | 0 <= i < |sub| && h in Keys(sub[i], fine) ensures h in keys && coarse(h) == g {
      var f :| f in sub[i] && fine(f) == h;
      assert fine(f) in Keys(all[i], fine);
    }
  }

  /** Summing to a finer aggregate first gives the same coarse sums. */
  lemma SumsInTwoSteps(all: seq<Flows>, fine: Project, coarse: Project, keys: set<Flow>, g: Flow)
    requires (forall f :: coarse(fine(f)) == coarse(f)) && Covers(keys, all, fine)
    ensures Total(Group(SumsAt(all, fine, keys), coarse, g)) == SumAll(all, coarse, g)
  {
    hide Total, Plus, SumAll, Covers;
    var sub := GroupAll(all, coarse, g);
    var some := Within(keys, coarse, g);
    forall h | h in some ensures SumAll(sub, fine, h) == SumAll(all, fine, h) {
      SumOfGroups(all, fine, coarse, h);
    }
    assert Group(SumsAt(all, fine, keys), coarse, g) == SumsAt(sub, fine, some);
    GroupsCovered(all, fine, coarse, keys, g);
    SumsConserve(sub, fine, some);
    TotalOfGroups(all, coarse, g);
  }

  /** From connections to clusters, by way of hosts or directly. */
  lemma ConnToHostToCluster(conns: seq<Flows>, hosts: set<Flow>, clusters: set<Flow>)
    requires Covers(hosts, conns, ToHostFlow) && Covers(clusters, conns, ToClusterFlow)
    ensures forall g :: Total(Group(SumsAt(conns, ToHostFlow, hosts), ToClusterFlow, g)) == SumAll(conns, ToClusterFlow, g)
    ensures Total(SumsAt(conns, ToHostFlow, hosts)) == Total(SumsAt(conns, ToClusterFlow, clusters)) == TotalAll(conns)
    ensures forall f, g :: ToClusterFlow(f) == ToClusterFlow(g) <==> SameDcs(f, g)
    ensures forall f, g :: ToHostFlow(f) == ToHostFlow(g) <==> SameHost(f, g)
  {
    hide Total, SumAll, Covers, TotalAll, SameDcs, SameHost;
    forall f, g
      ensures ToClusterFlow(f) == ToClusterFlow(g) <==> SameDcs(f, g)
      ensures ToHostFlow(f) == ToHostFlow(g) <==> SameHost(f, g)
    {
      SharedAggregates(f, g);
    }
    forall g
      ensures Total(Group(SumsAt(conns, ToHostFlow, hosts), ToClusterFlow, g)) == SumAll(conns, ToClusterFlow, g)
    {
      SumsInTwoSteps(conns, ToHostFlow, ToClusterFlow, hosts, g);
    }
    SumsConserve(conns, ToHostFlow, hosts);
    SumsConserve(conns, ToClusterFlow, clusters);
  }
}
