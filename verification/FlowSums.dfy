/** Sums over maps from flows, however the map is walked, and grouping them by an aggregate flow. */
module FlowSums {

  /** The fields of a flow marker that EqFlow compares. */
  datatype Flow = Flow(
    srcDc: string, dstDc: string, job: string, hostId: nat,
    srcAddr: string, dstAddr: string, protocol: nat, srcPort: int, dstPort: int, seqnum: nat)

  function ToHostFlow(flow: Flow): Flow {
    flow.(srcAddr := "", dstAddr := "", protocol := 0, srcPort := 0, dstPort := 0, seqnum := 0)
  }

  function ToClusterFlow(flow: Flow): Flow {
    flow.(job := "", hostId := 0,
          srcAddr := "", dstAddr := "", protocol := 0, srcPort := 0, dstPort := 0, seqnum := 0)
  }

  /** g stands for all flows between these data centres. */
  ghost predicate IsClusterOf(g: Flow, flow: Flow) {
    && g.srcDc == flow.srcDc && g.dstDc == flow.dstDc && g.job == "" && g.hostId == 0
    && NoConnection(g)
  }

  /** g stands for all flows between these data centres from one job on one host. */
  ghost predicate IsHostOf(g: Flow, flow: Flow) {
    && g.srcDc == flow.srcDc && g.dstDc == flow.dstDc && g.job == flow.job && g.hostId == flow.hostId
    && NoConnection(g)
  }

  ghost predicate NoConnection(g: Flow) {
    g.srcAddr == "" && g.dstAddr == "" && g.protocol == 0 && g.srcPort == 0 && g.dstPort == 0 && g.seqnum == 0
  }

  ghost predicate SameDcs(f: Flow, g: Flow) {
    f.srcDc == g.srcDc && f.dstDc == g.dstDc
  }

  ghost predicate SameHost(f: Flow, g: Flow) {
    SameDcs(f, g) && f.job == g.job && f.hostId == g.hostId
  }

  lemma ClusterFlowIs(f: Flow, g: Flow)
    ensures ToClusterFlow(f) == g <==> IsClusterOf(g, f)
  {
    hide ToHostFlow;
    if IsClusterOf(g, f) {
      assert g == Flow(f.srcDc, f.dstDc, "", 0, "", "", 0, 0, 0, 0);
    }
  }

  lemma HostFlowIs(f: Flow, g: Flow)
    ensures ToHostFlow(f) == g <==> IsHostOf(g, f)
  {
    if IsHostOf(g, f) {
      assert g == Flow(f.srcDc, f.dstDc, f.job, f.hostId, "", "", 0, 0, 0, 0);
    }
  }

  /** Which flows share an aggregate at the cluster, and which at their host. */
  lemma SharedAggregates(f: Flow, g: Flow)
    ensures ToClusterFlow(f) == ToClusterFlow(g) <==> SameDcs(f, g)
    ensures ToHostFlow(f) == ToHostFlow(g) <==> SameHost(f, g)
  {
    ClusterFlowIs(f, ToClusterFlow(f));
    ClusterFlowIs(g, ToClusterFlow(f));
    HostFlowIs(f, ToHostFlow(f));
    HostFlowIs(g, ToHostFlow(f));
  }

  type Project = Flow -> Flow

  /** What is added up over flows: cumulative bytes by priority, and usage in all and by priority. */
  datatype Sums = Sums(cumHipri: int, cumLopri: int, usage: int, usageHipri: int, usageLopri: int)

  const ZERO := Sums(0, 0, 0, 0, 0)

  function Plus(x: Sums, y: Sums): Sums {
    Sums(x.cumHipri + y.cumHipri, x.cumLopri + y.cumLopri, x.usage + y.usage,
         x.usageHipri + y.usageHipri, x.usageLopri + y.usageLopri)
  }

  type Flows = map<Flow, Sums>

  ghost function Total(m: Flows): Sums
    decreases |m|
  {
    if m == map[] then ZERO
    else
      var f :| f in m;
      Plus(m[f], Total(m - {f}))
  }

  /** Any flow may be taken out first. */
  lemma {:induction false} TotalRemove(m: Flows, f: Flow)
    requires f in m
    ensures Total(m) == Plus(m[f], Total(m - {f}))
    decreases |m|
  {
    var g :| g in m && Total(m) == Plus(m[g], Total(m - {g}));
    if g != f {
      TotalRemove(m - {g}, f);
      TotalRemove(m - {f}, g);
      assert m - {g} - {f} == m - {f} - {g};
      assert (m - {g})[f] == m[f] && (m - {f})[g] == m[g];
      PlusCommutes(m[g], m[f], Total(m - {g} - {f}));
    }
  }

  lemma PlusCommutes(x: Sums, y: Sums, z: Sums)
    ensures Plus(x, Plus(y, z)) == Plus(y, Plus(x, z))
  {
  }

  lemma TotalInsert(m: Flows, f: Flow, v: Sums)
    requires f !in m
    ensures Total(m[f := v]) == Plus(v, Total(m))
  {
    TotalRemove(m[f := v], f);
    assert m[f := v] - {f} == m;
  }

  lemma TotalUpdate(m: Flows, f: Flow, v: Sums)
    requires f in m
    ensures Total(m[f := Plus(v, m[f])]) == Plus(v, Total(m))
  {
    TotalRemove(m, f);
    TotalRemove(m[f := Plus(v, m[f])], f);
    assert m[f := Plus(v, m[f])] - {f} == m - {f};
  }

  // ---- Grouping ----

  ghost function Group(m: Flows, to: Project, g: Flow): Flows {
    map f | f in m && to(f) == g :: m[f]
  }

  ghost function Keys(m: Flows, to: Project): set<Flow> {
    set f | f in m :: to(f)
  }

  /** Each aggregate flow with what its members add up to. */
  ghost function Fold(m: Flows, to: Project): Flows {
    map g | g in Keys(m, to) :: Total(Group(m, to, g))
  }

  lemma GroupInsert(m: Flows, to: Project, f: Flow, v: Sums, g: Flow)
    requires f !in m
    ensures Group(m[f := v], to, g) == if to(f) == g then Group(m, to, g)[f := v] else Group(m, to, g)
  {
  }

  lemma FoldInsertAt(m: Flows, to: Project, f: Flow, v: Sums, g: Flow)
    requires f !in m
    ensures Total(Group(m[f := v], to, g)) ==
            if to(f) == g then Plus(v, Total(Group(m, to, g))) else Total(Group(m, to, g))
  {
    GroupInsert(m, to, f, v, g);
    if to(f) == g {
      TotalInsert(Group(m, to, g), f, v);
    }
  }

  lemma NoGroup(m: Flows, to: Project, g: Flow)
    requires g !in Keys(m, to)
    ensures Group(m, to, g) == map[] && Total(Group(m, to, g)) == ZERO
  {
    assert forall f :: f in m ==> to(f) in Keys(m, to);
  }

  lemma KeysInsert(m: Flows, to: Project, f: Flow, v: Sums)
    ensures Keys(m[f := v], to) == Keys(m, to) + {to(f)}
  {
    var m' := m[f := v];
    assert f in m' && to(f) in Keys(m', to);
    forall x | x in m ensures to(x) in Keys(m', to) {
      assert x in m';
    }
  }

  /** What one more flow does to the fold. */
  lemma FoldInsert(m: Flows, to: Project, f: Flow, v: Sums)
    requires f !in m
    ensures var k := to(f);
            Fold(m[f := v], to) == Fold(m, to)[k := if k in Fold(m, to) then Plus(v, Fold(m, to)[k]) else v]
  {
    var k := to(f);
    var a := Fold(m[f := v], to);
    var b := Fold(m, to)[k := if k in Fold(m, to) then Plus(v, Fold(m, to)[k]) else v];
    KeysInsert(m, to, f, v);
    forall g | g in a ensures a[g] == b[g] {
      FoldInsertAt(m, to, f, v, g);
      if k !in Keys(m, to) {
        NoGroup(m, to, k);
      }
    }
  }

  /** Nothing is lost or counted twice: the aggregates add up to what the flows add up to. */
  lemma {:induction false} FoldConserves(m: Flows, to: Project)
    ensures Total(Fold(m, to)) == Total(m)
    decreases |m|
  {
    if m == map[] {
      assert Fold(m, to) == map[];
    } else {
      var f :| f in m;
      var rest, v, k := m - {f}, m[f], to(f);
      FoldConserves(rest, to);
      assert rest[f := v] == m;
      TotalRemove(m, f);
      FoldInsert(rest, to, f, v);
      if k in Fold(rest, to) {
        TotalUpdate(Fold(rest, to), k, v);
      } else {
        TotalInsert(Fold(rest, to), k, v);
      }
    }
  }

  lemma GroupOfGroup(m: Flows, fine: Project, coarse: Project, h: Flow)
    requires forall f :: coarse(fine(f)) == coarse(f)
    ensures Group(Group(m, coarse, coarse(h)), fine, h) == Group(m, fine, h)
  {
  }
}
