/** A report that arrives late: the flows it adds are handed out as children, but not in the parent. */
module FlowLateness {
  import opened Wrappers
  import opened FlowSums
  import opened FlowConservation
  import opened FlowAccounting
  import opened FlowClocks
  import opened FlowTotals
  import opened AggStates
  import opened FlowRecords
  import opened FlowAggregators

  function HostFlow(host: nat): Flow {
    Flow("east", "west", "job", host, "", "", 0, 0, 0, 0)
  }

  const CLUSTER := ToClusterFlow(HostFlow(0))

  /** Host 1 has sent a hundred bytes, host 2 fifty. */
  const HUNDRED := FlowInfo(HostFlow(1), 8, 100, 0, false)

  const FIFTY := FlowInfo(HostFlow(2), 4, 50, 0, false)

  /** A bundler that has made one report of one flow. */
  ghost predicate Holds(bs: BundleState, info: FlowInfo, time: int)
    reads bs
  {
    bs.active == map[info.flow := Timed(time, info)] && bs.dead == map[]
  }

  ghost predicate HoldsNothing(bs: BundleState)
    reads bs
  {
    bs.active == map[] && bs.dead == map[]
  }

  lemma NothingLatest(bs: BundleState)
    requires HoldsNothing(bs)
    ensures bs.Latest() == map[]
  {
  }

  lemma OneReport(bs: BundleState, info: FlowInfo, time: int)
    requires bs.Valid() && bs.Latest() == Report(map[], [info]) && info.flow in bs.active
    requires Moved(map[], map[], bs.active, bs.dead, time)
    ensures Holds(bs, info, time)
  {
    assert [info][..0] == [];
    assert Report(map[], [info]) == map[info.flow := info];
    assert bs.active.Keys <= bs.Latest().Keys && bs.dead.Keys <= bs.Latest().Keys;
    assert bs.Latest()[info.flow] == bs.active[info.flow].info;
    assert bs.active == map[info.flow := Timed(time, info)];
    assert bs.dead == map[];
  }

  /** What one flow adds up to, and when it was reported. */
  lemma SharesOfOne(bs: BundleState, info: FlowInfo, time: int, to: Project)
    requires Holds(bs, info, time)
    ensures bs.Shares() == map[info.flow := FlowShare(info, true)] && bs.Active() == map[info.flow := info]
    ensures StampsOf(bs.active, to) == {(to(info.flow), time)} && StampsOf(bs.dead, to) == {}
  {
    assert info.flow in bs.active;
  }

  lemma SharesOfNone(bs: BundleState, to: Project)
    requires HoldsNothing(bs)
    ensures bs.Shares() == map[] && bs.Active() == map[] && StampsOf(bs.active, to) == {} == StampsOf(bs.dead, to)
  {
  }

  lemma SumOfOne(f: Flow, v: Sums, to: Project, g: Flow)
    ensures Total(Group(map[f := v], to, g)) == if to(f) == g then v else ZERO
    ensures Keys(map[f := v], to) == {to(f)}
  {
    var m := map[f := v];
    assert f in m;
    if to(f) == g {
      assert Group(m, to, g) == m;
      TotalRemove(m, f);
      assert m - {f} == map[];
    } else {
      assert Group(m, to, g) == map[];
    }
  }

  lemma SumOfTwo(x: Flows, y: Flows, to: Project, g: Flow)
    ensures SumAll([x, y], to, g) == Plus(Total(Group(y, to, g)), Total(Group(x, to, g)))
  {
    hide Total, Group;
    assert [x, y][..1] == [x] && [x][..0] == [];
    assert SumAll([x], to, g) == Plus(Total(Group(x, to, g)), SumAll([], to, g));
  }

  lemma MemberOfTwo(x: Flows, y: Flows, to: Project, g: Flow)
    requires HasMember([x, y], to, g)
    ensures g in Keys(x, to) || g in Keys(y, to)
  {
    hide Keys;
    var i :| 0 <= i < 2 && g in Keys([x, y][i], to);
    assert i == 0 || i == 1;
  }

  lemma MembersOfTwo(x: Reports, y: Reports, to: Project, g: Flow)
    ensures MembersAll([x, y], to, g) == Members(x, to, g) + Members(y, to, g)
  {
    hide Members;
    assert [x, y][..1] == [x] && [x][..0] == [];
    assert MembersAll([x], to, g) == MembersAll([], to, g) + Members(x, to, g);
  }

  lemma MemberOfOne(info: FlowInfo, to: Project)
    ensures Members(map[info.flow := info], to, to(info.flow)) == multiset{info}
  {
    var m := map[info.flow := info];
    assert info.flow in m;
    assert MemberSet(m, to, to(info.flow)) == {info};
  }

  // ---- The run ----

  /** The only aggregate and its sum, whichever of the two hosts have reported. */
  lemma OnlyCluster(x: Flows, y: Flows, s: Sums, t: Sums, g: Flow)
    requires x == map[HUNDRED.flow := s] && ((t == ZERO && y == map[]) || y == map[FIFTY.flow := t])
    ensures HasMember([x, y], ToClusterFlow, g) <==> g == CLUSTER
    ensures SumAll([x, y], ToClusterFlow, CLUSTER) == Plus(t, s)
  {
    hide Total, Group, HasMember, Keys, SumAll;
    SameCluster();
    SumOfTwo(x, y, ToClusterFlow, CLUSTER);
    SumOfOne(HUNDRED.flow, s, ToClusterFlow, CLUSTER);
    if y == map[] {
      NoneOfNone(CLUSTER);
      assert y != map[FIFTY.flow := t] by {
        assert FIFTY.flow in map[FIFTY.flow := t];
      }
    } else {
      SumOfOne(FIFTY.flow, t, ToClusterFlow, CLUSTER);
    }
    IsMember([x, y], 0, ToClusterFlow, CLUSTER);
    if HasMember([x, y], ToClusterFlow, g) {
      MemberOfTwo(x, y, ToClusterFlow, g);
    }
  }

  /** The cluster is the only aggregate, with these sums. */
  ghost predicate Alone(shares: seq<Flows>, sums: Sums) {
    && (forall g :: HasMember(shares, ToClusterFlow, g) <==> g == CLUSTER)
    && SumAll(shares, ToClusterFlow, CLUSTER) == sums
  }

  lemma IsAlone(shares: seq<Flows>, s: Sums, t: Sums)
    requires |shares| == 2 && shares[0] == map[HUNDRED.flow := s]
    requires (t == ZERO && shares[1] == map[]) || shares[1] == map[FIFTY.flow := t]
    ensures Alone(shares, Plus(t, s))
  {
    hide HasMember, SumAll, ToClusterFlow, Plus;
    assert shares == [shares[0], shares[1]];
    forall g ensures HasMember(shares, ToClusterFlow, g) <==> g == CLUSTER {
      OnlyCluster(shares[0], shares[1], s, t, g);
    }
    OnlyCluster(shares[0], shares[1], s, t, CLUSTER);
  }

  lemma NoneOfNone(g: Flow)
    ensures Keys(map[], ToClusterFlow) == {} && Total(Group(map[], ToClusterFlow, g)) == ZERO
  {
    NoGroup(map[], ToClusterFlow, g);
  }

  lemma IsMember(all: seq<Flows>, i: nat, to: Project, g: Flow)
    requires i < |all| && g in Keys(all[i], to)
    ensures HasMember(all, to, g)
  {
  }

  /** With reports from ten o'clock and then from the given time, that is the time of the aggregate. */
  lemma TimeIs(stamps: Stamps, t: int, u: int)
    requires t <= 10 && ((stamps == {} && t == 10) || stamps == {(CLUSTER, t)})
    requires IsTime(u, Union([{(CLUSTER, 10)}, stamps]), Union([{}, {}]), CLUSTER)
    ensures u == t
  {
    var ss := [{(CLUSTER, 10)}, stamps];
    assert (CLUSTER, 10) in ss[0] && (CLUSTER, 10) in Union(ss);
    assert stamps != {} ==> (CLUSTER, t) in ss[1] && (CLUSTER, t) in Union(ss);
    forall x | x in Union(ss) ensures x == (CLUSTER, 10) || x == (CLUSTER, t) {
      var i :| 0 <= i < 2 && x in ss[i];
      assert i == 0 || i == 1;
    }
  }

  /** The aggregate is handed out unless its bytes would go down. */
  lemma IsShown(ok: bool, infos: Infos, states: States, seen: Seen, sums: Sums)
    requires Alone(seen.shares, sums) && !Falls(StateOf(states, CLUSTER), sums)
    requires (ok <==> Complete(infos, seen, ToClusterFlow)) && (!ok ==> SomeFalls(infos, states, seen, ToClusterFlow))
    ensures ok && CLUSTER in infos
  {
    hide HasMember, Falls, SumAll, ToClusterFlow;
  }

  /** What the cluster was seen with the first time and the second. */
  ghost predicate SawOne(seen: Seen) {
    Alone(seen.shares, FlowShare(HUNDRED, true)) && seen.actives == [{(CLUSTER, 10)}, {}] && seen.deads == [{}, {}]
  }

  ghost predicate SawBoth(seen: Seen) {
    && Alone(seen.shares, Plus(FlowShare(FIFTY, true), FlowShare(HUNDRED, true)))
    && AtTenAndNine(seen) && AreBoth(seen.kids)
  }

  ghost predicate AtTenAndNine(seen: Seen) {
    seen.actives == [{(CLUSTER, 10)}, {(CLUSTER, 9)}] && seen.deads == [{}, {}]
  }

  ghost predicate AreBoth(kids: seq<Reports>) {
    kids == [map[HUNDRED.flow := HUNDRED], map[FIFTY.flow := FIFTY]]
  }

  lemma HundredAndFifty()
    ensures Plus(FlowShare(FIFTY, true), FlowShare(HUNDRED, true)) == Sums(150, 0, 12, 12, 0)
  {
  }

  lemma FirstAnswer(ok: bool, infos: Infos, states': States, seen: Seen, measure: Measure)
    requires SawOne(seen) && IsAnswer(infos, map[], states', seen, ToClusterFlow, measure)
    requires (ok <==> Complete(infos, seen, ToClusterFlow)) && (!ok ==> SomeFalls(infos, map[], seen, ToClusterFlow))
    ensures CLUSTER in infos && infos[CLUSTER].parent.cumHipriBytes == 100
    ensures Counted(StateOf(states', CLUSTER))
  {
    hide HasMember, SumAll, IsTime, Union, MembersAll, Complete, SomeFalls, ToClusterFlow;
    IsShown(ok, infos, map[], seen, FlowShare(HUNDRED, true));
    assert AnswerAt(CLUSTER, infos, map[], states', seen, ToClusterFlow, measure);
    TimeIs({}, 10, infos[CLUSTER].time);
  }

  ghost predicate Counted(state: AggState) {
    state.updated == Some(10) && state.cumHipri == 100 && state.cumLopri == 0
  }

  lemma BothAreChildren(kids: seq<Reports>)
    requires AreBoth(kids)
    ensures MembersAll(kids, ToClusterFlow, CLUSTER) == multiset{HUNDRED, FIFTY}
  {
    hide Members, MembersAll;
    MembersOfTwo(kids[0], kids[1], ToClusterFlow, CLUSTER);
    MemberOfOne(HUNDRED, ToClusterFlow);
    MemberOfOne(FIFTY, ToClusterFlow);
  }

  lemma TimeOfAnswer(g: Flow, infos: Infos, states: States, states': States, seen: Seen, measure: Measure)
    requires IsAnswer(infos, states, states', seen, ToClusterFlow, measure) && g in infos
    ensures IsTime(infos[g].time, Union(seen.actives), Union(seen.deads), g)
  {
    hide HasMember, SumAll, IsTime, Union, MembersAll;
    assert AnswerAt(g, infos, states, states', seen, ToClusterFlow, measure);
  }

  lemma DroppedAt(g: Flow, infos: Infos, states: States, states': States, seen: Seen, measure: Measure)
    requires IsAnswer(infos, states, states', seen, ToClusterFlow, measure) && g in infos
    requires Late(StateOf(states, g), infos[g].time)
    ensures multiset(infos[g].children) == MembersAll(seen.kids, ToClusterFlow, g)
    ensures infos[g].parent.cumHipriBytes == StateOf(states, g).cumHipri
  {
    hide HasMember, SumAll, IsTime, Union, MembersAll;
    assert AnswerAt(g, infos, states, states', seen, ToClusterFlow, measure);
  }

  lemma SecondIsShown(ok: bool, infos: Infos, states: States, seen: Seen)
    requires SawBoth(seen) && Counted(StateOf(states, CLUSTER))
    requires (ok <==> Complete(infos, seen, ToClusterFlow)) && (!ok ==> SomeFalls(infos, states, seen, ToClusterFlow))
    ensures CLUSTER in infos
  {
    hide Alone, AtTenAndNine, AreBoth, Complete, SomeFalls, ToClusterFlow, FlowShare, Plus;
    HundredAndFifty();
    IsShown(ok, infos, states, seen, Sums(150, 0, 12, 12, 0));
  }

  lemma SecondTime(infos: Infos, states: States, states': States, seen: Seen, measure: Measure)
    requires SawBoth(seen) && CLUSTER in infos && IsAnswer(infos, states, states', seen, ToClusterFlow, measure)
    ensures infos[CLUSTER].time == 9
  {
    hide Alone, AreBoth, IsTime, Union, IsAnswer, ToClusterFlow, FlowShare;
    TimeOfAnswer(CLUSTER, infos, states, states', seen, measure);
    TimeIs({(CLUSTER, 9)}, 9, infos[CLUSTER].time);
  }

  lemma SecondChildren(seen: Seen)
    requires SawBoth(seen)
    ensures MembersAll(seen.kids, ToClusterFlow, CLUSTER) == multiset{HUNDRED, FIFTY}
  {
    hide Alone, AtTenAndNine, AreBoth, MembersAll, ToClusterFlow, FlowShare;
    BothAreChildren(seen.kids);
  }

  lemma SecondAnswer(ok: bool, infos: Infos, states: States, states': States, seen: Seen, measure: Measure)
    requires SawBoth(seen) && Counted(StateOf(states, CLUSTER))
    requires IsAnswer(infos, states, states', seen, ToClusterFlow, measure)
    requires (ok <==> Complete(infos, seen, ToClusterFlow)) && (!ok ==> SomeFalls(infos, states, seen, ToClusterFlow))
    ensures CLUSTER in infos && infos[CLUSTER].parent.cumHipriBytes == 100
    ensures multiset(infos[CLUSTER].children) == multiset{HUNDRED, FIFTY}
  {
    hide SawBoth, MembersAll, Complete, SomeFalls, IsAnswer, ToClusterFlow, HostFlow;
    SecondIsShown(ok, infos, states, seen);
    SecondTime(infos, states, states', seen, measure);
    DroppedAt(CLUSTER, infos, states, states', seen, measure);
    SecondChildren(seen);
  }

  /** Both hosts' bundlers, as seen when nothing comes in between. */
  lemma SeenOne(seen: Seen, bundles: seq<BundleState>)
    requires |bundles| == 2 && AllNow(seen, bundles, 2, ToClusterFlow)
    requires Holds(bundles[0], HUNDRED, 10) && HoldsNothing(bundles[1])
    ensures SawOne(seen)
  {
    hide Holds, HoldsNothing, Alone, BundleState.Shares, BundleState.Active, StampsOf, ToClusterFlow, FlowShare;
    assert IsNow(seen, 0, bundles[0], ToClusterFlow) && IsNow(seen, 1, bundles[1], ToClusterFlow);
    SameCluster();
    SharesOfOne(bundles[0], HUNDRED, 10, ToClusterFlow);
    SharesOfNone(bundles[1], ToClusterFlow);
    IsAlone(seen.shares, FlowShare(HUNDRED, true), ZERO);
  }

  lemma SeenBoth(seen: Seen, bundles: seq<BundleState>)
    requires |bundles| == 2 && AllNow(seen, bundles, 2, ToClusterFlow)
    requires Holds(bundles[0], HUNDRED, 10) && Holds(bundles[1], FIFTY, 9)
    ensures SawBoth(seen)
  {
    hide Holds, Alone, BundleState.Shares, BundleState.Active, StampsOf, ToClusterFlow, FlowShare;
    assert IsNow(seen, 0, bundles[0], ToClusterFlow) && IsNow(seen, 1, bundles[1], ToClusterFlow);
    SameCluster();
    SharesOfOne(bundles[0], HUNDRED, 10, ToClusterFlow);
    SharesOfOne(bundles[1], FIFTY, 9, ToClusterFlow);
    IsAlone(seen.shares, FlowShare(HUNDRED, true), FlowShare(FIFTY, true));
  }

  lemma SameCluster()
    ensures ToClusterFlow(FIFTY.flow) == CLUSTER == ToClusterFlow(HUNDRED.flow)
  {
  }

  /** A host's first report. */
  method ReportOnce(agg: FlowAggregator, id: nat, time: int, info: FlowInfo)
    requires agg.Valid() && id < |agg.bundles| && agg.window >= 0 && HoldsNothing(agg.bundles[id])
    modifies agg`events, agg.bundles[id]
    ensures agg.Valid() && Holds(agg.bundles[id], info, time)
  {
    hide FlowAggregator.Valid, Moved, Report, LatestOf, Holds;
    NothingLatest(agg.bundles[id]);
    assert [info][0].flow == info.flow;
    agg.Update(id, time, [info]);
    agg.PartsOfValid();
    OneReport(agg.bundles[id], info, time);
  }

  /** ForEachAgg with no report in between. */
  method ShowNow(agg: FlowAggregator) returns (ok: bool, infos: Infos, ghost seen: Seen)
    requires agg.Valid() && |agg.bundles| == 2
    modifies agg`states, agg`shown, agg`totals, agg`marks, agg`events, agg`whole, agg.bundles
    ensures agg.Valid() && unchanged(agg.bundles) && AllNow(seen, agg.bundles, 2, agg.to)
    ensures IsAnswer(infos, old(agg.states), agg.states, seen, agg.to, agg.measure)
    ensures (ok <==> Complete(infos, seen, agg.to)) && (!ok ==> SomeFalls(infos, old(agg.states), seen, agg.to))
  {
    hide FlowAggregator.Valid, FlowAggregator.Orderly, IsAnswer, Complete, SomeFalls, AllNow, NoneFalls, NoneLate;
    var between: seq<seq<Event>> := [[], []];
    assert Joined(between) == [] by {
      assert between[..1] == [[]] && between[..1][..0] == [];
      assert Joined(between[..1]) == Joined(between[..1][..0]) + between[..1][0];
    }
    ok, infos, seen := agg.ForEachAgg(between);
  }

  /**
   One host reports a hundred bytes at ten; another reports fifty at nine, but later. The update is
   dropped: the parent keeps a hundred bytes while its children have a hundred and fifty.
   */
  method LateReportIsDropped(measure: Measure) returns (first: Infos, second: Infos)
    ensures CLUSTER in first && first[CLUSTER].parent.cumHipriBytes == 100
    ensures CLUSTER in second && second[CLUSTER].parent.cumHipriBytes == 100
    ensures multiset(second[CLUSTER].children) == multiset{HUNDRED, FIFTY}
  {
    hide FlowAggregator.Valid, IsAnswer, Complete, SomeFalls, AllNow, SawOne, SawBoth, Holds;
    var agg := new FlowAggregator(ToClusterFlow, 60, measure);
    var one := agg.GetBundlerId(HostFlow(1));
    var two := agg.GetBundlerId(HostFlow(2));
    ReportOnce(agg, one, 10, HUNDRED);
    var ok;
    ghost var seen;
    ok, first, seen := ShowNow(agg);
    SeenOne(seen, agg.bundles);
    FirstAnswer(ok, first, agg.states, seen, measure);
    ReportOnce(agg, two, 9, FIFTY);
    ghost var states := agg.states;
    ok, second, seen := ShowNow(agg);
    SeenBoth(seen, agg.bundles);
    SecondAnswer(ok, second, states, agg.states, seen, measure);
  }
}
