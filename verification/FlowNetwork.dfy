/**
 Hosts and their cluster over whole runs: hosts report their connections and send bundles again
 and again, bundles arrive late or never, and the cluster hands out what it holds.
 */
module FlowNetwork {
  import opened FlowSums
  import opened FlowConservation
  import opened FlowAccounting
  import opened FlowClocks
  import opened FlowTotals
  import opened FlowHistory
  import opened AggStates
  import opened FlowRecords
  import opened FlowAggregators
  import opened FlowStages

  // ---- A host ----

  lemma {:induction false} QuietVisits(n: nat)
    ensures var between: seq<seq<Event>> := seq(n, _ => []);
            Joined(between) == [] && Unbroken(between) && AreEvents(between, n)
  {
    if n > 0 {
      QuietVisits(n - 1);
      var between: seq<seq<Event>> := seq(n, _ => []);
      assert between[..n - 1] == seq(n - 1, _ => []);
    }
  }

  function HostMarker(host: nat): Flow {
    Flow("", "", "", host, "", "", 0, 0, 0, 0)
  }

  /** Everything a host sent so far is listed. */
  ghost predicate IsLog(log: seq<seq<FlowInfo>>, taken: seq<Snapshot>, exact: bool) {
    && |log| == |taken|
    && (forall k :: 0 <= k < |log| ==> Lists(log[k], taken[k].sent) && IsSnapshot(taken[k], exact))
  }

  /** Each bundle is what one call of ForEachAgg handed out. */
  ghost predicate AreShown(taken: seq<Snapshot>, shown: seq<Infos>) {
    |taken| == |shown| && forall k :: 0 <= k < |taken| ==> taken[k].sent == ParentsIn(shown[k])
  }

  /** What is handed out for one bundler makes a snapshot of its flows. */
  lemma MakesSnapshot(infos: Infos, states: States, states': States, seen: Seen, measure: Measure, shares: Flows, steady: bool)
    requires seen.shares == [shares] && IsAnswer(infos, states, states', seen, ToHostFlow, measure)
    requires Complete(infos, seen, ToHostFlow) && NoneNegative(states') && (steady ==> NoneLate(infos, states))
    ensures forall g :: g in infos ==> infos[g].parent.flow == g
    ensures IsSnapshot(Snapshot(ParentsIn(infos), shares, steady), Exact(measure))
  {
    hide Total, Group, Keys, HasMember, SumAll, IsTime, Union, MembersAll, ToHostFlow;
    forall g ensures g in infos <==> g in Keys(shares, ToHostFlow) {
      OneMember(shares, ToHostFlow, g);
      assert AnswerAt(g, infos, states, states', seen, ToHostFlow, measure);
    }
    forall g | g in infos
      ensures infos[g].parent.flow == g && infos[g].parent.cumHipriBytes >= 0 && infos[g].parent.cumLopriBytes >= 0
      ensures steady ==> Tells(infos[g].parent, Total(Group(shares, ToHostFlow, g)), Exact(measure))
    {
      assert AnswerAt(g, infos, states, states', seen, ToHostFlow, measure);
      SumOfSingle(shares, ToHostFlow, g);
      assert BytesNotAbove(Parent(g, NEW_STATE), Parent(g, StateOf(states', g)));
    }
  }

  lemma OneMember(m: Flows, to: Project, g: Flow)
    ensures HasMember([m], to, g) <==> g in Keys(m, to)
  {
    hide Keys;
    assert [m][0] == m;
  }

  lemma OneQuietVisit()
    ensures Joined([[]]) == [] && Unbroken([[]]) && AreEvents([[]], 1)
  {
    var between: seq<seq<Event>> := [[]];
    assert between[..0] == [];
  }

  lemma LogMore(log: seq<seq<FlowInfo>>, taken: seq<Snapshot>, exact: bool, bundle: seq<FlowInfo>, snap: Snapshot)
    requires IsLog(log, taken, exact) && Lists(bundle, snap.sent) && IsSnapshot(snap, exact)
    ensures IsLog(log + [bundle], taken + [snap], exact)
  {
    hide Lists, IsSnapshot;
  }

  lemma ShownMore(taken: seq<Snapshot>, shown: seq<Infos>, infos: Infos, snap: Snapshot)
    requires AreShown(taken, shown) && snap.sent == ParentsIn(infos)
    ensures AreShown(taken + [snap], shown + [infos])
  {
    hide ParentsIn;
  }

  /** One more snapshot, of these connections. */
  ghost predicate IsNext(taken: seq<Snapshot>, taken': seq<Snapshot>, conns: Flows, steady: bool) {
    && |taken'| == |taken| + 1 && taken'[..|taken|] == taken
    && taken'[|taken|].conns == conns && taken'[|taken|].steady == steady
  }

  /** HostDaemon with its aggregator, which has one bundler. */
  class HostStage {
    const agg: FlowAggregator
    const conn: BundleState
    var log: seq<seq<FlowInfo>>   // every bundle sent or logged so far
    ghost var taken: seq<Snapshot>

    constructor (host: nat, window: int, measure: Measure)
      ensures Valid() && log == [] && fresh(agg) && fresh(conn) && agg.measure == measure
      ensures agg.events == []
    {
      hide FlowAggregator.Valid, Exact;
      var a := new FlowAggregator(ToHostFlow, window, measure);
      var id := a.GetBundlerId(HostMarker(host));
      agg, conn := a, a.bundles[0];
      log, taken := [], [];
      new;
      assert agg.bundles == [conn];
    }

    ghost predicate Valid()
      reads this, agg, conn
    {
      && agg.to == ToHostFlow && agg.bundles == [conn] && agg.Valid()
      && IsLog(log, taken, Exact(agg.measure)) && AreShown(taken, agg.shown)
    }

    /** Every flow's counters only went up, and the reports came in the order of their times. */
    ghost predicate Steady()
      reads this, agg
    {
      agg.Orderly() && Timely(agg.events)
    }

    /** CollectStats. */
    method Report(timestamp: int, infos: seq<FlowInfo>)
      requires Valid()
      modifies agg`events, conn
      ensures Valid() && agg.events == old(agg.events) + [Event(0, timestamp, infos)]
      ensures conn.Latest() == FlowAccounting.Report(old(conn.Latest()), infos)
    {
      hide FlowAggregator.Valid, IsLog, AreShown, BundleState.Latest, Moved, Mentions;
      agg.Update(0, timestamp, infos);
    }

    /** ForEachAgg, with no report in between. */
    method Collect() returns (ok: bool, infos: Infos)
      requires agg.to == ToHostFlow && agg.bundles == [conn] && agg.Valid()
      modifies agg`states, agg`shown, agg`totals, agg`marks, agg`events, agg`whole, conn
      ensures unchanged(conn) && agg.Valid() && agg.events == old(agg.events)
      ensures Steady() ==> ok
      ensures Timely(agg.events) ==> NoneLate(infos, old(agg.states))
      ensures agg.shown == if ok then old(agg.shown) + [infos] else old(agg.shown)
      ensures ok ==> forall g :: g in infos ==> infos[g].parent.flow == g
      ensures ok ==> IsSnapshot(Snapshot(ParentsIn(infos), conn.Shares(), Steady()), Exact(agg.measure))
    {
      hide FlowAggregator.Valid, FlowAggregator.Orderly, BundleState.Shares, Timely, IsAnswer, Complete,
        SomeFalls, AllNow, NoneFalls, NoneLate, IsSnapshot, NoneNegative, Exact, Joined, Unbroken, AreEvents;
      ghost var seen, states := NOTHING_SEEN, agg.states;
      OneQuietVisit();
      ok, infos, seen := agg.ForEachAgg([[]]);
      OneBundlerIsWhole();
      if ok {
        SeenConn(seen);
        agg.NotNegative();
        MakesSnapshot(infos, states, agg.states, seen, agg.measure, conn.Shares(), Steady());
      }
    }

    /** SendInfos, or the log of the flows: a bundle of what is handed out now; ok is false where that fails. */
    method Send() returns (ok: bool)
      requires Valid()
      modifies this, agg`states, agg`shown, agg`totals, agg`marks, agg`events, agg`whole, conn
      ensures unchanged(conn) && Valid() && agg.events == old(agg.events)
      ensures Steady() ==> ok
      ensures ok ==> IsNext(old(taken), taken, conn.Shares(), Steady())
      ensures !ok ==> taken == old(taken)
    {
      hide FlowAggregator.Valid, FlowAggregator.Orderly, IsLog, AreShown, BundleState.Shares, Timely, IsSnapshot, Lists, Exact;
      var infos;
      ok, infos := Collect();
      if ok {
        var bundle := Bundle(infos);
        ghost var snap := Snapshot(ParentsIn(infos), conn.Shares(), Steady());
        LogMore(log, taken, Exact(agg.measure), bundle, snap);
        ShownMore(taken, old(agg.shown), infos, snap);
        log, taken := log + [bundle], taken + [snap];
      }
    }

    lemma SeenConn(seen: Seen)
      requires AllNow(seen, [conn], 1, ToHostFlow)
      ensures seen.shares == [conn.Shares()]
    {
      assert IsNow(seen, 0, [conn][0], ToHostFlow);
    }

    lemma OneBundlerIsWhole()
      requires agg.Valid() && |agg.bundles| == 1
      ensures agg.whole
    {
      hide IsRecord, AllFromTotals, FlowAggregator.Current, Rising, Timely, InTime, Dated;
    }

    /** What a host sends never goes down. */
    lemma SentRises(a: nat, b: nat)
      requires Valid() && a <= b < |taken|
      ensures RisesTo(taken[a].sent, taken[b].sent)
    {
      hide FlowAggregator.Valid, IsLog;
      forall g | g in taken[a].sent ensures g in taken[b].sent && BytesNotAbove(taken[a].sent[g], taken[b].sent[g]) {
        agg.NeverLower(a, b, g);
      }
    }
  }

  // ---- The cluster ----

  /** What the cluster has of one host is what the host sent last, and all of it is active. */
  ghost predicate SlotHolds(bs: BundleState, snap: Snapshot, exact: bool)
    reads bs
  {
    && IsSnapshot(snap, exact) && AllSameButPriority(snap.sent, bs.Latest())
    && bs.active.Keys == bs.Latest().Keys
  }

  lemma SlotShares(bs: BundleState, snap: Snapshot, exact: bool)
    requires bs.Valid() && SlotHolds(bs, snap, exact)
    ensures Holds(bs.Shares(), snap, exact)
  {
    hide IsSnapshot, AllSameButPriority, FlowShare;
    forall g | g in bs.Latest() ensures bs.Shares()[g] == FlowShare(bs.Latest()[g], true) {
      assert g in bs.active;
    }
    SharesHold(bs.Shares(), bs.Latest(), snap, exact);
  }

  lemma EmptySlot(bs: BundleState, exact: bool)
    requires bs.active == map[] && bs.dead == map[]
    ensures SlotHolds(bs, NOTHING_SENT, exact)
  {
    assert Keys(map[], ToHostFlow) == {};
  }

  lemma Arrived(bs: BundleState, before: Reports, infos: seq<FlowInfo>, lopri: FlowInfo -> bool, snap: Snapshot, exact: bool)
    requires Lists(infos, Marked(snap.sent, lopri)) && IsSnapshot(snap, exact) && before.Keys <= snap.sent.Keys
    requires bs.Latest() == Report(before, infos) && forall f :: Mentions(infos, f) ==> f in bs.active
    ensures SlotHolds(bs, snap, exact)
  {
    hide IsSnapshot, Report, Mentions;
    ReportOfList(before, infos, Marked(snap.sent, lopri));
    forall g | g in bs.Latest() ensures g in bs.active {
      assert Mentions(infos, g);
    }
  }

  /** The bytes handed out, by way of the hosts, against the connections themselves. */
  ghost predicate DirectAt(g: Flow, info: AggInfo, state: AggState, direct: Sums, exact: bool) {
    && (SameBytes(FlowShare(info.parent, false), direct) <==> !Late(state, info.time) || SameCounts(state, direct))
    && (exact && !Late(state, info.time) ==> info.parent.ewmaUsageBps == direct.usage)
  }

  ghost predicate ShowsDirect(infos: Infos, states: States, conns: seq<Flows>, exact: bool) {
    && (forall g :: g in infos ==> DirectAt(g, infos[g], StateOf(states, g), SumAll(conns, ToClusterFlow, g), exact))
    && (NoneLate(infos, states) ==> SameBytes(Total(ParentSums(infos)), TotalAll(conns)))
  }

  /** Some connection runs between the data centres that g stands for. */
  ghost predicate HasConnection(conns: seq<Flows>, g: Flow) {
    exists i, f :: 0 <= i < |conns| && f in conns[i] && IsClusterOf(g, f)
  }

  lemma MembersAreConnections(conns: seq<Flows>, g: Flow)
    ensures HasMember(conns, ToClusterFlow, g) <==> HasConnection(conns, g)
  {
    hide IsClusterOf, ToClusterFlow;
    if HasMember(conns, ToClusterFlow, g) {
      var i :| 0 <= i < |conns| && g in Keys(conns[i], ToClusterFlow);
      var f :| f in conns[i] && ToClusterFlow(f) == g;
      ClusterFlowIs(f, g);
    }
    if HasConnection(conns, g) {
      var i, f :| 0 <= i < |conns| && f in conns[i] && IsClusterOf(g, f);
      ClusterFlowIs(f, g);
      assert g in Keys(conns[i], ToClusterFlow);
    }
  }

  ghost predicate AllEmpty(bundles: seq<BundleState>)
    reads bundles
  {
    forall i :: 0 <= i < |bundles| ==> bundles[i].active == map[] && bundles[i].dead == map[]
  }

  lemma SameAggregates(infos: Infos, states: States, states': States, seen: Seen, measure: Measure, held: seq<Snapshot>, exact: bool)
    requires IsAnswer(infos, states, states', seen, ToClusterFlow, measure) && Complete(infos, seen, ToClusterFlow)
    requires AllHold(seen.shares, held, exact)
    ensures forall g :: g in infos <==> HasMember(ConnsOf(held), ToClusterFlow, g)
  {
    hide AllHold, HasMember, IsTime, MembersAll, Given;
    forall g ensures g in infos <==> HasMember(ConnsOf(held), ToClusterFlow, g) {
      assert AnswerAt(g, infos, states, states', seen, ToClusterFlow, measure);
      StagesHaveSame(seen.shares, held, exact, g);
    }
  }

  lemma DirectBytes(g: Flow, infos: Infos, states: States, states': States, seen: Seen, measure: Measure,
                    held: seq<Snapshot>, exact: bool)
    requires IsAnswer(infos, states, states', seen, ToClusterFlow, measure) && g in infos
    requires AllHold(seen.shares, held, exact) && AllSteady(held)
    ensures DirectAt(g, infos[g], StateOf(states, g), SumAll(ConnsOf(held), ToClusterFlow, g), exact && Exact(measure))
  {
    hide AllHold, AllSteady, SumAll, IsAnswer, HasMember, MembersAll, IsTime, ConnsOf;
    StagesAgree(seen.shares, held, exact, g);
    ShownBytes(g, infos, states, states', seen, ToClusterFlow, measure);
    assert AnswerAt(g, infos, states, states', seen, ToClusterFlow, measure) by {
      AnswerOf(g, infos, states, states', seen, measure);
    }
  }

  lemma AnswerOf(g: Flow, infos: Infos, states: States, states': States, seen: Seen, measure: Measure)
    requires IsAnswer(infos, states, states', seen, ToClusterFlow, measure)
    ensures AnswerAt(g, infos, states, states', seen, ToClusterFlow, measure)
  {
  }

  /** What is handed out against the connections, one by one and all together. */
  lemma Direct(infos: Infos, states: States, states': States, seen: Seen, measure: Measure, held: seq<Snapshot>, exact: bool)
    requires IsAnswer(infos, states, states', seen, ToClusterFlow, measure) && Complete(infos, seen, ToClusterFlow)
    requires AllHold(seen.shares, held, exact) && AllSteady(held)
    ensures ShowsDirect(infos, states, ConnsOf(held), exact && Exact(measure))
  {
    hide AllHold, AllSteady, SumAll, IsAnswer, Complete, HasMember, ConnsOf, Exact, Total, TotalAll, FlowShare, Covers;
    var conns := ConnsOf(held);
    forall g | g in infos
      ensures DirectAt(g, infos[g], StateOf(states, g), SumAll(conns, ToClusterFlow, g), exact && Exact(measure))
    {
      DirectBytes(g, infos, states, states', seen, measure, held, exact);
    }
    if NoneLate(infos, states) {
      SameAggregates(infos, states, states', seen, measure, held, exact);
      MembersAreCovered(infos.Keys, conns, ToClusterFlow);
      SumsConserve(conns, ToClusterFlow, infos.Keys);
      SameTotal(ParentSums(infos), SumsAt(conns, ToClusterFlow, infos.Keys));
    }
  }

  /** An aggregator with a bundler for each of n hosts. */
  method Register(n: nat, window: int, measure: Measure) returns (a: FlowAggregator)
    ensures fresh(a) && fresh(a.bundles) && a.Valid() && |a.bundles| == n && AllEmpty(a.bundles)
    ensures a.to == ToClusterFlow && a.window == window && a.measure == measure
    ensures a.events == [] && a.whole
  {
    hide FlowAggregator.Valid;
    a := new FlowAggregator(ToClusterFlow, window, measure);
    for i := 0 to n
      invariant fresh(a) && fresh(a.bundles) && a.Valid() && |a.bundles| == i && AllEmpty(a.bundles)
      invariant a.events == [] && a.whole && forall b :: b in a.ids ==> b.hostId < i
    {
      ghost var was := a.bundles;
      var id := a.GetBundlerId(HostMarker(i));
      assert forall j :: 0 <= j < i ==> a.bundles[j] == a.bundles[..i][j] == was[j];
    }
  }

  /** FullClusterController with its aggregator, which has one bundler for each host. */
  class ClusterStage {
    const agg: FlowAggregator
    const slots: seq<BundleState>
    ghost const exact: bool      // whether the hosts measure usage exactly
    ghost var held: seq<Snapshot> // what each host sent that arrived last

    constructor (n: nat, window: nat, measure: Measure, ghost exact: bool)
      ensures Valid() && |slots| == n && fresh(agg) && fresh(slots) && agg.measure == measure && this.exact == exact
      ensures agg.events == [] && agg.whole && held == seq(n, _ => NOTHING_SENT)
    {
      hide FlowAggregator.Valid, SlotHolds;
      var a := Register(n, window, measure);
      agg, slots := a, a.bundles;
      this.exact, held := exact, seq(n, _ => NOTHING_SENT);
      new;
      forall i | 0 <= i < n ensures SlotHolds(slots[i], held[i], exact) {
        EmptySlot(slots[i], exact);
      }
    }

    ghost predicate Valid()
      reads this, agg, slots
    {
      && agg.to == ToClusterFlow && agg.window >= 0 && agg.bundles == slots && agg.Valid() && agg.Orderly()
      && |held| == |slots| && forall i :: 0 <= i < |slots| ==> SlotHolds(slots[i], held[i], exact)
    }

    /** UpdateInfo. A bundle that rises from the last one keeps every counter from going down. */
    method Deliver(i: nat, timestamp: int, bundle: seq<FlowInfo>, lopri: FlowInfo -> bool, ghost snap: Snapshot)
      requires Valid() && i < |slots| && Lists(bundle, snap.sent) && IsSnapshot(snap, exact)
      requires RisesTo(held[i].sent, snap.sent)
      modifies this`held, agg`events, slots[i]
      ensures Valid() && held == old(held)[i := snap]
      ensures |agg.events| == |old(agg.events)| + 1 && agg.events[..|old(agg.events)|] == old(agg.events)
      ensures agg.events[|old(agg.events)|].timestamp == timestamp
    {
      hide FlowAggregator.Valid, AllNeverDecrease, Lists, RisesTo, AllSameButPriority, NoneBelowZero,
        BundleState.Latest, Moved, Mentions, Report, Marked, SlotHolds, IsSnapshot;
      var infos := Mark(bundle, lopri, snap.sent);
      Prepare(i, timestamp, infos, lopri, snap);
      agg.Update(i, timestamp, infos);
      Arrived(slots[i], old(slots[i].Latest()), infos, lopri, snap, exact);
      held := held[i := snap];
    }

    /** The bundle keeps the run orderly. */
    lemma Prepare(i: nat, timestamp: int, infos: seq<FlowInfo>, lopri: FlowInfo -> bool, snap: Snapshot)
      requires Valid() && i < |slots| && Lists(infos, Marked(snap.sent, lopri)) && IsSnapshot(snap, exact)
      requires RisesTo(held[i].sent, snap.sent)
      ensures slots[i].Latest().Keys <= snap.sent.Keys
      ensures forall j :: 0 <= j < |slots| && j != i ==> slots[j] != slots[i]
      ensures var events := agg.events + [Event(i, timestamp, infos)];
              IsHistory(|slots|, events) && AllNeverDecrease(Blank(|slots|), events)
    {
      hide FlowAggregator.Valid, Lists, AllSameButPriority, NoneBelowZero, BundleState.Latest, Mentions, Marked, After,
        NeverDecreases, AllNeverDecrease, FlowAggregator.Punctual;
      agg.PartsOfValid();
      assert SlotHolds(slots[i], held[i], exact);
      MarkedRises(slots[i].Latest(), held[i].sent, snap.sent, lopri);
      ListNeverDecreases(slots[i].Latest(), infos, Marked(snap.sent, lopri));
      NeverDecreaseSnoc(Blank(|slots|), agg.events, Event(i, timestamp, infos));
    }

    lemma SlotsHold(seen: Seen)
      requires Valid() && AllNow(seen, slots, |slots|, ToClusterFlow)
      ensures AllHold(seen.shares, held, exact)
    {
      hide FlowAggregator.Valid, FlowAggregator.Orderly, BundleState.Latest, BundleState.Shares, BundleState.Active, Holds, SlotHolds;
      agg.PartsOfValid();
      forall i | 0 <= i < |slots| ensures Holds(seen.shares[i], held[i], exact) {
        assert IsNow(seen, i, slots[i], ToClusterFlow);
        SlotShares(slots[i], held[i], exact);
      }
    }

    /** The cluster's ForEachAgg, with nothing arriving in between; it never fails. */
    method Show() returns (infos: Infos)
      requires Valid()
      modifies agg`states, agg`shown, agg`totals, agg`marks, agg`events, agg`whole, slots
      ensures unchanged(slots) && Valid() && agg.events == old(agg.events) && agg.whole == old(agg.whole)
      ensures agg.shown == old(agg.shown) + [infos]
      ensures forall g :: g in infos <==> HasMember(ConnsOf(held), ToClusterFlow, g)
      ensures AllSteady(held) ==> ShowsDirect(infos, old(agg.states), ConnsOf(held), exact && Exact(agg.measure))
      ensures Timely(agg.events) && agg.whole ==> NoneLate(infos, old(agg.states))
    {
      hide FlowAggregator.Valid, FlowAggregator.Orderly, SlotHolds, HasMember, ConnsOf, AllSteady, ShowsDirect, Exact, Timely,
        NoneLate, IsAnswer, Complete, SomeFalls, AllNow, NoneFalls, AllHold, AreEvents, Joined, Unbroken, HasSize;
      var n := |slots|;
      QuietVisits(n);
      ghost var states, seen := agg.states, NOTHING_SEEN;
      var ok;
      ok, infos, seen := agg.ForEachAgg(seq(n, _ => []));
      assert agg.events == old(agg.events) + [] == old(agg.events);
      SlotsHold(seen);
      SameAggregates(infos, states, agg.states, seen, agg.measure, held, exact);
      if AllSteady(held) {
        Direct(infos, states, agg.states, seen, agg.measure, held, exact);
      }
    }
  }

  // ---- Hosts and cluster ----

  ghost function LastOf(taken: seq<Snapshot>, n: nat): Snapshot
    requires n <= |taken|
  {
    if n == 0 then NOTHING_SENT else taken[n - 1]
  }

  /** No two hosts share anything, and none shares anything with the cluster. */
  ghost predicate AllApart(hosts: seq<HostStage>, cluster: ClusterStage) {
    && (forall i, j :: 0 <= i < j < |hosts| ==>
          hosts[i] != hosts[j] && hosts[i].agg != hosts[j].agg && hosts[i].conn != hosts[j].conn)
    && (forall i :: 0 <= i < |hosts| ==> hosts[i].agg != cluster.agg && hosts[i].conn !in cluster.slots)
  }

  /** Bundles of a host arrive in the order in which they were sent, late or never. */
  class Network {
    const hosts: seq<HostStage>
    const cluster: ClusterStage
    const measure: Measure   // how the hosts measure usage
    ghost var got: seq<nat>  // for each host, how many bundles it had sent up to the one that arrived last

    constructor (n: nat, window: int, measure: Measure, clusterWindow: nat, clusterMeasure: Measure)
      ensures Valid() && |hosts| == n && this.measure == measure && got == seq(n, _ => 0)
    {
      hide HostStage.Valid, ClusterStage.Valid, Exact;
      var c := new ClusterStage(n, clusterWindow, clusterMeasure, Exact(measure));
      var hs: seq<HostStage> := [];
      for i := 0 to n
        invariant |hs| == i && c.Valid() && c.agg.measure == clusterMeasure && c.held == seq(n, _ => NOTHING_SENT)
        invariant forall j :: 0 <= j < i ==> hs[j].Valid() && hs[j].agg.measure == measure && hs[j].log == []
        invariant AllApart(hs, c)
      {
        var h := new HostStage(i, window, measure);
        hs := hs + [h];
      }
      hosts, cluster, this.measure, got := hs, c, measure, seq(n, _ => 0);
    }

    ghost predicate HostIsValid(i: nat)
      requires i < |hosts|
      reads hosts[i], hosts[i].agg, hosts[i].conn
    {
      hosts[i].Valid() && hosts[i].agg.measure == measure
    }

    ghost predicate HostsAreValid()
      reads hosts, (set h | h in hosts :: h.agg), (set h | h in hosts :: h.conn)
    {
      forall i :: 0 <= i < |hosts| ==> HostIsValid(i)
    }

    /** What the cluster holds of host i is the bundle that arrived last. */
    ghost predicate LinkedAt(i: nat)
      requires i < |hosts|
      reads this, cluster, hosts[i]
    {
      && i < |got| && i < |cluster.held| && got[i] <= |hosts[i].taken|
      && cluster.held[i] == LastOf(hosts[i].taken, got[i])
    }

    ghost predicate Linked()
      reads this, cluster, hosts
    {
      |hosts| == |got| == |cluster.held| && forall i :: 0 <= i < |hosts| ==> LinkedAt(i)
    }

    ghost predicate Valid()
      reads this, cluster, cluster.agg, cluster.slots, hosts, (set h | h in hosts :: h.agg), (set h | h in hosts :: h.conn)
    {
      && AllApart(hosts, cluster) && cluster.exact == Exact(measure) && Linked() && HostsAreValid() && cluster.Valid()
    }

    method Report(i: nat, timestamp: int, infos: seq<FlowInfo>)
      requires Valid() && i < |hosts|
      modifies hosts[i].agg`events, hosts[i].conn
      ensures Valid() && hosts[i].agg.events == old(hosts[i].agg.events) + [Event(0, timestamp, infos)]
      ensures hosts[i].conn.Latest() == FlowAccounting.Report(old(hosts[i].conn.Latest()), infos)
    {
      hide HostStage.Valid, ClusterStage.Valid, BundleState.Latest;
      assert HostIsValid(i);
      hosts[i].Report(timestamp, infos);
      forall j | 0 <= j < |hosts| ensures HostIsValid(j) {
        assert j != i ==> old(HostIsValid(j));
      }
    }

    method Send(i: nat) returns (ok: bool)
      requires Valid() && i < |hosts|
      modifies hosts[i], hosts[i].agg, hosts[i].conn
      ensures Valid() && hosts[i].agg.events == old(hosts[i].agg.events) && unchanged(hosts[i].conn)
      ensures hosts[i].Steady() ==> ok
      ensures ok ==> IsNext(old(hosts[i].taken), hosts[i].taken, hosts[i].conn.Shares(), hosts[i].Steady())
      ensures !ok ==> hosts[i].taken == old(hosts[i].taken)
    {
      hide HostStage.Valid, HostStage.Steady, ClusterStage.Valid, BundleState.Shares;
      assert HostIsValid(i) && LinkedAt(i);
      ok := hosts[i].Send();
      forall j | 0 <= j < |hosts| ensures HostIsValid(j) && LinkedAt(j) {
        assert j != i ==> old(HostIsValid(j)) && old(LinkedAt(j));
      }
    }

    /** A bundle that is not older than the last one arrives. */
    method Deliver(i: nat, k: nat, timestamp: int, lopri: FlowInfo -> bool)
      requires Valid() && i < |hosts| && got[i] <= k + 1 <= |hosts[i].taken|
      modifies this`got, cluster`held, cluster.agg`events, cluster.slots
      ensures Valid() && got == old(got)[i := k + 1] && cluster.held == old(cluster.held)[i := hosts[i].taken[k]]
      ensures |cluster.agg.events| == |old(cluster.agg.events)| + 1
      ensures cluster.agg.events[..|old(cluster.agg.events)|] == old(cluster.agg.events)
      ensures cluster.agg.events[|old(cluster.agg.events)|].timestamp == timestamp
    {
      hide HostStage.Valid, ClusterStage.Valid, Lists, IsSnapshot, RisesTo, Exact;
      ArrivesRisen(i, k);
      cluster.Deliver(i, timestamp, hosts[i].log[k], lopri, hosts[i].taken[k]);
      got := got[i := k + 1];
      forall j | 0 <= j < |hosts| ensures HostIsValid(j) && LinkedAt(j) {
        assert old(HostIsValid(j)) && old(LinkedAt(j));
      }
    }

    lemma ArrivesRisen(i: nat, k: nat)
      requires Valid() && i < |hosts| && got[i] <= k + 1 <= |hosts[i].taken|
      ensures i < |cluster.slots| && k < |hosts[i].log|
      ensures Lists(hosts[i].log[k], hosts[i].taken[k].sent) && IsSnapshot(hosts[i].taken[k], Exact(measure))
      ensures RisesTo(cluster.held[i].sent, hosts[i].taken[k].sent)
    {
      hide FlowAggregator.Valid, FlowAggregator.Orderly, SlotHolds, Lists, IsSnapshot, Exact, AreShown;
      assert HostIsValid(i) && LinkedAt(i);
      if got[i] > 0 {
        hosts[i].SentRises(got[i] - 1, k);
      }
    }

    method Show() returns (infos: Infos)
      requires Valid()
      modifies cluster, cluster.agg, cluster.slots
      ensures unchanged(cluster.slots) && Valid() && cluster.held == old(cluster.held)
      ensures cluster.agg.events == old(cluster.agg.events) && cluster.agg.whole == old(cluster.agg.whole)
      ensures cluster.agg.shown == old(cluster.agg.shown) + [infos]
      ensures forall g :: g in infos <==> HasMember(ConnsOf(cluster.held), ToClusterFlow, g)
      ensures forall g :: g in infos <==> HasConnection(ConnsOf(cluster.held), g)
      ensures AllSteady(cluster.held) ==>
                ShowsDirect(infos, old(cluster.agg.states), ConnsOf(cluster.held), Exact(measure) && Exact(cluster.agg.measure))
      ensures Timely(cluster.agg.events) && cluster.agg.whole ==> NoneLate(infos, old(cluster.agg.states))
    {
      hide HostStage.Valid, ClusterStage.Valid, HasMember, HasConnection, ConnsOf, AllSteady, ShowsDirect, Exact, Timely, NoneLate;
      infos := cluster.Show();
      forall g ensures g in infos <==> HasConnection(ConnsOf(cluster.held), g) {
        MembersAreConnections(ConnsOf(cluster.held), g);
      }
    }
  }
}
