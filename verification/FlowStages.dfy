/**
 Two aggregators in a row: hosts sum up their connections and send one flow for each aggregate,
 and the cluster sums up what the hosts send. What a bundle says about the connections of its
 host, and what the sums of several hosts say about all connections.
 */
module FlowStages {
  import opened FlowSums
  import opened FlowConservation
  import opened FlowAccounting
  import opened FlowTotals
  import opened AggStates
  import opened FlowRecords

  // ---- Parts of sums ----

  /** The parts of the sums that are compared; a part of a sum is the sum of the parts. */
  type Side = Sums -> Sums

  ghost predicate Additive(part: Side) {
    part(ZERO) == ZERO && forall x, y :: part(Plus(x, y)) == Plus(part(x), part(y))
  }

  function Bytes(s: Sums): Sums {
    Sums(s.cumHipri, s.cumLopri, 0, 0, 0)
  }

  function BytesAndUsage(s: Sums): Sums {
    Sums(s.cumHipri, s.cumLopri, s.usage, 0, 0)
  }

  ghost predicate SameParts(m: Flows, m': Flows, part: Side) {
    m.Keys == m'.Keys && forall f :: f in m ==> part(m[f]) == part(m'[f])
  }

  lemma {:induction false} PartsOfTotal(m: Flows, m': Flows, part: Side)
    requires Additive(part) && SameParts(m, m', part)
    ensures part(Total(m)) == part(Total(m'))
    decreases |m|
  {
    hide Total, Plus, Additive;
    if m == map[] {
      assert m' == map[];
    } else {
      var f :| f in m;
      TotalRemove(m, f);
      TotalRemove(m', f);
      assert SameParts(m - {f}, m' - {f}, part);
      PartsOfTotal(m - {f}, m' - {f}, part);
      PartOfSum(part, m[f], Total(m - {f}));
      PartOfSum(part, m'[f], Total(m' - {f}));
    }
  }

  lemma PartOfSum(part: Side, x: Sums, y: Sums)
    requires Additive(part)
    ensures part(Plus(x, y)) == Plus(part(x), part(y))
  {
  }

  lemma SameGroup(m: Flows, m': Flows, part: Side, to: Project, g: Flow)
    requires SameParts(m, m', part)
    ensures SameParts(Group(m, to, g), Group(m', to, g), part)
  {
  }

  // ---- From connections to hosts to clusters ----

  lemma SumOfSingle(m: Flows, to: Project, g: Flow)
    ensures SumAll([m], to, g) == Total(Group(m, to, g))
  {
    hide Total, Group;
    assert [m][..0] == [];
  }

  lemma FoldInTwoSteps(m: Flows, g: Flow)
    ensures Total(Group(Fold(m, ToHostFlow), ToClusterFlow, g)) == Total(Group(m, ToClusterFlow, g))
  {
    hide Total, Group, Keys, SumAll, ToHostFlow, ToClusterFlow;
    var keys := Keys(m, ToHostFlow);
    forall h ensures SumAll([m], ToHostFlow, h) == Total(Group(m, ToHostFlow, h)) {
      SumOfSingle(m, ToHostFlow, h);
    }
    assert SumsAt([m], ToHostFlow, keys) == Fold(m, ToHostFlow);
    SumOfSingle(m, ToClusterFlow, g);
    ClusterOfHost();
    SumsInTwoSteps([m], ToHostFlow, ToClusterFlow, keys, g);
  }

  lemma ClusterOfHost()
    ensures forall f :: ToClusterFlow(ToHostFlow(f)) == ToClusterFlow(f)
  {
  }

  lemma OneHost(report: Flows, conns: Flows, part: Side, g: Flow)
    requires Additive(part) && SameParts(report, Fold(conns, ToHostFlow), part)
    ensures part(Total(Group(report, ToClusterFlow, g))) == part(Total(Group(conns, ToClusterFlow, g)))
  {
    hide Total, Group, Fold, SameParts, Additive;
    SameGroup(report, Fold(conns, ToHostFlow), part, ToClusterFlow, g);
    PartsOfTotal(Group(report, ToClusterFlow, g), Group(Fold(conns, ToHostFlow), ToClusterFlow, g), part);
    FoldInTwoSteps(conns, g);
  }

  ghost predicate AllFolded(reports: seq<Flows>, conns: seq<Flows>, part: Side) {
    |reports| == |conns| && forall i :: 0 <= i < |conns| ==> SameParts(reports[i], Fold(conns[i], ToHostFlow), part)
  }

  /** A cluster gets from the hosts what it would get from the connections. */
  lemma {:induction false} ThroughHosts(reports: seq<Flows>, conns: seq<Flows>, part: Side, g: Flow)
    requires Additive(part) && AllFolded(reports, conns, part)
    ensures part(SumAll(reports, ToClusterFlow, g)) == part(SumAll(conns, ToClusterFlow, g))
  {
    hide Total, Group, SameParts, Plus, Fold;
    if conns != [] {
      hide Additive;
      var k := |conns| - 1;
      ThroughHosts(reports[..k], conns[..k], part, g);
      OneHost(reports[k], conns[k], part, g);
      PartOfSum(part, Total(Group(reports[k], ToClusterFlow, g)), SumAll(reports[..k], ToClusterFlow, g));
      PartOfSum(part, Total(Group(conns[k], ToClusterFlow, g)), SumAll(conns[..k], ToClusterFlow, g));
    }
  }

  // ---- Bundles ----

  /** What a host sent and what it held then; steady if all its reports so far came as they should. */
  datatype Snapshot = Snapshot(sent: Reports, conns: Flows, steady: bool)

  const NOTHING_SENT: Snapshot := Snapshot(map[], map[], true)

  /** The usage that is measured is what the children's usage adds up to. */
  ghost predicate Exact(measure: Measure) {
    forall state, time, sums :: measure(state, time, sums) == sums.usage
  }

  /** A flow with the sums of the connections it stands for. */
  ghost predicate Tells(info: FlowInfo, sums: Sums, exact: bool) {
    && info.cumHipriBytes == sums.cumHipri && info.cumLopriBytes == sums.cumLopri
    && (exact ==> info.ewmaUsageBps == sums.usage)
  }

  ghost predicate NoneBelowZero(m: Reports) {
    forall g :: g in m ==> m[g].cumHipriBytes >= 0 && m[g].cumLopriBytes >= 0
  }

  /** One flow for each aggregate; and if steady, each with the sums of its connections. */
  ghost predicate IsSnapshot(snap: Snapshot, exact: bool) {
    && snap.sent.Keys == Keys(snap.conns, ToHostFlow) && Keyed(snap.sent)
    && NoneBelowZero(snap.sent)
    && (snap.steady ==>
          forall g :: g in snap.sent ==> Tells(snap.sent[g], Total(Group(snap.conns, ToHostFlow, g)), exact))
  }

  /** Nothing is missing later, and no counter is lower. */
  ghost predicate RisesTo(m: Reports, m': Reports) {
    forall g :: g in m ==> g in m' && BytesNotAbove(m[g], m'[g])
  }

  /** A list of reports, each once and in any order. */
  ghost predicate Lists(infos: seq<FlowInfo>, m: Reports) {
    && (forall g :: Mentions(infos, g) <==> g in m)
    && (forall k :: 0 <= k < |infos| ==> infos[k].flow in m && infos[k] == m[infos[k].flow])
    && (forall j, k :: 0 <= j < k < |infos| ==> infos[j].flow != infos[k].flow)
  }

  ghost function ParentsIn(infos: Infos): Reports {
    map g | g in infos :: infos[g].parent
  }

  /** A bundle of what ForEachAgg handed out. */
  method Bundle(infos: Infos) returns (bundle: seq<FlowInfo>)
    requires forall g :: g in infos ==> infos[g].parent.flow == g
    ensures Lists(bundle, ParentsIn(infos))
  {
    bundle := [];
    var todo := infos.Keys;
    ghost var done: Reports := map[];
    while todo != {}
      invariant todo <= infos.Keys && done == map g | g in infos && g !in todo :: infos[g].parent
      invariant Lists(bundle, done)
      decreases |todo|
    {
      var g :| g in todo;
      ListsOneMore(bundle, done, infos[g].parent);
      bundle := bundle + [infos[g].parent];
      done := done[g := infos[g].parent];
      todo := todo - {g};
    }
    assert done == ParentsIn(infos);
  }

  lemma ListsOneMore(infos: seq<FlowInfo>, m: Reports, info: FlowInfo)
    requires Lists(infos, m) && info.flow !in m
    ensures Lists(infos + [info], m[info.flow := info])
  {
    var infos', m' := infos + [info], m[info.flow := info];
    assert infos'[..|infos| + 1] == infos' && infos'[..|infos|] == infos;
    forall g ensures Mentions(infos', g) <==> g in m' {
      MentionsSnoc(infos', |infos|, g);
    }
    forall k | 0 <= k < |infos'| ensures infos'[k].flow in m' && infos'[k] == m'[infos'[k].flow] {
      assert k < |infos| ==> infos'[k] == infos[k];
    }
  }

  // ---- What the cluster holds of a host ----

  /** The same report, perhaps with another priority. */
  ghost predicate SameButPriority(info: FlowInfo, info': FlowInfo) {
    info'.(currentlyLopri := info.currentlyLopri) == info
  }

  ghost predicate AllSameButPriority(m: Reports, m': Reports) {
    m.Keys == m'.Keys && forall g :: g in m ==> SameButPriority(m[g], m'[g])
  }

  ghost function Marked(m: Reports, lopri: FlowInfo -> bool): Reports {
    map g | g in m :: m[g].(currentlyLopri := lopri(m[g]))
  }

  /** UpdateInfo: each flow is given the priority that was last allocated to it, or keeps its own. */
  method Mark(bundle: seq<FlowInfo>, lopri: FlowInfo -> bool, ghost sent: Reports) returns (infos: seq<FlowInfo>)
    requires Lists(bundle, sent)
    ensures Lists(infos, Marked(sent, lopri))
  {
    infos := [];
    for k := 0 to |bundle|
      invariant |infos| == k
      invariant forall j :: 0 <= j < k ==> infos[j] == bundle[j].(currentlyLopri := lopri(bundle[j]))
    {
      infos := infos + [bundle[k].(currentlyLopri := lopri(bundle[k]))];
    }
    forall g ensures Mentions(infos, g) <==> g in Marked(sent, lopri) {
      assert Mentions(bundle, g) <==> g in sent;
      SameMentions(bundle, infos, g);
    }
  }

  lemma SameMentions(a: seq<FlowInfo>, b: seq<FlowInfo>, g: Flow)
    requires |a| == |b| && forall k :: 0 <= k < |a| ==> a[k].flow == b[k].flow
    ensures Mentions(a, g) <==> Mentions(b, g)
  {
    if Mentions(a, g) {
      var k :| 0 <= k < |a| && a[k].flow == g;
      assert b[k].flow == g;
    }
    if Mentions(b, g) {
      var k :| 0 <= k < |b| && b[k].flow == g;
      assert a[k].flow == g;
    }
  }

  /** Marking changes nothing but priorities. */
  lemma MarkedRises(latest: Reports, was: Reports, sent: Reports, lopri: FlowInfo -> bool)
    requires AllSameButPriority(was, latest) && RisesTo(was, sent) && NoneBelowZero(sent)
    ensures AllSameButPriority(sent, Marked(sent, lopri)) && latest.Keys <= sent.Keys
    ensures RisesTo(latest, Marked(sent, lopri)) && NoneBelowZero(Marked(sent, lopri))
  {
    forall g | g in latest
      ensures g in Marked(sent, lopri) && BytesNotAbove(latest[g], Marked(sent, lopri)[g])
    {
      assert SameButPriority(was[g], latest[g]) && BytesNotAbove(was[g], sent[g]);
    }
  }

  /** A bundle that names every flow known so far replaces all reports. */
  lemma ReportOfList(m: Reports, infos: seq<FlowInfo>, m': Reports)
    requires Lists(infos, m') && m.Keys <= m'.Keys
    ensures Report(m, infos) == m'
  {
    hide Report;
    forall g ensures g in Report(m, infos) <==> g in m' {
      ReportKeeps(m, infos, g);
    }
    forall g | g in m' ensures Report(m, infos)[g] == m'[g] {
      assert Mentions(infos, g);
      var k :| 0 <= k < |infos| && infos[k].flow == g;
      ReportIsLast(m, infos, k);
    }
  }

  /** A bundle that rises from what was known keeps the counters from going down. */
  lemma ListNeverDecreases(m: Reports, infos: seq<FlowInfo>, m': Reports)
    requires Lists(infos, m') && RisesTo(m, m') && NoneBelowZero(m')
    ensures NeverDecreases(m, infos)
  {
    hide Report;
    forall k | 0 <= k < |infos| ensures GrowsFrom(Report(m, infos[..k]), infos[k]) {
      var f, before := infos[k].flow, infos[..k];
      assert !Mentions(before, f);
      ReportKeeps(m, before, f);
    }
  }

  lemma NeverDecreaseSnoc(start: seq<Reports>, events: seq<Event>, e: Event)
    requires IsHistory(|start|, events) && AllNeverDecrease(start, events) && e.bundler < |start|
    requires NeverDecreases(After(start, events)[e.bundler], e.infos)
    ensures IsHistory(|start|, events + [e]) && AllNeverDecrease(start, events + [e])
  {
    hide NeverDecreases, After;
    var all := events + [e];
    assert all[..|events|] == events;
    forall k | 0 <= k < |all| ensures NeverDecreases(After(start, all[..k])[all[k].bundler], all[k].infos) {
      if k < |events| {
        assert all[..k] == events[..k] && all[k] == events[k];
      }
    }
  }

  /** The flows of a bundle, as the cluster sums them up, are the sums of the host's connections. */
  ghost predicate Holds(shares: Flows, snap: Snapshot, exact: bool) {
    && shares.Keys == Keys(snap.conns, ToHostFlow)
    && (snap.steady ==> SameParts(shares, Fold(snap.conns, ToHostFlow), Bytes))
    && (snap.steady && exact ==> SameParts(shares, Fold(snap.conns, ToHostFlow), BytesAndUsage))
  }

  lemma SharesHold(shares: Flows, latest: Reports, snap: Snapshot, exact: bool)
    requires IsSnapshot(snap, exact) && AllSameButPriority(snap.sent, latest)
    requires shares.Keys == latest.Keys && forall g :: g in latest ==> shares[g] == FlowShare(latest[g], true)
    ensures Holds(shares, snap, exact)
  {
    hide Total, Group, Keys;
    var fold := Fold(snap.conns, ToHostFlow);
    forall g | g in shares
      ensures snap.steady ==> Bytes(shares[g]) == Bytes(fold[g])
      ensures snap.steady && exact ==> BytesAndUsage(shares[g]) == BytesAndUsage(fold[g])
    {
      assert SameButPriority(snap.sent[g], latest[g]);
      assert snap.steady ==> Tells(snap.sent[g], Total(Group(snap.conns, ToHostFlow, g)), exact);
    }
  }

  ghost function ConnsOf(held: seq<Snapshot>): seq<Flows> {
    seq(|held|, i requires 0 <= i < |held| => held[i].conns)
  }

  ghost predicate AllHold(shares: seq<Flows>, held: seq<Snapshot>, exact: bool) {
    |shares| == |held| && forall i :: 0 <= i < |held| ==> Holds(shares[i], held[i], exact)
  }

  ghost predicate AllSteady(held: seq<Snapshot>) {
    forall i :: 0 <= i < |held| ==> held[i].steady
  }

  /** The cluster's sums by way of the hosts and straight from the connections. */
  lemma StagesAgree(shares: seq<Flows>, held: seq<Snapshot>, exact: bool, g: Flow)
    requires AllHold(shares, held, exact) && AllSteady(held)
    ensures Bytes(SumAll(shares, ToClusterFlow, g)) == Bytes(SumAll(ConnsOf(held), ToClusterFlow, g))
    ensures exact ==> BytesAndUsage(SumAll(shares, ToClusterFlow, g)) == BytesAndUsage(SumAll(ConnsOf(held), ToClusterFlow, g))
  {
    hide SumAll, SameParts, Fold, Keys;
    var conns := ConnsOf(held);
    assert AllFolded(shares, conns, Bytes) && (exact ==> AllFolded(shares, conns, BytesAndUsage)) by {
      forall i | 0 <= i < |held|
        ensures SameParts(shares[i], Fold(conns[i], ToHostFlow), Bytes)
        ensures exact ==> SameParts(shares[i], Fold(conns[i], ToHostFlow), BytesAndUsage)
      {
        assert Holds(shares[i], held[i], exact) && held[i].steady;
      }
    }
    ThroughHosts(shares, conns, Bytes, g);
    if exact {
      ThroughHosts(shares, conns, BytesAndUsage, g);
    }
  }

  lemma KeysInTwoSteps(shares: Flows, conns: Flows, g: Flow)
    requires shares.Keys == Keys(conns, ToHostFlow)
    ensures g in Keys(shares, ToClusterFlow) <==> g in Keys(conns, ToClusterFlow)
  {
    ClusterOfHost();
    if g in Keys(shares, ToClusterFlow) {
      var h :| h in shares && ToClusterFlow(h) == g;
      var f :| f in conns && ToHostFlow(f) == h;
      assert ToClusterFlow(f) == g;
    }
    if g in Keys(conns, ToClusterFlow) {
      var f :| f in conns && ToClusterFlow(f) == g;
      assert ToHostFlow(f) in shares;
    }
  }

  /** The cluster knows an aggregate exactly if some host has a connection of it. */
  lemma StagesHaveSame(shares: seq<Flows>, held: seq<Snapshot>, exact: bool, g: Flow)
    requires AllHold(shares, held, exact)
    ensures HasMember(shares, ToClusterFlow, g) <==> HasMember(ConnsOf(held), ToClusterFlow, g)
  {
    hide Keys, SameParts;
    var conns := ConnsOf(held);
    forall i | 0 <= i < |held|
      ensures g in Keys(shares[i], ToClusterFlow) <==> g in Keys(conns[i], ToClusterFlow)
    {
      assert Holds(shares[i], held[i], exact);
      KeysInTwoSteps(shares[i], conns[i], g);
    }
  }
}
