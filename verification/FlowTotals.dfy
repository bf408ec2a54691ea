/** The accumulation of ForEachAgg over all bundlers, and what it means over whole runs. */
module FlowTotals {
  import opened Wrappers
  import opened Sequences
  import opened FlowSums
  import opened FlowConservation
  import opened FlowAccounting
  import opened FlowClocks

  /** None stands for the infinite future of oldestActive and for the infinite past of newestDead. */
  datatype AggWip = AggWip(sums: Sums, children: seq<FlowInfo>, oldestActive: Option<int>, newestDead: Option<int>)

  const NEW_WIP := AggWip(ZERO, [], None, None)

  type Wips = map<Flow, AggWip>

  ghost function SumOf(wips: Wips, g: Flow): Sums {
    if g in wips then wips[g].sums else ZERO
  }

  /** The sums alone. */
  ghost function SumsOf(wips: Wips): Flows {
    map g | g in wips :: wips[g].sums
  }

  ghost function ChildrenOf(wips: Wips, g: Flow): multiset<FlowInfo> {
    if g in wips then multiset(wips[g].children) else multiset{}
  }

  ghost function OldestOf(wips: Wips, g: Flow): Option<int> {
    if g in wips then wips[g].oldestActive else None
  }

  ghost function NewestOf(wips: Wips, g: Flow): Option<int> {
    if g in wips then wips[g].newestDead else None
  }

  ghost function MemberSet(m: Reports, to: Project, g: Flow): set<FlowInfo> {
    set f | f in m && to(f) == g :: m[f]
  }

  /** The reports whose flow belongs to g, each once. */
  ghost function Members(m: Reports, to: Project, g: Flow): multiset<FlowInfo> {
    multiset(MemberSet(m, to, g))
  }

  ghost predicate Keyed(m: Reports) {
    forall f :: f in m ==> m[f].flow == f
  }

  lemma MemberSetInsert(m: Reports, to: Project, i: FlowInfo, g: Flow)
    requires Keyed(m) && i.flow !in m
    ensures i !in MemberSet(m, to, g)
    ensures MemberSet(m[i.flow := i], to, g) ==
            MemberSet(m, to, g) + if to(i.flow) == g then {i} else {}
  {
    var a, m' := MemberSet(m, to, g), m[i.flow := i];
    var b := MemberSet(m', to, g);
    forall x | x in a ensures x in b {
      assert x.flow in m' && m'[x.flow] == x;
    }
    if to(i.flow) == g {
      assert i.flow in m' && m'[i.flow] == i;
    }
  }

  lemma MembersInsert(m: Reports, to: Project, i: FlowInfo, g: Flow)
    requires Keyed(m) && i.flow !in m
    ensures Members(m[i.flow := i], to, g) ==
            Members(m, to, g) + if to(i.flow) == g then multiset{i} else multiset{}
  {
    hide MemberSet;
    MemberSetInsert(m, to, i, g);
  }

  lemma NoMembers(m: Reports, to: Project, g: Flow)
    requires m == map[]
    ensures Members(m, to, g) == multiset{}
  {
    assert MemberSet(m, to, g) == {};
  }

  /** What adding one flow does to every aggregate. */
  ghost predicate Added(wips: Wips, wips': Wips, to: Project, info: FlowInfo, active: bool) {
    && wips'.Keys == wips.Keys + {to(info.flow)}
    && (forall g :: SumOf(wips', g) ==
         (if to(info.flow) == g then Plus(FlowShare(info, active), SumOf(wips, g)) else SumOf(wips, g)))
    && (forall g :: ChildrenOf(wips', g) ==
         ChildrenOf(wips, g) + (if active && to(info.flow) == g then multiset{info} else multiset{}))
  }

  /** What adding one flow does to every aggregate's times. */
  ghost predicate TimeAdded(wips: Wips, wips': Wips, to: Project, timed: Timed, active: bool) {
    && (forall g :: OldestOf(wips', g) ==
         (if active && to(timed.info.flow) == g then Earlier(OldestOf(wips, g), timed.time) else OldestOf(wips, g)))
    && (forall g :: NewestOf(wips', g) ==
         (if !active && to(timed.info.flow) == g then Later(NewestOf(wips, g), timed.time) else NewestOf(wips, g)))
  }

  /** The usage of these flows, and of those at one priority. */
  ghost function UsageOf(children: seq<FlowInfo>): int {
    if children == [] then 0
    else UsageOf(children[..|children| - 1]) + children[|children| - 1].ewmaUsageBps
  }

  ghost function UsageAt(children: seq<FlowInfo>, lopri: bool): int {
    if children == [] then 0
    else
      var last := children[|children| - 1];
      UsageAt(children[..|children| - 1], lopri) + if last.currentlyLopri == lopri then last.ewmaUsageBps else 0
  }

  /** The usage in the sums is that of the children, in all and by priority. */
  ghost predicate Tally(children: seq<FlowInfo>, s: Sums) {
    && s.usage == UsageOf(children)
    && s.usageHipri == UsageAt(children, false) && s.usageLopri == UsageAt(children, true)
  }

  ghost predicate Tallied(wips: Wips) {
    forall g :: g in wips ==> Tally(wips[g].children, wips[g].sums)
  }

  lemma UsageSnoc(children: seq<FlowInfo>, info: FlowInfo, lopri: bool)
    ensures UsageOf(children + [info]) == UsageOf(children) + info.ewmaUsageBps
    ensures UsageAt(children + [info], lopri) ==
            UsageAt(children, lopri) + if info.currentlyLopri == lopri then info.ewmaUsageBps else 0
  {
    TakeAppend(children, [info]);
  }

  /** GetAggWIP followed by the additions for one flow. */
  method AddFlow(wips: Wips, to: Project, timed: Timed, active: bool) returns (wips': Wips)
    ensures Added(wips, wips', to, timed.info, active)
    ensures TimeAdded(wips, wips', to, timed, active)
    ensures Tallied(wips) ==> Tallied(wips')
  {
    hide Tallied, Tally;
    var info := timed.info;
    var m := to(info.flow);
    var wip := if m in wips then wips[m] else NEW_WIP;
    var s := wip.sums;
    s := s.(cumHipri := s.cumHipri + info.cumHipriBytes, cumLopri := s.cumLopri + info.cumLopriBytes);
    if active {
      s := s.(usage := s.usage + info.ewmaUsageBps);
      if info.currentlyLopri {
        s := s.(usageLopri := s.usageLopri + info.ewmaUsageBps);
      } else {
        s := s.(usageHipri := s.usageHipri + info.ewmaUsageBps);
      }
    }
    var wip' := if active
                then AggWip(s, wip.children + [info], Earlier(wip.oldestActive, timed.time), wip.newestDead)
                else AggWip(s, wip.children, wip.oldestActive, Later(wip.newestDead, timed.time));
    wips' := wips[m := wip'];
    assert multiset(wip.children + [info]) == multiset(wip.children) + multiset{info};
    assert s == Plus(FlowShare(info, active), wip.sums);
    TallyMore(wips, m, info, active, wip');
    ReplaceWip(wips, to, info, active, wip');
  }

  lemma TallyMore(wips: Wips, m: Flow, info: FlowInfo, active: bool, wip': AggWip)
    requires var wip := if m in wips then wips[m] else NEW_WIP;
             && wip'.sums == Plus(FlowShare(info, active), wip.sums)
             && wip'.children == if active then wip.children + [info] else wip.children
    ensures Tallied(wips) ==> Tallied(wips[m := wip'])
  {
    hide UsageOf, UsageAt;
    var wip := if m in wips then wips[m] else NEW_WIP;
    NothingTallied();
    UsageSnoc(wip.children, info, false);
    UsageSnoc(wip.children, info, true);
  }

  lemma NothingTallied()
    ensures Tally([], ZERO)
  {
  }

  lemma ReplaceWip(wips: Wips, to: Project, info: FlowInfo, active: bool, wip: AggWip)
    requires wip.sums == Plus(FlowShare(info, active), SumOf(wips, to(info.flow)))
    requires multiset(wip.children) ==
             ChildrenOf(wips, to(info.flow)) + if active then multiset{info} else multiset{}
    ensures Added(wips, wips[to(info.flow) := wip], to, info, active)
  {
    hide Plus, FlowShare;
  }

  /** Where one walk over a bundler's flows stands: what was added is what the walked flows amount to. */
  ghost predicate Walked(wips: Wips, before: Wips, to: Project, shares: Flows, kids: Reports) {
    && wips.Keys == before.Keys + Keys(shares, to)
    && (forall g :: SumOf(wips, g) == Plus(Total(Group(shares, to, g)), SumOf(before, g)))
    && (forall g :: ChildrenOf(wips, g) == ChildrenOf(before, g) + Members(kids, to, g))
  }

  lemma WalkStarts(wips: Wips, to: Project, shares: Flows, kids: Reports)
    requires shares == map[] && kids == map[]
    ensures Walked(wips, wips, to, shares, kids)
  {
    forall g ensures Members(kids, to, g) == multiset{} && Total(Group(shares, to, g)) == ZERO {
      NoMembers(kids, to, g);
      assert Group(shares, to, g) == map[];
    }
    assert Keys(shares, to) == {};
  }

  lemma PlusAssociates(x: Sums, y: Sums, z: Sums)
    ensures Plus(x, Plus(y, z)) == Plus(Plus(x, y), z)
  {
  }

  lemma WalkStep(w: Wips, w': Wips, before: Wips, to: Project, shares: Flows, kids: Reports, info: FlowInfo, active: bool)
    requires Walked(w, before, to, shares, kids) && Added(w, w', to, info, active)
    requires info.flow !in shares && info.flow !in kids && Keyed(kids)
    ensures Walked(w', before, to, shares[info.flow := FlowShare(info, active)],
                   if active then kids[info.flow := info] else kids)
  {
    hide Total, Group, Members, FlowShare, SumOf, ChildrenOf, Keys, Plus;
    var f, v := info.flow, FlowShare(info, active);
    KeysInsert(shares, to, f, v);
    forall g
      ensures SumOf(w', g) == Plus(Total(Group(shares[f := v], to, g)), SumOf(before, g))
    {
      FoldInsertAt(shares, to, f, v, g);
      PlusAssociates(v, Total(Group(shares, to, g)), SumOf(before, g));
    }
    forall g
      ensures ChildrenOf(w', g) == ChildrenOf(before, g) + Members(if active then kids[f := info] else kids, to, g)
    {
      MembersInsert(kids, to, info, g);
    }
  }

  /** Each aggregate has the oldest of its active times and the newest of its dead ones. */
  ghost predicate Clocked(wips: Wips, actives: Stamps, deads: Stamps) {
    forall g :: IsOldest(OldestOf(wips, g), actives, g) && IsNewest(NewestOf(wips, g), deads, g)
  }

  lemma ClockStep(w: Wips, w': Wips, to: Project, timed: Timed, active: bool, actives: Stamps, deads: Stamps)
    requires Clocked(w, actives, deads) && TimeAdded(w, w', to, timed, active)
    ensures var stamp := {(to(timed.info.flow), timed.time)};
            Clocked(w', if active then actives + stamp else actives, if active then deads else deads + stamp)
  {
    hide IsOldest, IsNewest, Earlier, Later, OldestOf, NewestOf;
    var h, t := to(timed.info.flow), timed.time;
    forall g
      ensures active ==> IsOldest(OldestOf(w', g), actives + {(h, t)}, g) && IsNewest(NewestOf(w', g), deads, g)
      ensures !active ==> IsOldest(OldestOf(w', g), actives, g) && IsNewest(NewestOf(w', g), deads + {(h, t)}, g)
    {
      OldestInsert(OldestOf(w, g), actives, g, h, t);
      NewestInsert(NewestOf(w, g), deads, g, h, t);
    }
  }

  /** The times of the flows outside todo. */
  ghost function StampsDone(m: map<Flow, Timed>, to: Project, todo: set<Flow>): Stamps {
    set f | f in m && f !in todo :: (to(f), m[f].time)
  }

  lemma StampsStart(m: map<Flow, Timed>, to: Project, s: Stamps)
    ensures s + StampsDone(m, to, m.Keys) == s
  {
  }

  lemma StampsNext(m: map<Flow, Timed>, to: Project, todo: set<Flow>, f: Flow, s: Stamps)
    requires f in todo && f in m
    ensures s + StampsDone(m, to, todo - {f}) == s + StampsDone(m, to, todo) + {(to(f), m[f].time)}
  {
    var a, b := StampsDone(m, to, todo - {f}), StampsDone(m, to, todo) + {(to(f), m[f].time)};
    forall x | x in a ensures x in b {
      var h :| h in m && h !in todo - {f} && x == (to(h), m[h].time);
    }
    forall x | x in b ensures x in a {
      if x in StampsDone(m, to, todo) {
        var h :| h in m && h !in todo && x == (to(h), m[h].time);
        assert h !in todo - {f};
      } else {
        assert f !in todo - {f};
      }
    }
    assert a == b;
  }

  lemma StampsEnd(m: map<Flow, Timed>, to: Project)
    ensures StampsDone(m, to, {}) == StampsOf(m, to)
  {
  }

  ghost predicate TimedKeyed(m: map<Flow, Timed>) {
    forall f :: f in m ==> m[f].info.flow == f
  }

  /** The active flows outside todo have been walked. */
  ghost predicate ActiveDone(active: map<Flow, Timed>, todo: set<Flow>, shares: Flows, kids: Reports) {
    && todo <= active.Keys
    && shares.Keys == kids.Keys == active.Keys - todo
    && (forall f :: f in kids ==> kids[f] == active[f].info && shares[f] == FlowShare(active[f].info, true))
  }

  lemma ActiveStep(active: map<Flow, Timed>, todo: set<Flow>, shares: Flows, kids: Reports, f: Flow)
    requires TimedKeyed(active) && ActiveDone(active, todo, shares, kids) && f in todo
    ensures f in active && f !in shares && f !in kids && Keyed(kids) && active[f].info.flow == f
    ensures ActiveDone(active, todo - {f}, shares[f := FlowShare(active[f].info, true)], kids[f := active[f].info])
  {
    hide FlowShare;
  }

  lemma ActiveEnd(active: map<Flow, Timed>, shares: Flows, kids: Reports)
    requires ActiveDone(active, {}, shares, kids)
    ensures shares.Keys == kids.Keys == active.Keys
    ensures forall f :: f in active ==> kids[f] == active[f].info && shares[f] == FlowShare(active[f].info, true)
  {
    hide FlowShare;
  }

  method AddActive(active: map<Flow, Timed>, before: Wips, to: Project, ghost actives: Stamps, ghost deads: Stamps)
    returns (wips: Wips, ghost shares: Flows, ghost kids: Reports)
    requires TimedKeyed(active) && Clocked(before, actives, deads)
    ensures Walked(wips, before, to, shares, kids)
    ensures ActiveDone(active, {}, shares, kids)
    ensures Clocked(wips, actives + StampsOf(active, to), deads)
    ensures Tallied(before) ==> Tallied(wips)
  {
    wips, shares, kids := before, map[], map[];
    WalkStarts(wips, to, shares, kids);
    var todo := active.Keys;
    assert ActiveDone(active, todo, shares, kids);
    StampsStart(active, to, actives);
    hide Walked, Added, FlowShare, ActiveDone, TimedKeyed, Clocked, TimeAdded, StampsDone, StampsOf, Tallied;
    while todo != {}
      invariant ActiveDone(active, todo, shares, kids)
      invariant Walked(wips, before, to, shares, kids)
      invariant Clocked(wips, actives + StampsDone(active, to, todo), deads)
      invariant Tallied(before) ==> Tallied(wips)
      decreases |todo|
    {
      var f :| f in todo;
      ActiveStep(active, todo, shares, kids, f);
      StampsNext(active, to, todo, f, actives);
      var info := active[f].info;
      ghost var was := wips;
      wips := AddFlow(wips, to, active[f], true);
      WalkStep(was, wips, before, to, shares, kids, info, true);
      ClockStep(was, wips, to, active[f], true, actives + StampsDone(active, to, todo), deads);
      shares, kids := shares[f := FlowShare(info, true)], kids[f := info];
      todo := todo - {f};
    }
    StampsEnd(active, to);
  }

  /** The dead flows outside todo have been walked too. */
  ghost predicate DeadDone(dead: map<Flow, Timed>, todo: set<Flow>, first: Flows, shares: Flows) {
    && todo <= dead.Keys
    && shares.Keys == first.Keys + (dead.Keys - todo)
    && (forall f :: f in first ==> shares[f] == first[f])
    && (forall f :: f in dead && f !in todo ==> shares[f] == FlowShare(dead[f].info, false))
  }

  ghost predicate Apart(dead: map<Flow, Timed>, first: Flows, kids: Reports) {
    TimedKeyed(dead) && Keyed(kids) && first.Keys !! dead.Keys && kids.Keys !! dead.Keys
  }

  lemma DeadStart(dead: map<Flow, Timed>, first: Flows)
    ensures DeadDone(dead, dead.Keys, first, first)
  {
  }

  lemma DeadStep(dead: map<Flow, Timed>, todo: set<Flow>, first: Flows, shares: Flows, kids: Reports, f: Flow)
    requires Apart(dead, first, kids) && DeadDone(dead, todo, first, shares) && f in todo
    ensures f in dead && f !in shares && f !in kids && Keyed(kids) && dead[f].info.flow == f
    ensures DeadDone(dead, todo - {f}, first, shares[f := FlowShare(dead[f].info, false)])
  {
    hide FlowShare;
  }

  method AddDead(dead: map<Flow, Timed>, now: Wips, to: Project, ghost before: Wips, ghost first: Flows, ghost kids: Reports,
                 ghost actives: Stamps, ghost deads: Stamps)
    returns (wips: Wips, ghost shares: Flows)
    requires Apart(dead, first, kids) && Clocked(now, actives, deads)
    requires Walked(now, before, to, first, kids)
    ensures Walked(wips, before, to, shares, kids)
    ensures DeadDone(dead, {}, first, shares)
    ensures Clocked(wips, actives, deads + StampsOf(dead, to))
    ensures Tallied(now) ==> Tallied(wips)
  {
    StampsStart(dead, to, deads);
    hide Walked, Added, FlowShare, DeadDone, Apart, Keyed, Clocked, TimeAdded, StampsDone, StampsOf, Tallied;
    wips, shares := now, first;
    var todo := dead.Keys;
    DeadStart(dead, first);
    while todo != {}
      invariant DeadDone(dead, todo, first, shares)
      invariant Walked(wips, before, to, shares, kids)
      invariant Clocked(wips, actives, deads + StampsDone(dead, to, todo))
      invariant Tallied(now) ==> Tallied(wips)
      decreases |todo|
    {
      var f :| f in todo;
      DeadStep(dead, todo, first, shares, kids, f);
      StampsNext(dead, to, todo, f, deads);
      var info := dead[f].info;
      ghost var was := wips;
      wips := AddFlow(wips, to, dead[f], false);
      WalkStep(was, wips, before, to, shares, kids, info, false);
      ClockStep(was, wips, to, dead[f], false, actives, deads + StampsDone(dead, to, todo));
      shares := shares[f := FlowShare(info, false)];
      todo := todo - {f};
    }
    StampsEnd(dead, to);
  }

  /** What one bundler adds: its active flows, then its dead ones. */
  method AddBundler(bs: BundleState, before: Wips, to: Project, ghost actives: Stamps, ghost deads: Stamps)
    returns (wips: Wips)
    requires bs.Valid() && Clocked(before, actives, deads)
    ensures Walked(wips, before, to, bs.Shares(), bs.Active())
    ensures Clocked(wips, actives + StampsOf(bs.active, to), deads + StampsOf(bs.dead, to))
    ensures Tallied(before) ==> Tallied(wips)
  {
    hide Walked, FlowShare, Clocked, StampsOf, Tallied;
    ghost var shares: Flows, kids: Reports;
    wips, shares, kids := AddActive(bs.active, before, to, actives, deads);
    ActiveEnd(bs.active, shares, kids);
    wips, shares := AddDead(bs.dead, wips, to, before, shares, kids, actives + StampsOf(bs.active, to), deads);
    assert kids == bs.Active();
    assert shares == bs.Shares();
  }

  ghost function MembersAll(all: seq<Reports>, to: Project, g: Flow): multiset<FlowInfo> {
    if all == [] then multiset{}
    else MembersAll(all[..|all| - 1], to, g) + Members(all[|all| - 1], to, g)
  }

  /** The times of each bundler's active flows, and of its dead ones. */
  ghost function ActiveStamps(bundlers: seq<BundleState>, to: Project): seq<Stamps>
    reads bundlers
  {
    seq(|bundlers|, i requires 0 <= i < |bundlers| reads bundlers => StampsOf(bundlers[i].active, to))
  }

  ghost function DeadStamps(bundlers: seq<BundleState>, to: Project): seq<Stamps>
    reads bundlers
  {
    seq(|bundlers|, i requires 0 <= i < |bundlers| reads bundlers => StampsOf(bundlers[i].dead, to))
  }

  /** Some bundler has a flow of this aggregate. */
  ghost predicate HasMember(all: seq<Flows>, to: Project, g: Flow) {
    exists i :: 0 <= i < |all| && g in Keys(all[i], to)
  }

  lemma HasMemberSnoc(all: seq<Flows>, n: nat, to: Project, g: Flow)
    requires n < |all|
    ensures HasMember(all[..n + 1], to, g) <==> HasMember(all[..n], to, g) || g in Keys(all[n], to)
  {
    hide Keys;
    if HasMember(all[..n], to, g) {
      var i :| 0 <= i < n && g in Keys(all[..n][i], to);
      assert all[..n + 1][i] == all[..n][i];
    }
    if g in Keys(all[n], to) {
      assert all[..n + 1][n] == all[n];
    }
    if HasMember(all[..n + 1], to, g) {
      var i :| 0 <= i < n + 1 && g in Keys(all[..n + 1][i], to);
      assert i < n ==> all[..n][i] == all[..n + 1][i];
    }
  }

  /** Each aggregate has what its flows amount to, over the bundlers visited so far. */
  ghost predicate Summed(wips: Wips, all: seq<Flows>, kids: seq<Reports>, to: Project) {
    && (forall g :: g in wips <==> HasMember(all, to, g))
    && (forall g :: SumOf(wips, g) == SumAll(all, to, g))
    && (forall g :: ChildrenOf(wips, g) == MembersAll(kids, to, g))
  }

  lemma NothingSummed(to: Project)
    ensures Summed(map[], [], [], to) && Clocked(map[], Union([]), Union([]))
  {
  }

  lemma SummedSnoc(was: Wips, wips: Wips, all: seq<Flows>, kids: seq<Reports>, shares: Flows, active: Reports, to: Project)
    requires Summed(was, all, kids, to) && Walked(wips, was, to, shares, active)
    ensures Summed(wips, all + [shares], kids + [active], to)
  {
    hide Total, Group, Plus, Members, Keys, HasMember, SumAll, MembersAll, SumOf, ChildrenOf;
    forall g
      ensures g in wips <==> HasMember(all + [shares], to, g)
      ensures SumOf(wips, g) == SumAll(all + [shares], to, g)
      ensures ChildrenOf(wips, g) == MembersAll(kids + [active], to, g)
    {
      TakeAppend(all, [shares]);
      TakeAppend(kids, [active]);
      assert (all + [shares])[..|all| + 1] == all + [shares] && (kids + [active])[..|kids| + 1] == kids + [active];
      HasMemberSnoc(all + [shares], |all|, to, g);
      SumAllSnoc(all + [shares], |all|, to, g);
      MembersAllSnoc(kids + [active], |kids|, to, g);
    }
  }

  /** Nothing is lost or counted twice. */
  lemma SummedConserves(wips: Wips, all: seq<Flows>, kids: seq<Reports>, to: Project)
    requires Summed(wips, all, kids, to)
    ensures SumsOf(wips) == SumsAt(all, to, wips.Keys) && Total(SumsOf(wips)) == TotalAll(all)
  {
    hide Total, Keys, HasMember, TotalAll, SumAll, MembersAll;
    MembersAreCovered(wips.Keys, all, to);
    SumsAreTheirs(wips, all, to);
    SumsConserve(all, to, wips.Keys);
  }

  lemma SumsAreTheirs(wips: Wips, shares: seq<Flows>, to: Project)
    requires forall g :: SumOf(wips, g) == SumAll(shares, to, g)
    ensures SumsOf(wips) == SumsAt(shares, to, wips.Keys)
  {
    hide SumAll;
    forall g | g in wips ensures SumsOf(wips)[g] == SumAll(shares, to, g) {
      assert SumOf(wips, g) == wips[g].sums;
    }
  }

  lemma MembersAreCovered(keys: set<Flow>, all: seq<Flows>, to: Project)
    requires forall g :: g in keys <==> HasMember(all, to, g)
    ensures Covers(keys, all, to)
  {
    hide Keys;
    forall i, g | 0 <= i < |all| && g in Keys(all[i], to) ensures g in keys {
      assert HasMember(all, to, g);
    }
  }

  lemma MembersAllSnoc(all: seq<Reports>, n: nat, to: Project, g: Flow)
    requires n < |all|
    ensures MembersAll(all[..n + 1], to, g) == MembersAll(all[..n], to, g) + Members(all[n], to, g)
  {
    assert all[..n + 1][..n] == all[..n];
  }

  // ---- Cumulative bytes over runs ----

  /** Every flow of m is in m', no counter is lower there, and counters of other flows are not negative. */
  ghost predicate Grows(m: Flows, m': Flows) {
    && (forall f :: f in m ==> f in m' && m[f].cumHipri <= m'[f].cumHipri && m[f].cumLopri <= m'[f].cumLopri)
    && (forall f :: f in m' && f !in m ==> m'[f].cumHipri >= 0 && m'[f].cumLopri >= 0)
  }

  ghost predicate SameBytes(x: Sums, y: Sums) {
    x.cumHipri == y.cumHipri && x.cumLopri == y.cumLopri
  }

  ghost predicate NotAbove(x: Sums, y: Sums) {
    x.cumHipri <= y.cumHipri && x.cumLopri <= y.cumLopri
  }

  lemma {:induction false} TotalGrows(m: Flows, m': Flows)
    requires Grows(m, m')
    ensures NotAbove(Total(m), Total(m'))
    decreases |m'|
  {
    if m' == map[] {
      assert m == map[];
    } else {
      var f :| f in m';
      TotalRemove(m', f);
      if f in m {
        TotalRemove(m, f);
        TotalGrows(m - {f}, m' - {f});
      } else {
        TotalGrows(m, m' - {f});
      }
    }
  }

  lemma GroupGrows(m: Flows, m': Flows, to: Project, g: Flow)
    requires Grows(m, m')
    ensures Grows(Group(m, to, g), Group(m', to, g))
  {
  }

  lemma {:induction false} SumAllGrows(all: seq<Flows>, all': seq<Flows>, to: Project, g: Flow)
    requires |all| == |all'| && forall i :: 0 <= i < |all| ==> Grows(all[i], all'[i])
    ensures NotAbove(SumAll(all, to, g), SumAll(all', to, g))
  {
    if all != [] {
      hide Grows, Total, Group;
      var k := |all| - 1;
      SumAllGrows(all[..k], all'[..k], to, g);
      GroupGrows(all[k], all'[k], to, g);
      TotalGrows(Group(all[k], to, g), Group(all'[k], to, g));
    }
  }

  /** What is left of a report once only its counters matter. */
  ghost function Counters(m: Reports): Flows {
    map f | f in m :: FlowShare(m[f], false)
  }

  ghost predicate GrowsFrom(m: Reports, i: FlowInfo) {
    if i.flow in m then m[i.flow].cumHipriBytes <= i.cumHipriBytes && m[i.flow].cumLopriBytes <= i.cumLopriBytes
    else i.cumHipriBytes >= 0 && i.cumLopriBytes >= 0
  }

  /** Per-flow counters never decrease: each report is compared with the one before it. */
  ghost predicate NeverDecreases(m: Reports, infos: seq<FlowInfo>) {
    forall k :: 0 <= k < |infos| ==> GrowsFrom(Report(m, infos[..k]), infos[k])
  }

  lemma GrowsIsTransitive(a: Flows, b: Flows, c: Flows)
    requires Grows(a, b) && Grows(b, c)
    ensures Grows(a, c)
  {
  }

  lemma OneReportGrows(m: Reports, i: FlowInfo)
    requires GrowsFrom(m, i)
    ensures Grows(Counters(m), Counters(m[i.flow := i]))
  {
  }

  lemma {:induction false} ReportsGrow(m: Reports, infos: seq<FlowInfo>)
    requires NeverDecreases(m, infos)
    ensures Grows(Counters(m), Counters(Report(m, infos)))
  {
    if infos != [] {
      var k := |infos| - 1;
      forall j | 0 <= j < k ensures GrowsFrom(Report(m, infos[..k][..j]), infos[..k][j]) {
        assert infos[..k][..j] == infos[..j];
      }
      hide GrowsFrom, Grows, Counters;
      ReportsGrow(m, infos[..k]);
      OneReportGrows(Report(m, infos[..k]), infos[k]);
      GrowsIsTransitive(Counters(m), Counters(Report(m, infos[..k])), Counters(Report(m, infos)));
    }
  }

  /** An Update call: which bundler, and what it reports when. */
  datatype Event = Event(bundler: nat, timestamp: int, infos: seq<FlowInfo>)

  ghost predicate IsHistory(n: nat, events: seq<Event>) {
    forall k :: 0 <= k < |events| ==> events[k].bundler < n
  }

  /** The latest reports of each bundler after some calls. */
  ghost function After(start: seq<Reports>, events: seq<Event>): (all: seq<Reports>)
    requires IsHistory(|start|, events)
    ensures |all| == |start|
  {
    if events == [] then start
    else
      var k := |events| - 1;
      var prev, e := After(start, events[..k]), events[k];
      prev[e.bundler := Report(prev[e.bundler], e.infos)]
  }

  ghost predicate AllNeverDecrease(start: seq<Reports>, events: seq<Event>)
    requires IsHistory(|start|, events)
  {
    forall k :: 0 <= k < |events| ==>
      NeverDecreases(After(start, events[..k])[events[k].bundler], events[k].infos)
  }

  lemma AfterSnoc(start: seq<Reports>, events: seq<Event>, j: nat)
    requires IsHistory(|start|, events) && j < |events|
    ensures var prev, e := After(start, events[..j]), events[j];
            After(start, events[..j + 1]) == prev[e.bundler := Report(prev[e.bundler], e.infos)]
  {
    hide Report;
    assert events[..j + 1][..j] == events[..j];
  }

  lemma EventGrows(start: seq<Reports>, events: seq<Event>, j: nat, i: nat)
    requires IsHistory(|start|, events) && AllNeverDecrease(start, events) && j < |events| && i < |start|
    ensures Grows(Counters(After(start, events[..j])[i]), Counters(After(start, events[..j + 1])[i]))
  {
    hide Counters, Report, NeverDecreases, After, Grows;
    AfterSnoc(start, events, j);
    var prev, e := After(start, events[..j]), events[j];
    if i == e.bundler {
      ReportsGrow(prev[i], e.infos);
    } else {
      GrowsIsReflexive(Counters(prev[i]));
    }
  }

  lemma GrowsIsReflexive(m: Flows)
    ensures Grows(m, m)
  {
  }

  lemma {:induction false} HistoryGrows(start: seq<Reports>, events: seq<Event>, i: nat, j: nat, b: nat)
    requires IsHistory(|start|, events) && AllNeverDecrease(start, events) && i <= j <= |events| && b < |start|
    ensures Grows(Counters(After(start, events[..i])[b]), Counters(After(start, events[..j])[b]))
    decreases j
  {
    hide Counters, Grows, After, AllNeverDecrease;
    if i == j {
      GrowsIsReflexive(Counters(After(start, events[..i])[b]));
    } else {
      HistoryGrows(start, events, i, j - 1, b);
      EventGrows(start, events, j - 1, b);
      GrowsIsTransitive(Counters(After(start, events[..i])[b]), Counters(After(start, events[..j - 1])[b]),
                        Counters(After(start, events[..j])[b]));
    }
  }

  /** For each bundler, how many reports had come when it was visited. */
  ghost predicate IsCuts(cuts: seq<nat>, n: nat, m: nat) {
    |cuts| == n && forall i :: 0 <= i < n ==> cuts[i] <= m
  }

  ghost predicate NotLater(cuts: seq<nat>, cuts': seq<nat>) {
    |cuts| == |cuts'| && forall i :: 0 <= i < |cuts| ==> cuts[i] <= cuts'[i]
  }

  /** The counters that each bundler holds when it is visited. */
  ghost function CountersAt(start: seq<Reports>, events: seq<Event>, cuts: seq<nat>): (all: seq<Flows>)
    requires IsHistory(|start|, events) && IsCuts(cuts, |start|, |events|)
    ensures |all| == |start|
    ensures forall i :: 0 <= i < |start| ==> all[i] == Counters(After(start, events[..cuts[i]])[i])
  {
    seq(|start|, i requires 0 <= i < |start| => Counters(After(start, events[..cuts[i]])[i]))
  }

  /** An aggregate's cumulative bytes never decrease, whichever flows expire or revive in between. */
  lemma CumulativeNeverDecreases(start: seq<Reports>, events: seq<Event>, cuts: seq<nat>, cuts': seq<nat>, to: Project, g: Flow)
    requires IsHistory(|start|, events) && AllNeverDecrease(start, events)
    requires IsCuts(cuts, |start|, |events|) && IsCuts(cuts', |start|, |events|) && NotLater(cuts, cuts')
    ensures NotAbove(SumAll(CountersAt(start, events, cuts), to, g), SumAll(CountersAt(start, events, cuts'), to, g))
  {
    hide Counters, Grows, After, AllNeverDecrease, SumAll;
    var x, y := CountersAt(start, events, cuts), CountersAt(start, events, cuts');
    forall b | 0 <= b < |x| ensures Grows(x[b], y[b]) {
      HistoryGrows(start, events, cuts[b], cuts'[b], b);
    }
    SumAllGrows(x, y, to, g);
  }

  // ---- What ForEachAgg adds up is what the latest reports say ----

  ghost predicate SameCounters(m: Flows, m': Flows) {
    m.Keys == m'.Keys && forall f :: f in m ==> m[f].cumHipri == m'[f].cumHipri && m[f].cumLopri == m'[f].cumLopri
  }

  lemma SameCountersGrow(m: Flows, m': Flows)
    requires SameCounters(m, m')
    ensures Grows(m, m') && Grows(m', m)
  {
  }

  /** The bytes that are summed up for an aggregate depend on the latest reports alone. */
  lemma BytesComeFromReports(shares: seq<Flows>, counters: seq<Flows>, to: Project, g: Flow)
    requires |shares| == |counters| && forall i :: 0 <= i < |shares| ==> SameCounters(shares[i], counters[i])
    ensures SumAll(shares, to, g).cumHipri == SumAll(counters, to, g).cumHipri
    ensures SumAll(shares, to, g).cumLopri == SumAll(counters, to, g).cumLopri
  {
    hide SumAll, Grows, SameCounters;
    forall i | 0 <= i < |shares| ensures Grows(shares[i], counters[i]) && Grows(counters[i], shares[i]) {
      SameCountersGrow(shares[i], counters[i]);
    }
    SumAllGrows(shares, counters, to, g);
    SumAllGrows(counters, shares, to, g);
  }

  lemma SharesHaveCounters(bs: BundleState)
    requires bs.Valid()
    ensures SameCounters(bs.Shares(), Counters(bs.Latest()))
  {
  }
}
