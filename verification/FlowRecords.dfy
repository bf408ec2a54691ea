/**
 What a run of a FlowAggregator keeps: states that come from accumulations, results that only rise,
 times that are not set back by reports in order; and what one result says about the flows.
 */
module FlowRecords {
  import opened Wrappers
  import opened FlowSums
  import opened FlowConservation
  import opened FlowAccounting
  import opened FlowClocks
  import opened FlowTotals
  import opened FlowHistory
  import opened AggStates

  // ---- States and accumulations ----

  /** The state's counters are those of some accumulation, or none. */
  ghost predicate FromTotals(state: AggState, totals: seq<Wips>, g: Flow) {
    || (state.cumHipri == 0 && state.cumLopri == 0)
    || exists a :: 0 <= a < |totals| && SameCounts(state, SumOf(totals[a], g))
  }

  ghost predicate AllFromTotals(states: States, totals: seq<Wips>) {
    forall g :: FromTotals(StateOf(states, g), totals, g)
  }

  /** What an aggregate's state holds is not above what was accumulated last. */
  lemma StateIsNotAbove(n: nat, events: seq<Event>, marks: seq<seq<nat>>, totals: seq<Wips>, to: Project, state: AggState, g: Flow)
    requires IsHistory(n, events) && IsRecord(n, events, marks, totals, to) && AllNeverDecrease(Blank(n), events)
    requires totals != [] && FromTotals(state, totals, g)
    ensures !Falls(state, SumOf(totals[|totals| - 1], g))
  {
    hide AllNeverDecrease, SumOf, IsRecord;
    var b := |totals| - 1;
    if state.cumHipri == 0 && state.cumLopri == 0 {
      TotalIsNotNegative(n, events, marks, totals, to, b, g);
    } else {
      var a :| 0 <= a < |totals| && SameCounts(state, SumOf(totals[a], g));
      LaterIsNotLower(n, events, marks, totals, to, a, b, g);
    }
  }

  lemma FromTotalsGrows(state: AggState, totals: seq<Wips>, wips: Wips, g: Flow)
    requires FromTotals(state, totals, g)
    ensures FromTotals(state, totals + [wips], g)
  {
    hide SumOf;
    if !(state.cumHipri == 0 && state.cumLopri == 0) {
      var a :| 0 <= a < |totals| && SameCounts(state, SumOf(totals[a], g));
      assert (totals + [wips])[a] == totals[a];
    }
  }

  lemma UpdatedFromTotals(states: States, states': States, totals: seq<Wips>, wips: Wips, infos: Infos, measure: Measure)
    requires AllFromTotals(states, totals) && forall g :: Settled(g, states, states', wips, infos, measure)
    ensures AllFromTotals(states', totals + [wips])
  {
    hide FromTotals;
    forall g ensures FromTotals(StateOf(states', g), totals + [wips], g) {
      assert Settled(g, states, states', wips, infos, measure);
      if StateOf(states', g) == StateOf(states, g) {
        FromTotalsGrows(StateOf(states, g), totals, wips, g);
      } else {
        FromLast(StateOf(states', g), totals, wips, g);
      }
    }
  }

  lemma FromLast(state: AggState, totals: seq<Wips>, wips: Wips, g: Flow)
    requires SameCounts(state, SumOf(wips, g))
    ensures FromTotals(state, totals + [wips], g)
  {
    assert (totals + [wips])[|totals|] == wips;
  }

  // ---- What was handed out ----

  ghost predicate BytesNotAbove(info: FlowInfo, info': FlowInfo) {
    info.cumHipriBytes <= info'.cumHipriBytes && info.cumLopriBytes <= info'.cumLopriBytes
  }

  /** Every aggregate handed out is handed out again, with no fewer bytes. */
  ghost predicate Follows(x: Infos, y: Infos) {
    forall g :: g in x ==> g in y && BytesNotAbove(x[g].parent, y[g].parent)
  }

  ghost predicate NotBeyond(x: Infos, states: States, totals: seq<Wips>) {
    forall g :: g in x ==> BytesNotAbove(x[g].parent, Parent(g, StateOf(states, g))) && Totalled(totals, g)
  }

  ghost predicate Totalled(totals: seq<Wips>, g: Flow) {
    exists a :: 0 <= a < |totals| && g in totals[a]
  }

  /** The results of a run, one after the other, up to the states they left. */
  ghost predicate Rising(shown: seq<Infos>, states: States, totals: seq<Wips>) {
    && (forall a, b :: 0 <= a < b < |shown| ==> Follows(shown[a], shown[b]))
    && (forall a :: 0 <= a < |shown| ==> NotBeyond(shown[a], states, totals))
    && NoneNegative(states)
  }

  ghost predicate NoneNegative(states: States) {
    forall g :: BytesNotAbove(Parent(g, NEW_STATE), Parent(g, StateOf(states, g)))
  }

  lemma SettledRises(g: Flow, states: States, states': States, wips: Wips, infos: Infos, measure: Measure)
    requires Settled(g, states, states', wips, infos, measure)
    ensures BytesNotAbove(Parent(g, StateOf(states, g)), Parent(g, StateOf(states', g)))
    ensures g in infos ==> infos[g].parent == Parent(g, StateOf(states', g))
  {
  }

  lemma StillNotBeyond(x: Infos, states: States, states': States, totals: seq<Wips>, wips: Wips, infos: Infos, measure: Measure)
    requires NotBeyond(x, states, totals) && forall g :: Settled(g, states, states', wips, infos, measure)
    ensures NotBeyond(x, states', totals + [wips])
    ensures forall g :: g in x && g in infos ==> BytesNotAbove(x[g].parent, infos[g].parent)
  {
    hide Settled, Parent;
    forall g | g in x
      ensures BytesNotAbove(x[g].parent, Parent(g, StateOf(states', g))) && Totalled(totals + [wips], g)
      ensures g in infos ==> BytesNotAbove(x[g].parent, infos[g].parent)
    {
      SettledRises(g, states, states', wips, infos, measure);
      var a :| 0 <= a < |totals| && g in totals[a];
      assert g in (totals + [wips])[a];
    }
  }

  lemma StillNoneNegative(states: States, states': States, wips: Wips, infos: Infos, measure: Measure)
    requires NoneNegative(states) && forall g :: Settled(g, states, states', wips, infos, measure)
    ensures NoneNegative(states')
  {
    hide Settled, Parent;
    forall g ensures BytesNotAbove(Parent(g, NEW_STATE), Parent(g, StateOf(states', g))) {
      SettledRises(g, states, states', wips, infos, measure);
    }
  }

  lemma RisingGrows(shown: seq<Infos>, states: States, states': States, totals: seq<Wips>, wips: Wips, infos: Infos, measure: Measure)
    requires Rising(shown, states, totals) && forall g :: Settled(g, states, states', wips, infos, measure)
    requires forall g :: Totalled(totals, g) ==> g in wips
    ensures Rising(shown, states', totals + [wips])
    ensures infos.Keys == wips.Keys ==> Rising(shown + [infos], states', totals + [wips])
  {
    hide Settled, BytesNotAbove, Totalled, NoneNegative;
    StillNoneNegative(states, states', wips, infos, measure);
    forall a | 0 <= a < |shown| ensures NotBeyond(shown[a], states', totals + [wips]) {
      StillNotBeyond(shown[a], states, states', totals, wips, infos, measure);
    }
    if infos.Keys == wips.Keys {
      forall a | 0 <= a < |shown| ensures Follows(shown[a], infos) {
        StillNotBeyond(shown[a], states, states', totals, wips, infos, measure);
      }
      LastNotBeyond(states, states', totals, wips, infos, measure);
    }
  }

  lemma LastNotBeyond(states: States, states': States, totals: seq<Wips>, wips: Wips, infos: Infos, measure: Measure)
    requires infos.Keys == wips.Keys && forall g :: Settled(g, states, states', wips, infos, measure)
    ensures NotBeyond(infos, states', totals + [wips])
  {
    hide Settled;
    forall g | g in infos
      ensures BytesNotAbove(infos[g].parent, Parent(g, StateOf(states', g))) && Totalled(totals + [wips], g)
    {
      SettledRises(g, states, states', wips, infos, measure);
      assert g in (totals + [wips])[|totals|];
    }
  }

  lemma TotalledStays(n: nat, events: seq<Event>, marks: seq<seq<nat>>, totals: seq<Wips>, wips: Wips, to: Project)
    requires IsHistory(n, events) && IsRecord(n, events, marks, totals + [wips], to)
    ensures forall g :: Totalled(totals, g) ==> g in wips
  {
    hide IsRecord;
    forall g | Totalled(totals, g) ensures g in wips {
      var a :| 0 <= a < |totals| && g in totals[a];
      LaterHasAll(n, events, marks, totals + [wips], to, a, |totals|, g);
    }
  }

  // ---- Times ----

  /** The reports came in the order of their timestamps. */
  ghost predicate Timely(events: seq<Event>) {
    forall i, j :: 0 <= i < j < |events| ==> events[i].timestamp <= events[j].timestamp
  }

  /** No time is after the last report. */
  ghost predicate Dated(ss: seq<Stamps>, events: seq<Event>) {
    if events == [] then forall i :: 0 <= i < |ss| ==> ss[i] == {}
    else AllNoneAfter(ss, events[|events| - 1].timestamp)
  }

  /** Every state was last updated at a time that its aggregate still reaches. */
  ghost predicate InTime(states: States, actives: seq<Stamps>, deads: seq<Stamps>) {
    forall g :: Reached(StateOf(states, g), actives, deads, g)
  }

  ghost predicate Reached(state: AggState, actives: seq<Stamps>, deads: seq<Stamps>, g: Flow) {
    state.updated.Some? ==> Reaches(state.updated.value, Union(actives), Union(deads), g)
  }

  ghost predicate KeepsTime(events: seq<Event>, states: States, whole: bool, actives: seq<Stamps>, deads: seq<Stamps>) {
    && (|actives| <= 1 ==> whole)
    && (Timely(events) ==> Dated(actives, events) && Dated(deads, events))
    && (Timely(events) && whole ==> InTime(states, actives, deads))
  }

  lemma DatedBy(ss: seq<Stamps>, events: seq<Event>, clock: int)
    requires Dated(ss, events) && (events != [] ==> events[|events| - 1].timestamp <= clock)
    ensures AllNoneAfter(ss, clock)
  {
    if events != [] {
      forall i | 0 <= i < |ss| ensures NoneAfter(ss[i], clock) {
        assert NoneAfter(ss[i], events[|events| - 1].timestamp);
      }
    }
  }

  /** One report in order keeps the times dated, and sets no aggregate back. */
  lemma ReportInTime(states: States, actives: seq<Stamps>, deads: seq<Stamps>, events: seq<Event>, e: Event,
                     active: map<Flow, Timed>, dead: map<Flow, Timed>, active': map<Flow, Timed>, dead': map<Flow, Timed>,
                     to: Project)
    requires e.bundler < |actives| == |deads|
    requires actives[e.bundler] == StampsOf(active, to) && deads[e.bundler] == StampsOf(dead, to)
    requires Moved(active, dead, active', dead', e.timestamp) && Timely(events + [e])
    requires Dated(actives, events) && Dated(deads, events)
    ensures var actives', deads' := actives[e.bundler := StampsOf(active', to)], deads[e.bundler := StampsOf(dead', to)];
            && Dated(actives', events + [e]) && Dated(deads', events + [e])
            && (InTime(states, actives, deads) ==> InTime(states, actives', deads'))
  {
    hide StampsOf, Moved, Reaches, Union, NoneAfter;
    var clock := e.timestamp;
    assert (events + [e])[|events|] == e;
    if events != [] {
      assert (events + [e])[|events| - 1].timestamp <= (events + [e])[|events|].timestamp;
    }
    DatedBy(actives, events, clock);
    DatedBy(deads, events, clock);
    MovedNoneAfter(active, dead, active', dead', clock, to);
    var actives', deads' := actives[e.bundler := StampsOf(active', to)], deads[e.bundler := StampsOf(dead', to)];
    if InTime(states, actives, deads) {
      forall g ensures Reached(StateOf(states, g), actives', deads', g) {
        assert Reached(StateOf(states, g), actives, deads, g);
        if StateOf(states, g).updated.Some? {
          ReportReaches(actives, deads, e.bundler, active, dead, active', dead', clock, to,
                        StateOf(states, g).updated.value, g);
        }
      }
    }
  }

  /** An accumulation of what all bundlers hold now is never late for a state in time. */
  lemma NowIsNotLate(states: States, actives: seq<Stamps>, deads: seq<Stamps>, time: int, g: Flow)
    requires InTime(states, actives, deads) && IsTime(time, Union(actives), Union(deads), g)
    ensures !Late(StateOf(states, g), time)
  {
    hide Union, Reaches, IsTime;
    assert Reached(StateOf(states, g), actives, deads, g);
    if StateOf(states, g).updated.Some? {
      ReachesIffNotBefore(StateOf(states, g).updated.value, time, Union(actives), Union(deads), g);
    }
  }

  lemma UpdatedInTime(states: States, states': States, wips: Wips, infos: Infos, measure: Measure, actives: seq<Stamps>, deads: seq<Stamps>)
    requires InTime(states, actives, deads) && forall g :: Settled(g, states, states', wips, infos, measure)
    requires forall g :: g in infos ==> IsTime(infos[g].time, Union(actives), Union(deads), g)
    ensures InTime(states', actives, deads)
  {
    hide Union, Reaches, IsTime, Settled;
    forall g ensures Reached(StateOf(states', g), actives, deads, g) {
      assert Reached(StateOf(states, g), actives, deads, g);
      SettledTime(g, states, states', wips, infos, measure);
      if g in infos {
        TimeReaches(infos[g].time, Union(actives), Union(deads), g);
      }
    }
  }

  lemma SettledTime(g: Flow, states: States, states': States, wips: Wips, infos: Infos, measure: Measure)
    requires Settled(g, states, states', wips, infos, measure)
    ensures StateOf(states', g) == StateOf(states, g) || (g in infos && StateOf(states', g).updated == Some(infos[g].time))
  {
  }

  // ---- Reports that come while ForEachAgg is under way ----

  /** What comes before each of the n bundlers is visited. */
  ghost predicate AreEvents(between: seq<seq<Event>>, n: nat) {
    |between| == n && forall i, k :: 0 <= i < n && 0 <= k < |between[i]| ==> between[i][k].bundler < n
  }

  /** Nothing comes between the visits to two bundlers. */
  ghost predicate Unbroken(between: seq<seq<Event>>) {
    forall i :: 0 < i < |between| ==> between[i] == []
  }

  ghost function Joined(between: seq<seq<Event>>): seq<Event> {
    if between == [] then [] else Joined(between[..|between| - 1]) + between[|between| - 1]
  }

  lemma JoinedSnoc(between: seq<seq<Event>>, n: nat)
    requires n < |between|
    ensures Joined(between[..n + 1]) == Joined(between[..n]) + between[n]
  {
    assert between[..n + 1][..n] == between[..n];
  }

  /** What an accumulation saw, bundler by bundler, each as of its visit. */
  datatype Seen = Seen(shares: seq<Flows>, kids: seq<Reports>, actives: seq<Stamps>, deads: seq<Stamps>, cuts: seq<nat>)

  ghost predicate HasSize(seen: Seen, n: nat) {
    |seen.shares| == |seen.kids| == |seen.actives| == |seen.deads| == |seen.cuts| == n
  }

  ghost function Add(seen: Seen, bs: BundleState, to: Project, cut: nat): Seen
    reads bs
  {
    Seen(seen.shares + [bs.Shares()], seen.kids + [bs.Active()],
         seen.actives + [StampsOf(bs.active, to)], seen.deads + [StampsOf(bs.dead, to)], seen.cuts + [cut])
  }

  /** What bundler i was seen with is what it holds now. */
  ghost predicate IsNow(seen: Seen, i: nat, bs: BundleState, to: Project)
    reads bs
  {
    && HasSize(seen, |seen.cuts|) && i < |seen.cuts|
    && seen.shares[i] == bs.Shares() && seen.kids[i] == bs.Active()
    && seen.actives[i] == StampsOf(bs.active, to) && seen.deads[i] == StampsOf(bs.dead, to)
  }

  ghost predicate AllNow(seen: Seen, bundles: seq<BundleState>, n: nat, to: Project)
    reads bundles
  {
    n <= |bundles| && HasSize(seen, n) && forall i :: 0 <= i < n ==> IsNow(seen, i, bundles[i], to)
  }

  /** The sums, children and times so far. */
  ghost predicate Gathered(wips: Wips, seen: Seen, to: Project) {
    && Summed(wips, seen.shares, seen.kids, to) && Clocked(wips, Union(seen.actives), Union(seen.deads))
    && AllStamped(wips.Keys, Union(seen.actives), Union(seen.deads)) && Tallied(wips)
  }

  /** Every aggregate has a time. */
  ghost predicate AllStamped(keys: set<Flow>, actives: Stamps, deads: Stamps) {
    forall g :: g in keys ==> Stamped(actives, g) || Stamped(deads, g)
  }

  lemma StampMore(keys: set<Flow>, actives: Stamps, deads: Stamps, bs: BundleState, to: Project)
    requires AllStamped(keys, actives, deads)
    ensures AllStamped(keys + Keys(bs.Shares(), to), actives + StampsOf(bs.active, to), deads + StampsOf(bs.dead, to))
  {
    hide FlowShare;
    var actives', deads' := actives + StampsOf(bs.active, to), deads + StampsOf(bs.dead, to);
    forall g | g in keys + Keys(bs.Shares(), to) ensures Stamped(actives', g) || Stamped(deads', g) {
      if g in keys {
        if Stamped(actives, g) {
          var t :| (g, t) in actives;
          assert (g, t) in actives';
        } else {
          var t :| (g, t) in deads;
          assert (g, t) in deads';
        }
      } else {
        var f :| f in bs.Shares() && to(f) == g;
        if f in bs.active {
          assert (g, bs.active[f].time) in actives';
        } else {
          assert (g, bs.dead[f].time) in deads';
        }
      }
    }
  }

  const NOTHING_SEEN: Seen := Seen([], [], [], [], [])

  lemma GatherOne(was: Wips, wips: Wips, seen: Seen, bs: BundleState, to: Project, cut: nat)
    requires Gathered(was, seen, to) && Walked(wips, was, to, bs.Shares(), bs.Active())
    requires Clocked(wips, Union(seen.actives) + StampsOf(bs.active, to), Union(seen.deads) + StampsOf(bs.dead, to))
    requires Tallied(wips)
    ensures Gathered(wips, Add(seen, bs, to, cut), to)
  {
    hide Summed, Clocked, Tallied, StampsOf, Union, AllStamped, SumOf, ChildrenOf, BundleState.Shares, BundleState.Active;
    StampMore(was.Keys, Union(seen.actives), Union(seen.deads), bs, to);
    SummedSnoc(was, wips, seen.shares, seen.kids, bs.Shares(), bs.Active(), to);
    UnionSnoc(seen.actives, StampsOf(bs.active, to));
    UnionSnoc(seen.deads, StampsOf(bs.dead, to));
  }

  // ---- What a result says ----

  /** Aggregate g: its time, its active flows and what became of its sums; or nothing. */
  ghost predicate AnswerAt(g: Flow, infos: Infos, states: States, states': States, seen: Seen, to: Project, measure: Measure) {
    if g in infos
    then && HasMember(seen.shares, to, g)
         && IsTime(infos[g].time, Union(seen.actives), Union(seen.deads), g)
         && multiset(infos[g].children) == MembersAll(seen.kids, to, g)
         && Tally(infos[g].children, SumAll(seen.shares, to, g))
         && Given(infos[g], g, StateOf(states, g), StateOf(states', g), SumAll(seen.shares, to, g), measure)
    else StateOf(states', g) == StateOf(states, g)
  }

  ghost predicate IsAnswer(infos: Infos, states: States, states': States, seen: Seen, to: Project, measure: Measure) {
    forall g :: AnswerAt(g, infos, states, states', seen, to, measure)
  }

  ghost predicate Complete(infos: Infos, seen: Seen, to: Project) {
    forall g :: HasMember(seen.shares, to, g) ==> g in infos
  }

  lemma SettledIsAnswer(infos: Infos, states: States, states': States, wips: Wips, seen: Seen, to: Project, measure: Measure)
    requires Gathered(wips, seen, to) && forall g :: Settled(g, states, states', wips, infos, measure)
    ensures IsAnswer(infos, states, states', seen, to, measure)
    ensures infos.Keys == wips.Keys <==> Complete(infos, seen, to) && infos.Keys <= wips.Keys
  {
    hide Clocked, IsTime, Given, Union, HasMember, MembersAll, SumAll, TimeOf, Stamped, Tally;
    forall g ensures AnswerAt(g, infos, states, states', seen, to, measure) {
      assert Settled(g, states, states', wips, infos, measure);
      if g in infos {
        TimeOfIsTime(wips, g, Union(seen.actives), Union(seen.deads));
        assert SumOf(wips, g) == SumAll(seen.shares, to, g) && ChildrenOf(wips, g) == MembersAll(seen.kids, to, g);
      }
    }
  }

  /** The bytes handed out for g are what its flows add up to unless the update was late and something had changed. */
  lemma ShownBytes(g: Flow, infos: Infos, states: States, states': States, seen: Seen, to: Project, measure: Measure)
    requires IsAnswer(infos, states, states', seen, to, measure) && g in infos
    ensures SameBytes(FlowShare(infos[g].parent, false), SumAll(seen.shares, to, g)) <==>
            !Late(StateOf(states, g), infos[g].time) || SameCounts(StateOf(states, g), SumAll(seen.shares, to, g))
  {
    assert AnswerAt(g, infos, states, states', seen, to, measure);
    GivenBytes(infos[g], g, StateOf(states, g), StateOf(states', g), SumAll(seen.shares, to, g), measure);
  }

  /** The priority that is handed out: LOPRI if bytes were added since the last update, and all of them at LOPRI. */
  lemma ShownPriority(g: Flow, infos: Infos, states: States, states': States, seen: Seen, to: Project, measure: Measure)
    requires IsAnswer(infos, states, states', seen, to, measure) && g in infos
    ensures infos[g].parent.flow == g
    ensures !Late(StateOf(states, g), infos[g].time) ==>
              var added := Minus(SumAll(seen.shares, to, g), StateOf(states, g));
              infos[g].parent.currentlyLopri <==> added.0 == 0 && added.1 > 0
    ensures Late(StateOf(states, g), infos[g].time) ==>
              infos[g].parent.currentlyLopri == StateOf(states, g).isLopri && StateOf(states', g) == StateOf(states, g)
    ensures infos[g].parent.currentlyLopri == StateOf(states', g).isLopri
  {
    hide SumAll;
    assert AnswerAt(g, infos, states, states', seen, to, measure);
  }

  /** The bytes added at HIPRI and at LOPRI. */
  ghost function Minus(sums: Sums, state: AggState): (int, int) {
    (sums.cumHipri - state.cumHipri, sums.cumLopri - state.cumLopri)
  }

  ghost predicate NoneFalls(states: States, shares: seq<Flows>, to: Project) {
    forall g :: !Falls(StateOf(states, g), SumAll(shares, to, g))
  }

  ghost predicate NoneLate(infos: Infos, states: States) {
    forall g :: g in infos ==> !Late(StateOf(states, g), infos[g].time)
  }

  /** An aggregate whose update was dropped although its flows had changed. */
  ghost predicate Lags(g: Flow, infos: Infos, states: States, seen: Seen, to: Project) {
    g in infos && Late(StateOf(states, g), infos[g].time) && !SameCounts(StateOf(states, g), SumAll(seen.shares, to, g))
  }

  /** What is handed out adds up to all flows if no aggregate lags; and only then, if no sum is below its state. */
  lemma ConservedIff(infos: Infos, states: States, states': States, seen: Seen, to: Project, measure: Measure)
    requires IsAnswer(infos, states, states', seen, to, measure) && Complete(infos, seen, to)
    ensures (forall g :: !Lags(g, infos, states, seen, to)) ==> SameBytes(Total(ParentSums(infos)), TotalAll(seen.shares))
    ensures NoneFalls(states, seen.shares, to) ==>
              NotAbove(Total(ParentSums(infos)), TotalAll(seen.shares)) &&
              (SameBytes(Total(ParentSums(infos)), TotalAll(seen.shares)) <==> forall g :: !Lags(g, infos, states, seen, to))
  {
    hide Total, TotalAll, SumAll, IsAnswer, HasMember, FlowShare;
    var all := SumsAt(seen.shares, to, infos.Keys);
    CompleteCovers(infos, states, states', seen, to, measure);
    SumsConserve(seen.shares, to, infos.Keys);
    forall g | g in infos ensures SameBytes(ParentSums(infos)[g], all[g]) <==> !Lags(g, infos, states, seen, to) {
      ShownBytes(g, infos, states, states', seen, to, measure);
    }
    if forall g :: !Lags(g, infos, states, seen, to) {
      SameTotal(ParentSums(infos), all);
    }
    if NoneFalls(states, seen.shares, to) {
      forall g | g in infos ensures NotAbove(ParentSums(infos)[g], all[g]) {
        ShownNotAbove(g, infos, states, states', seen, to, measure);
      }
      SameTotalIff(ParentSums(infos), all);
    }
  }

  lemma CompleteCovers(infos: Infos, states: States, states': States, seen: Seen, to: Project, measure: Measure)
    requires IsAnswer(infos, states, states', seen, to, measure) && Complete(infos, seen, to)
    ensures Covers(infos.Keys, seen.shares, to)
  {
    hide HasMember, IsTime, Given, MembersAll;
    forall g ensures g in infos.Keys <==> HasMember(seen.shares, to, g) {
      assert AnswerAt(g, infos, states, states', seen, to, measure);
    }
    MembersAreCovered(infos.Keys, seen.shares, to);
  }

  lemma ShownNotAbove(g: Flow, infos: Infos, states: States, states': States, seen: Seen, to: Project, measure: Measure)
    requires IsAnswer(infos, states, states', seen, to, measure) && g in infos
    requires !Falls(StateOf(states, g), SumAll(seen.shares, to, g))
    ensures NotAbove(FlowShare(infos[g].parent, false), SumAll(seen.shares, to, g))
  {
    assert AnswerAt(g, infos, states, states', seen, to, measure);
  }

  /** An aggregate that was not handed out because one of its counters would go down. */
  ghost predicate SomeFalls(infos: Infos, states: States, seen: Seen, to: Project) {
    exists g :: HasMember(seen.shares, to, g) && g !in infos && Falls(StateOf(states, g), SumAll(seen.shares, to, g))
  }

  lemma NothingYet(n: nat, events: seq<Event>, between: seq<seq<Event>>, bundles: seq<BundleState>, to: Project)
    requires IsHistory(n, events)
    ensures Joined(between[..0]) == [] && HasSize(NOTHING_SEEN, 0) && Gathered(map[], NOTHING_SEEN, to)
    ensures SeenAt(NOTHING_SEEN.shares, NOTHING_SEEN.cuts, n, events) && AllNow(NOTHING_SEEN, bundles, 0, to)
  {
    NothingSummed(to);
    NothingSeen(n, events);
  }

  /** One more bundler seen. */
  lemma AddIs(seen: Seen, bundles: seq<BundleState>, n: nat, to: Project, cut: nat)
    requires n < |bundles| && HasSize(seen, n)
    ensures var seen' := Add(seen, bundles[n], to, cut);
            && HasSize(seen', n + 1)
            && seen'.shares == seen.shares + [bundles[n].Shares()] && seen'.cuts == seen.cuts + [cut]
            && (AllNow(seen, bundles, n, to) ==> AllNow(seen', bundles, n + 1, to))
  {
    hide BundleState.Shares, BundleState.Active, StampsOf;
    if AllNow(seen, bundles, n, to) {
      forall i | 0 <= i < n + 1 ensures IsNow(Add(seen, bundles[n], to, cut), i, bundles[i], to) {
        assert i < n ==> IsNow(seen, i, bundles[i], to);
      }
    }
  }

  lemma Failing(ok: bool, infos: Infos, states: States, wips: Wips, seen: Seen, to: Project)
    requires Gathered(wips, seen, to)
    requires !ok ==> exists g :: g in wips && g !in infos && Fatal(StateOf(states, g), wips[g])
    ensures !ok ==> SomeFalls(infos, states, seen, to)
    ensures NoneFalls(states, seen.shares, to) ==> ok
  {
    hide HasMember, SumAll, MembersAll, Clocked, AllStamped;
    if !ok {
      var g :| g in wips && g !in infos && Fatal(StateOf(states, g), wips[g]);
      assert SumOf(wips, g) == SumAll(seen.shares, to, g) && HasMember(seen.shares, to, g);
    }
  }

  lemma OneBundlerIsUnbroken(between: seq<seq<Event>>)
    ensures |between| <= 1 ==> Unbroken(between)
  {
  }

  lemma MoreStamps(states: States, actives: seq<Stamps>, deads: seq<Stamps>, events: seq<Event>)
    ensures Dated(actives, events) ==> Dated(actives + [{}], events)
    ensures Dated(deads, events) ==> Dated(deads + [{}], events)
    ensures InTime(states, actives, deads) ==> InTime(states, actives + [{}], deads + [{}])
  {
    hide Union;
    UnionSnoc(actives, {});
    UnionSnoc(deads, {});
    assert Union(actives) + {} == Union(actives) && Union(deads) + {} == Union(deads);
    if InTime(states, actives, deads) {
      forall g ensures Reached(StateOf(states, g), actives + [{}], deads + [{}], g) {
        assert Reached(StateOf(states, g), actives, deads, g);
      }
    }
  }

  lemma TimelyBefore(events: seq<Event>, e: Event)
    ensures Timely(events + [e]) ==> Timely(events)
  {
    if Timely(events + [e]) {
      forall i, j | 0 <= i < j < |events| ensures events[i].timestamp <= events[j].timestamp {
        assert (events + [e])[i].timestamp <= (events + [e])[j].timestamp;
      }
    }
  }
}
