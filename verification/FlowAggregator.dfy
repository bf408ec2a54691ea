/**
 FlowAggregator as callers see it: bundlers register, report and expire flows, and ForEachAgg
 hands out every aggregate. Whole runs are kept as a history of reports, of accumulations and of
 what was handed out.
 */
module FlowAggregators {
  import opened FlowSums
  import opened FlowConservation
  import opened FlowAccounting
  import opened FlowClocks
  import opened FlowTotals
  import opened FlowHistory
  import opened AggStates
  import opened FlowRecords

  class FlowAggregator {
    const to: Project
    const window: int
    const measure: Measure
    var ids: map<Flow, nat>
    var bundles: seq<BundleState>
    var states: States

    ghost var events: seq<Event>   // every Update so far
    ghost var totals: seq<Wips>    // every accumulation so far
    ghost var marks: seq<seq<nat>> // how many Updates had come when it visited each bundler
    ghost var shown: seq<Infos>    // every result of ForEachAgg so far
    ghost var whole: bool          // no Update ever came between two visits

    constructor (to: Project, window: int, measure: Measure)
      ensures Valid() && this.to == to && this.window == window && this.measure == measure
      ensures bundles == [] && ids == map[] && states == map[] && events == [] && shown == [] && whole
    {
      this.to, this.window, this.measure := to, window, measure;
      ids, bundles, states := map[], [], map[];
      events, totals, marks, shown, whole := [], [], [], [], true;
    }

    /** Each bundler's state holds the latest reports of the flows it ever reported. */
    ghost predicate Current()
      requires IsHistory(|bundles|, events)
      reads this`bundles, this`events, bundles
    {
      && (forall i, j :: 0 <= i < j < |bundles| ==> bundles[i] != bundles[j])
      && (forall i :: 0 <= i < |bundles| ==>
            bundles[i].Valid() && bundles[i].Latest() == After(Blank(|bundles|), events)[i])
    }

    ghost function Actives(): seq<Stamps>
      reads this`bundles, bundles
    {
      ActiveStamps(bundles, to)
    }

    ghost function Deads(): seq<Stamps>
      reads this`bundles, bundles
    {
      DeadStamps(bundles, to)
    }

    /** As long as reports come in order, no time is after the last of them, and no state is ahead. */
    ghost predicate Punctual()
      reads this`bundles, this`events, this`states, this`whole, bundles
    {
      KeepsTime(events, states, whole, Actives(), Deads())
    }

    ghost predicate Valid()
      reads this, bundles
    {
      && (forall b :: b in ids ==> ids[b] < |bundles|)
      && IsHistory(|bundles|, events) && Current()
      && IsRecord(|bundles|, events, marks, totals, to)
      && AllFromTotals(states, totals)
      && Rising(shown, states, totals)
      && Punctual()
    }

    /** No flow's counters ever went down between two of its reports. */
    ghost predicate Orderly()
      reads this`bundles, this`events
    {
      IsHistory(|bundles|, events) && AllNeverDecrease(Blank(|bundles|), events)
    }

    /** A new bundler starts with nothing. */
    method NewBundler() returns (id: nat)
      requires IsHistory(|bundles|, events) && Current() && Punctual()
      modifies this`bundles
      ensures id == |old(bundles)| && |bundles| == id + 1 && bundles[..id] == old(bundles) && fresh(bundles[id])
      ensures bundles[id].active == map[] && bundles[id].dead == map[]
      ensures IsHistory(|bundles|, events) && Current() && Punctual()
    {
      hide After, IsHistory, InTime, Dated, Timely;
      var bs := new BundleState();
      id := |bundles|;
      AfterWider(id, events);
      MoreStamps(states, Actives(), Deads(), events);
      ghost var actives, deads := Actives(), Deads();
      bundles := bundles + [bs];
      assert StampsOf(map[], to) == {};
      assert Actives() == actives + [{}] && Deads() == deads + [{}];
    }

    /** GetBundlerID: a bundler keeps its ID. */
    method GetBundlerId(bundler: Flow) returns (id: nat)
      requires Valid()
      modifies this`ids, this`bundles, this`marks
      ensures Valid() && id < |bundles| && bundler in ids && ids == old(ids)[bundler := id]
      ensures bundler in old(ids) ==> id == old(ids)[bundler] && bundles == old(bundles)
      ensures bundler !in old(ids) ==>
                && id == |old(bundles)| && |bundles| == id + 1 && bundles[..id] == old(bundles) && fresh(bundles[id])
                && bundles[id].active == map[] && bundles[id].dead == map[]
    {
      hide IsRecord, AllFromTotals, Rising, Current, IsHistory, Punctual;
      if bundler in ids {
        id := ids[bundler];
        return;
      }
      RecordWider(|bundles|, events, marks, totals, to);
      id := NewBundler();
      marks := Wider(marks);
      ids := ids[bundler := id];
    }

    /** What a report does to its bundler and to the times. */
    method Absorb(id: nat, timestamp: int, infos: seq<FlowInfo>)
      requires IsHistory(|bundles|, events) && Current() && Punctual() && id < |bundles|
      modifies this`events, bundles[id]
      ensures events == old(events) + [Event(id, timestamp, infos)]
      ensures IsHistory(|bundles|, events) && Current() && Punctual()
      ensures bundles[id].Latest() == Report(old(bundles[id].Latest()), infos)
      ensures window >= 0 ==> forall f :: Mentions(infos, f) ==> f in bundles[id].active
      ensures Moved(old(bundles[id].active), old(bundles[id].dead), bundles[id].active, bundles[id].dead, timestamp)
    {
      hide Report, InTime, Dated, Timely, Moved, StampsOf, Mentions, After;
      ghost var e := Event(id, timestamp, infos);
      ghost var actives, deads, bs := Actives(), Deads(), bundles[id];
      ghost var active, dead := bs.active, bs.dead;
      bundles[id].Update(timestamp, infos, window);
      AfterAppend(Blank(|bundles|), events, e);
      assert Actives() == actives[id := StampsOf(bs.active, to)] && Deads() == deads[id := StampsOf(bs.dead, to)];
      TimelyBefore(events, e);
      if Timely(events + [e]) {
        ReportInTime(states, actives, deads, events, e, active, dead, bs.active, bs.dead, to);
      }
      events := events + [e];
    }

    method Update(id: nat, timestamp: int, infos: seq<FlowInfo>)
      requires Valid() && id < |bundles|
      modifies this`events, bundles[id]
      ensures Valid() && events == old(events) + [Event(id, timestamp, infos)]
      ensures bundles[id].Latest() == Report(old(bundles[id].Latest()), infos)
      ensures window >= 0 ==> forall f :: Mentions(infos, f) ==> f in bundles[id].active
      ensures Moved(old(bundles[id].active), old(bundles[id].dead), bundles[id].active, bundles[id].dead, timestamp)
    {
      hide IsRecord, AllFromTotals, Rising, Report, Current, Punctual, Mentions, Moved, BundleState.Latest;
      RecordAfterEvent(|bundles|, events, Event(id, timestamp, infos), marks, totals, to);
      Absorb(id, timestamp, infos);
    }

    /** Reports that come while ForEachAgg is on its way from one bundler to the next. */
    method UpdateAll(late: seq<Event>)
      requires Valid() && forall k :: 0 <= k < |late| ==> late[k].bundler < |bundles|
      modifies this`events, bundles
      ensures Valid() && events == old(events) + late
      ensures late == [] ==> unchanged(bundles)
    {
      hide Valid;
      for k := 0 to |late|
        invariant Valid() && events == old(events) + late[..k]
        invariant k == 0 ==> unchanged(bundles)
      {
        Update(late[k].bundler, late[k].timestamp, late[k].infos);
      }
      assert late[..|late|] == late;
    }

    /** One bundler adds what its flows amount to, as of now. */
    method VisitOne(n: nat, before: Wips, ghost seen: Seen) returns (wips: Wips)
      requires Valid() && n < |bundles| && Gathered(before, seen, to)
      ensures Gathered(wips, Add(seen, bundles[n], to, |events|), to)
      ensures SameCounters(bundles[n].Shares(), Counters(After(Blank(|bundles|), events)[n]))
    {
      hide IsRecord, AllFromTotals, Rising, Punctual, After, Counters, Walked, Clocked, Tallied, Summed, Union, StampsOf;
      wips := AddBundler(bundles[n], before, to, Union(seen.actives), Union(seen.deads));
      GatherOne(before, wips, seen, bundles[n], to, |events|);
      SharesHaveCounters(bundles[n]);
    }

    /** The next bundler is visited, after the reports that come before. */
    method VisitNext(n: nat, late: seq<Event>, before: Wips, ghost seen: Seen) returns (wips: Wips, ghost seen': Seen)
      requires Valid() && n < |bundles| && (forall k :: 0 <= k < |late| ==> late[k].bundler < |bundles|)
      requires HasSize(seen, n) && Gathered(before, seen, to) && SeenAt(seen.shares, seen.cuts, |bundles|, events)
      modifies this`events, bundles
      ensures Valid() && events == old(events) + late
      ensures HasSize(seen', n + 1) && Gathered(wips, seen', to) && SeenAt(seen'.shares, seen'.cuts, |bundles|, events)
      ensures seen'.cuts == seen.cuts + [|events|]
      ensures (n == 0 || late == []) && old(AllNow(seen, bundles, n, to)) ==> AllNow(seen', bundles, n + 1, to)
      ensures late == [] ==> unchanged(bundles)
    {
      hide Valid, Gathered, SeenAt, IsNow, After, Add, SameCounters, BundleState.Shares;
      HistoryOfValid();
      ghost var early := events;
      UpdateAll(late);
      HistoryOfValid();
      SeenLater(seen.shares, seen.cuts, |bundles|, early, events);
      wips := VisitOne(n, before, seen);
      SeenOne(seen.shares, seen.cuts, |bundles|, events, bundles[n].Shares());
      AddIs(seen, bundles, n, to, |events|);
      seen' := Add(seen, bundles[n], to, |events|);
    }

    /** The accumulation visits one bundler after the other, and reports may come in between. */
    method Collect(between: seq<seq<Event>>) returns (wips: Wips, ghost seen: Seen)
      requires Valid() && AreEvents(between, |bundles|)
      modifies this`events, bundles
      ensures Valid() && events == old(events) + Joined(between)
      ensures HasSize(seen, |bundles|) && Gathered(wips, seen, to)
      ensures SeenAt(seen.shares, seen.cuts, |bundles|, events)
      ensures forall i :: 0 <= i < |bundles| ==> seen.cuts[i] >= |old(events)|
      ensures Unbroken(between) ==> AllNow(seen, bundles, |bundles|, to)
      ensures Joined(between) == [] ==> unchanged(bundles)
    {
      hide Valid, Gathered, SeenAt, AllNow, Joined, IsHistory;
      wips, seen := map[], NOTHING_SEEN;
      HistoryOfValid();
      NothingYet(|bundles|, events, between, bundles, to);
      for n := 0 to |bundles|
        invariant Valid() && IsHistory(|bundles|, events) && events == old(events) + Joined(between[..n])
        invariant HasSize(seen, n) && Gathered(wips, seen, to) && SeenAt(seen.shares, seen.cuts, |bundles|, events)
        invariant forall i :: 0 <= i < n ==> seen.cuts[i] >= |old(events)|
        invariant Unbroken(between) ==> AllNow(seen, bundles, n, to)
        invariant Joined(between[..n]) == [] ==> unchanged(bundles)
      {
        JoinedSnoc(between, n);
        wips, seen := VisitNext(n, between[n], wips, seen);
        HistoryOfValid();
      }
      assert between[..|bundles|] == between;
    }

    /** What one accumulation makes of the states, and of the records of the run. */
    lemma Recorded(wips: Wips, seen: Seen, early: seq<Event>, infos: Infos, states': States)
      requires Valid() && early <= events && IsRecord(|bundles|, early, marks, totals, to)
      requires HasSize(seen, |bundles|) && Gathered(wips, seen, to) && SeenAt(seen.shares, seen.cuts, |bundles|, events)
      requires forall i :: 0 <= i < |bundles| ==> seen.cuts[i] >= |early|
      requires forall g :: Settled(g, states, states', wips, infos, measure)
      ensures IsRecord(|bundles|, events, marks + [seen.cuts], totals + [wips], to)
      ensures AllFromTotals(states', totals + [wips])
      ensures Rising(shown, states', totals + [wips])
      ensures infos.Keys == wips.Keys ==> Rising(shown + [infos], states', totals + [wips])
      ensures Orderly() ==> NoneFalls(states, seen.shares, to)
    {
      hide Current, IsRecord, Punctual, Rising, AllFromTotals, Settled, Clocked, AllStamped, SeenAt, AllBefore,
        ShowsLevel, Orderly, SumAll, Totalled, HasMember, MembersAll, NotLater;
      var n := |bundles|;
      SeenIsLevel(wips, seen.shares, seen.kids, seen.cuts, n, events, to);
      MarksAreOld(n, early, marks, totals, to, seen.cuts);
      RecordGrows(n, events, marks, totals, wips, seen.cuts, to);
      UpdatedFromTotals(states, states', totals, wips, infos, measure);
      TotalledStays(n, events, marks + [seen.cuts], totals, wips, to);
      RisingGrows(shown, states, states', totals, wips, infos, measure);
      if Orderly() {
        NothingFalls(wips, seen);
      }
    }

    lemma NothingFalls(wips: Wips, seen: Seen)
      requires IsHistory(|bundles|, events) && AllFromTotals(states, totals) && Orderly() && Gathered(wips, seen, to)
      requires IsRecord(|bundles|, events, marks + [seen.cuts], totals + [wips], to)
      ensures NoneFalls(states, seen.shares, to)
    {
      hide IsRecord, FromTotals, Clocked, AllStamped, SumAll, HasMember, MembersAll, Falls;
      forall g ensures !Falls(StateOf(states, g), SumAll(seen.shares, to, g)) {
        assert FromTotals(StateOf(states, g), totals, g);
        FromTotalsGrows(StateOf(states, g), totals, wips, g);
        StateIsNotAbove(|bundles|, events, marks + [seen.cuts], totals + [wips], to, StateOf(states, g), g);
        assert (totals + [wips])[|totals|] == wips && SumOf(wips, g) == SumAll(seen.shares, to, g);
      }
    }

    /** With reports in order and unbroken accumulations no update is late, and the states stay in time. */
    lemma NothingIsLate(wips: Wips, seen: Seen, infos: Infos, states': States, unbroken: bool)
      requires Punctual() && HasSize(seen, |bundles|) && (|bundles| <= 1 ==> unbroken)
      requires unbroken ==> AllNow(seen, bundles, |bundles|, to)
      requires forall g :: Settled(g, states, states', wips, infos, measure)
      requires IsAnswer(infos, states, states', seen, to, measure)
      ensures Timely(events) && whole && unbroken ==> NoneLate(infos, states)
      ensures KeepsTime(events, states', whole && unbroken, Actives(), Deads())
    {
      hide Settled, InTime, Dated, Timely, Union, IsTime, StampsOf, Late, HasMember, MembersAll, Given,
        BundleState.Shares, BundleState.Active;
      if Timely(events) && whole && unbroken {
        NowIs(seen);
        forall g | g in infos
          ensures !Late(StateOf(states, g), infos[g].time) && IsTime(infos[g].time, Union(Actives()), Union(Deads()), g)
        {
          assert AnswerAt(g, infos, states, states', seen, to, measure);
          NowIsNotLate(states, Actives(), Deads(), infos[g].time, g);
        }
        UpdatedInTime(states, states', wips, infos, measure, Actives(), Deads());
      }
    }

    lemma NowIs(seen: Seen)
      requires HasSize(seen, |bundles|) && AllNow(seen, bundles, |bundles|, to)
      ensures seen.actives == Actives() && seen.deads == Deads()
    {
      forall i | 0 <= i < |bundles| ensures seen.actives[i] == Actives()[i] && seen.deads[i] == Deads()[i] {
        assert IsNow(seen, i, bundles[i], to);
      }
    }

    /** The part of ForEachAgg after the accumulation. */
    method Show(wips: Wips, ghost seen: Seen, ghost early: seq<Event>, ghost unbroken: bool) returns (ok: bool, infos: Infos)
      requires Valid() && early <= events && IsRecord(|bundles|, early, marks, totals, to)
      requires HasSize(seen, |bundles|) && Gathered(wips, seen, to) && SeenAt(seen.shares, seen.cuts, |bundles|, events)
      requires forall i :: 0 <= i < |bundles| ==> seen.cuts[i] >= |early|
      requires (unbroken ==> AllNow(seen, bundles, |bundles|, to)) && (|bundles| <= 1 ==> unbroken)
      modifies this`states, this`shown, this`totals, this`marks, this`whole
      ensures Valid() && IsAnswer(infos, old(states), states, seen, to, measure)
      ensures ok <==> Complete(infos, seen, to)
      ensures !ok ==> SomeFalls(infos, old(states), seen, to)
      ensures shown == if ok then old(shown) + [infos] else old(shown)
      ensures Orderly() ==> ok && NoneFalls(old(states), seen.shares, to)
      ensures whole == (old(whole) && unbroken)
      ensures Timely(events) && whole ==> NoneLate(infos, old(states))
    {
      hide Valid, Current, IsRecord, Rising, AllFromTotals, Settled, KeepsTime, Timely, Orderly, IsAnswer, Gathered, SeenAt,
        AllNow, NoneFalls, HasMember, Complete, Fatal, NoneLate, SomeFalls, IsHistory;
      PartsOfValid();
      var states';
      ok, infos, states' := UpdateStates(states, wips, measure);
      SettledIsAnswer(infos, states, states', wips, seen, to, measure);
      Recorded(wips, seen, early, infos, states');
      Failing(ok, infos, states, wips, seen, to);
      NothingIsLate(wips, seen, infos, states', unbroken);
      Commit(wips, seen.cuts, infos, states', ok, unbroken);
    }

    /** The new states, and one more entry in each record. */
    method Commit(ghost wips: Wips, ghost cuts: seq<nat>, ghost infos: Infos, states': States, ghost ok: bool, ghost unbroken: bool)
      requires (forall b :: b in ids ==> ids[b] < |bundles|) && IsHistory(|bundles|, events) && Current()
      requires IsRecord(|bundles|, events, marks + [cuts], totals + [wips], to) && AllFromTotals(states', totals + [wips])
      requires Rising(if ok then shown + [infos] else shown, states', totals + [wips])
      requires KeepsTime(events, states', whole && unbroken, Actives(), Deads())
      modifies this`states, this`shown, this`totals, this`marks, this`whole
      ensures Valid() && states == states' && whole == (old(whole) && unbroken)
      ensures shown == if ok then old(shown) + [infos] else old(shown)
    {
      hide Current, IsRecord, Rising, AllFromTotals, KeepsTime, IsHistory;
      states, whole := states', whole && unbroken;
      marks, totals := marks + [cuts], totals + [wips];
      shown := if ok then shown + [infos] else shown;
    }

    lemma PartsOfValid()
      requires Valid()
      ensures (forall b :: b in ids ==> ids[b] < |bundles|) && IsHistory(|bundles|, events) && Current() && Punctual()
    {
    }

    lemma RecordOfValid()
      requires Valid()
      ensures IsHistory(|bundles|, events) && IsRecord(|bundles|, events, marks, totals, to)
    {
    }

    /**
     ForEachAgg. For each aggregate the callback is given the time, the active flows and the last
     update of its state. Reports in order, with none between the visits to two bundlers, are never
     late; a late one is dropped. Counters that never go down never fail a fatal check.
     */
    method ForEachAgg(between: seq<seq<Event>>) returns (ok: bool, infos: Infos, ghost seen: Seen)
      requires Valid() && AreEvents(between, |bundles|)
      modifies this`states, this`shown, this`totals, this`marks, this`events, this`whole, bundles
      ensures Joined(between) == [] ==> unchanged(bundles)
      ensures Valid() && events == old(events) + Joined(between)
      ensures HasSize(seen, |bundles|) && (Unbroken(between) ==> AllNow(seen, bundles, |bundles|, to))
      ensures IsAnswer(infos, old(states), states, seen, to, measure)
      ensures ok <==> Complete(infos, seen, to)
      ensures !ok ==> SomeFalls(infos, old(states), seen, to)
      ensures shown == if ok then old(shown) + [infos] else old(shown)
      ensures Orderly() ==> ok && NoneFalls(old(states), seen.shares, to)
      ensures whole == (old(whole) && Unbroken(between))
      ensures Timely(events) && whole ==> NoneLate(infos, old(states))
    {
      hide Valid, IsAnswer, Gathered, SeenAt, AllNow, NoneFalls, HasMember, Complete, Joined, Unbroken, NoneLate,
        Timely, Orderly, IsRecord;
      RecordOfValid();
      ghost var early := events;
      var wips;
      wips, seen := Collect(between);
      OneBundlerIsUnbroken(between);
      ok, infos := Show(wips, seen, early, Unbroken(between));
    }

    /** Any two results of a run, in order, whatever the times and the counters. */
    lemma NeverLower(a: nat, b: nat, g: Flow)
      requires Valid() && a <= b < |shown| && g in shown[a]
      ensures g in shown[b] && BytesNotAbove(shown[a][g].parent, shown[b][g].parent)
    {
      hide IsRecord, AllFromTotals, Current, Punctual;
      assert a < b ==> Follows(shown[a], shown[b]);
    }

    lemma NotNegative()
      requires Valid()
      ensures NoneNegative(states)
    {
      hide IsRecord, AllFromTotals, Current, Punctual, NoneNegative;
    }

    lemma HistoryOfValid()
      requires Valid()
      ensures IsHistory(|bundles|, events)
    {
    }
  }
}
