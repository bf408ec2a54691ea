/** FlowAggregator: a bundler's active and dead flows, and the sums that ForEachAgg accumulates. */
module FlowAccounting {
  import opened Sequences
  import opened FlowSums

  datatype FlowInfo = FlowInfo(flow: Flow, ewmaUsageBps: int, cumHipriBytes: int, cumLopriBytes: int, currentlyLopri: bool)

  datatype Timed = Timed(time: int, info: FlowInfo)

  type Reports = map<Flow, FlowInfo>

  /** The latest report of each flow, after these reports on top of earlier ones. */
  ghost function Report(m: Reports, infos: seq<FlowInfo>): Reports {
    if infos == [] then m
    else
      var k := |infos| - 1;
      Report(m, infos[..k])[infos[k].flow := infos[k]]
  }

  ghost predicate Mentions(infos: seq<FlowInfo>, f: Flow) {
    exists k :: 0 <= k < |infos| && infos[k].flow == f
  }

  lemma ReportSnoc(m: Reports, infos: seq<FlowInfo>, k: nat)
    requires k < |infos|
    ensures Report(m, infos[..k + 1]) == Report(m, infos[..k])[infos[k].flow := infos[k]]
  {
    assert infos[..k + 1][..k] == infos[..k];
  }

  lemma MentionsSnoc(infos: seq<FlowInfo>, k: nat, f: Flow)
    requires k < |infos|
    ensures Mentions(infos[..k + 1], f) <==> Mentions(infos[..k], f) || infos[k].flow == f
  {
    if Mentions(infos[..k], f) {
      var j :| 0 <= j < k && infos[..k][j].flow == f;
      assert infos[..k + 1][j].flow == f;
    }
    if infos[k].flow == f {
      assert infos[..k + 1][k].flow == f;
    }
    if Mentions(infos[..k + 1], f) {
      var j :| 0 <= j < k + 1 && infos[..k + 1][j].flow == f;
      assert j < k ==> infos[..k][j].flow == f;
    }
  }

  /** Report keeps every flow that was ever reported. */
  lemma {:induction false} ReportKeeps(m: Reports, infos: seq<FlowInfo>, f: Flow)
    ensures f in Report(m, infos) <==> f in m || Mentions(infos, f)
    ensures f in m && !Mentions(infos, f) ==> Report(m, infos)[f] == m[f]
  {
    if infos != [] {
      hide Mentions;
      var k := |infos| - 1;
      ReportKeeps(m, infos[..k], f);
      MentionsSnoc(infos, k, f);
      assert infos[..k + 1] == infos;
    } else {
      ReportAndMentionNone(m, infos);
    }
  }

  /** A reported flow has its last report. */
  lemma {:induction false} ReportIsLast(m: Reports, infos: seq<FlowInfo>, k: nat)
    requires k < |infos| && forall j :: k < j < |infos| ==> infos[j].flow != infos[k].flow
    ensures infos[k].flow in Report(m, infos) && Report(m, infos)[infos[k].flow] == infos[k]
  {
    var n := |infos| - 1;
    if k < n {
      ReportIsLast(m, infos[..n], k);
    }
  }

  /** What a flow adds to its aggregate: usage only while it is active. */
  function FlowShare(info: FlowInfo, active: bool): Sums {
    if !active then Sums(info.cumHipriBytes, info.cumLopriBytes, 0, 0, 0)
    else if info.currentlyLopri
    then Sums(info.cumHipriBytes, info.cumLopriBytes, info.ewmaUsageBps, 0, info.ewmaUsageBps)
    else Sums(info.cumHipriBytes, info.cumLopriBytes, info.ewmaUsageBps, info.ewmaUsageBps, 0)
  }

  ghost function LatestOf(active: map<Flow, Timed>, dead: map<Flow, Timed>): Reports {
    map f | f in active.Keys + dead.Keys :: if f in active then active[f].info else dead[f].info
  }

  lemma LatestAbsorbs(active: map<Flow, Timed>, dead: map<Flow, Timed>, timestamp: int, fi: FlowInfo)
    ensures LatestOf(active[fi.flow := Timed(timestamp, fi)], dead - {fi.flow}) == LatestOf(active, dead)[fi.flow := fi]
  {
  }

  lemma LatestBuries(active: map<Flow, Timed>, dead: map<Flow, Timed>, timestamp: int, m: Flow)
    requires m in active
    ensures LatestOf(active - {m}, dead[m := Timed(timestamp, active[m].info)]) == LatestOf(active, dead)
  {
  }

  /** What a report does to the times: flows stay with the time they had or move to the time of the report. */
  ghost predicate Moved(active: map<Flow, Timed>, dead: map<Flow, Timed>, active': map<Flow, Timed>,
                        dead': map<Flow, Timed>, timestamp: int) {
    && (forall f :: f in active' ==> active'[f].time == timestamp || (f in active && active'[f].time == active[f].time))
    && (forall f :: f in dead' ==> dead'[f].time == timestamp || (f in dead && dead'[f].time == dead[f].time))
    && (forall f :: f in active && f !in active' ==> f in dead' && dead'[f].time == timestamp)
    && (forall f :: f in dead && f !in active' ==> f in dead')
  }

  class BundleState {
    var active: map<Flow, Timed>
    var dead: map<Flow, Timed>

    constructor ()
      ensures Valid() && Latest() == map[] && active == map[] && dead == map[]
    {
      active, dead := map[], map[];
    }

    ghost predicate Valid()
      reads this
    {
      && active.Keys !! dead.Keys
      && (forall f :: f in active ==> active[f].info.flow == f)
      && (forall f :: f in dead ==> dead[f].info.flow == f)
    }

    /** Every flow the bundler ever reported, with its latest report. */
    ghost function Latest(): Reports
      reads this
    {
      LatestOf(active, dead)
    }

    ghost function Active(): Reports
      reads this
    {
      map f | f in active :: active[f].info
    }

    ghost function Shares(): Flows
      reads this
    {
      map f | f in active.Keys + dead.Keys ::
        if f in active then FlowShare(active[f].info, true) else FlowShare(dead[f].info, false)
    }

    method AbsorbOne(timestamp: int, fi: FlowInfo)
      requires Valid()
      modifies this
      ensures Valid() && Latest() == old(Latest())[fi.flow := fi]
      ensures active == old(active)[fi.flow := Timed(timestamp, fi)]
      ensures dead == old(dead) - {fi.flow}
    {
      hide LatestOf;
      LatestAbsorbs(active, dead, timestamp, fi);
      if fi.flow !in active {
        dead := dead - {fi.flow};
        active := active[fi.flow := Timed(timestamp, fi)];
      } else {
        assert dead - {fi.flow} == dead;
        active := active[fi.flow := Timed(timestamp, fi)];
      }
    }

    /** The first loop of Update. */
    method Absorb(timestamp: int, infos: seq<FlowInfo>)
      requires Valid()
      modifies this
      ensures Valid() && Latest() == Report(old(Latest()), infos)
      ensures forall f :: f in active <==> f in old(active) || Mentions(infos, f)
      ensures forall f :: f in active ==>
        active[f].time == if Mentions(infos, f) then timestamp else old(active)[f].time
      ensures forall f :: f in dead <==> f in old(dead) && !Mentions(infos, f)
      ensures forall f :: f in dead ==> dead[f] == old(dead)[f]
    {
      hide Report, Mentions, BundleState.Valid, BundleState.Latest;
      ReportAndMentionNone(Latest(), infos);
      for k := 0 to |infos|
        invariant Valid() && Latest() == Report(old(Latest()), infos[..k])
        invariant forall f :: f in active <==> f in old(active) || Mentions(infos[..k], f)
        invariant forall f :: f in active ==>
          active[f].time == if Mentions(infos[..k], f) then timestamp else old(active)[f].time
        invariant forall f :: f in dead <==> f in old(dead) && !Mentions(infos[..k], f)
        invariant forall f :: f in dead ==> dead[f] == old(dead)[f]
      {
        AbsorbOne(timestamp, infos[k]);
        ReportSnoc(old(Latest()), infos, k);
        forall f ensures Mentions(infos[..k + 1], f) <==> Mentions(infos[..k], f) || infos[k].flow == f {
          MentionsSnoc(infos, k, f);
        }
      }
      assert infos[..|infos|] == infos;
    }

    /** The second loop: the flows whose last report is out of the window. */
    method Stale(timestamp: int, window: int) returns (toErase: seq<Flow>)
      ensures forall f :: f in toErase <==> f in active && active[f].time + window < timestamp
      ensures forall i, j :: 0 <= i < j < |toErase| ==> toErase[i] != toErase[j]
    {
      toErase := [];
      var todo := active.Keys;
      while todo != {}
        invariant todo <= active.Keys
        invariant forall f :: f in toErase <==> f in active && f !in todo && active[f].time + window < timestamp
        invariant forall i, j :: 0 <= i < j < |toErase| ==> toErase[i] != toErase[j]
        decreases |todo|
      {
        var f :| f in todo;
        todo := todo - {f};
        if active[f].time + window < timestamp {
          toErase := toErase + [f];
        }
      }
    }

    method BuryOne(timestamp: int, m: Flow)
      requires Valid() && m in active
      modifies this
      ensures Valid() && Latest() == old(Latest())
      ensures active == old(active) - {m}
      ensures dead == old(dead)[m := Timed(timestamp, old(active)[m].info)]
    {
      hide LatestOf;
      LatestBuries(active, dead, timestamp, m);
      dead := dead[m := Timed(timestamp, active[m].info)];
      active := active - {m};
    }

    /** The third loop: stale flows move to the dead map with the report they had. */
    method Bury(timestamp: int, toErase: seq<Flow>)
      requires Valid() && (forall f :: f in toErase ==> f in active)
      requires forall i, j :: 0 <= i < j < |toErase| ==> toErase[i] != toErase[j]
      modifies this
      ensures Valid() && Latest() == old(Latest())
      ensures forall f :: f in active <==> f in old(active) && f !in toErase
      ensures forall f :: f in active ==> active[f] == old(active)[f]
      ensures forall f :: f in dead <==> f in old(dead) || f in toErase
      ensures forall f :: f in dead ==> dead[f].time == if f in toErase then timestamp else old(dead)[f].time
    {
      hide BundleState.Valid, BundleState.Latest;
      for k := 0 to |toErase|
        invariant Valid() && Latest() == old(Latest())
        invariant forall f :: f in active <==> f in old(active) && f !in toErase[..k]
        invariant forall f :: f in active ==> active[f] == old(active)[f]
        invariant forall f :: f in dead <==> f in old(dead) || f in toErase[..k]
        invariant forall f :: f in dead ==> dead[f].time == if f in toErase[..k] then timestamp else old(dead)[f].time
      {
        assert toErase[k] in toErase && toErase[k] !in toErase[..k];
        BuryOne(timestamp, toErase[k]);
        forall f ensures f in toErase[..k + 1] <==> f in toErase[..k] || f == toErase[k] {
          InTakeSnoc(toErase, k, f);
        }
      }
      assert toErase[..|toErase|] == toErase;
    }

    /**
     Update. A flow is active afterwards exactly when its last report, in this bundle or before,
     is within the window; no report is ever lost.
     */
    method Update(timestamp: int, infos: seq<FlowInfo>, window: int)
      requires Valid()
      modifies this
      ensures Valid() && Latest() == Report(old(Latest()), infos)
      ensures forall f :: f in active <==>
        if Mentions(infos, f) then window >= 0 else f in old(active) && old(active)[f].time + window >= timestamp
      ensures forall f :: f in active ==> active[f].time == if Mentions(infos, f) then timestamp else old(active)[f].time
      ensures forall f :: f in dead ==>
        dead[f].time == if f in old(dead) && !Mentions(infos, f) then old(dead)[f].time else timestamp
      ensures Moved(old(active), old(dead), active, dead, timestamp)
    {
      hide Mentions, Report;
      Absorb(timestamp, infos);
      var toErase := Stale(timestamp, window);
      Bury(timestamp, toErase);
    }
  }

  lemma InTakeSnoc(s: seq<Flow>, k: nat, f: Flow)
    requires k < |s|
    ensures f in s[..k + 1] <==> f in s[..k] || f == s[k]
  {
    TakeSnoc(s, k);
  }

  lemma ReportAndMentionNone(m: Reports, infos: seq<FlowInfo>)
    ensures Report(m, infos[..0]) == m && forall f :: !Mentions(infos[..0], f)
  {
  }
}
