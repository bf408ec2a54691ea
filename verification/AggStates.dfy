/**
 AggState: what an aggregate was last updated with, which is what ForEachAgg hands out. An
 update that is older than the last one is dropped, so what is handed out may lag behind.
 */
module AggStates {
  import opened Wrappers
  import opened FlowSums
  import opened FlowAccounting
  import opened FlowClocks
  import opened FlowTotals

  /** The last update; cumulative bytes, usage and priority are those of cur_. */
  datatype AggState = AggState(updated: Option<int>, cumHipri: int, cumLopri: int, usage: int, isLopri: bool)

  const NEW_STATE := AggState(None, 0, 0, 0, false)

  /** The usage that is measured from the last state, the time and the sums of the children. */
  type Measure = (AggState, int, Sums) -> int

  predicate Late(state: AggState, time: int) {
    state.updated.Some? && time < state.updated.value
  }

  /** A counter would go down: the fatal checks. */
  predicate Falls(state: AggState, sums: Sums) {
    sums.cumHipri < state.cumHipri || sums.cumLopri < state.cumLopri
  }

  predicate SameCounts(state: AggState, sums: Sums) {
    sums.cumHipri == state.cumHipri && sums.cumLopri == state.cumLopri
  }

  /** The state that an update in time leaves. */
  function Taken(state: AggState, time: int, sums: Sums, measure: Measure): AggState {
    AggState(Some(time), sums.cumHipri, sums.cumLopri, measure(state, time, sums),
             sums.cumHipri == state.cumHipri && sums.cumLopri > state.cumLopri)
  }

  /** AggState::UpdateUsage; ok is false where a fatal check fails. */
  method UpdateUsage(state: AggState, time: int, sums: Sums, measure: Measure) returns (ok: bool, state': AggState)
    ensures Late(state, time) ==> ok && state' == state
    ensures !Late(state, time) ==> (ok <==> !Falls(state, sums))
    ensures !Late(state, time) && ok ==> state' == Taken(state, time, sums, measure)
    ensures !ok ==> state' == state
    ensures state'.cumHipri >= state.cumHipri && state'.cumLopri >= state.cumLopri
    ensures ok ==> (SameCounts(state', sums) <==> !Late(state, time) || SameCounts(state, sums))
  {
    ok, state' := true, state;
    if state.updated.Some? && time < state.updated.value {
      return;
    }
    if sums.cumHipri < state.cumHipri || sums.cumLopri < state.cumLopri {
      ok := false;
      return;
    }
    var isLopri := sums.cumHipri == state.cumHipri && sums.cumLopri > state.cumLopri;
    state' := AggState(Some(time), sums.cumHipri, sums.cumLopri, measure(state, time, sums), isLopri);
  }

  /** cur() */
  function Parent(g: Flow, state: AggState): FlowInfo {
    FlowInfo(g, state.usage, state.cumHipri, state.cumLopri, state.isLopri)
  }

  /** What one call of the callback is given. */
  datatype AggInfo = AggInfo(time: int, parent: FlowInfo, children: seq<FlowInfo>)

  type States = map<Flow, AggState>

  type Infos = map<Flow, AggInfo>

  function StateOf(states: States, g: Flow): AggState {
    if g in states then states[g] else NEW_STATE
  }

  /** The time of an update; the epoch stands for an aggregate without any flow. */
  function TimeOf(wip: AggWip): int {
    if wip.oldestActive.Some? then wip.oldestActive.value
    else if wip.newestDead.Some? then wip.newestDead.value
    else 0
  }

  lemma TimeOfIsTime(wips: Wips, g: Flow, actives: Stamps, deads: Stamps)
    requires g in wips && Clocked(wips, actives, deads) && (Stamped(actives, g) || Stamped(deads, g))
    ensures IsTime(TimeOf(wips[g]), actives, deads, g)
  {
    assert IsOldest(OldestOf(wips, g), actives, g) && IsNewest(NewestOf(wips, g), deads, g);
  }

  /** What becomes of aggregate g: a late update changes nothing, any other takes the sums. */
  ghost predicate Given(info: AggInfo, g: Flow, before: AggState, after: AggState, sums: Sums, measure: Measure) {
    && info.parent == Parent(g, after)
    && (Late(before, info.time) ==> after == before)
    && (!Late(before, info.time) ==> !Falls(before, sums) && after == Taken(before, info.time, sums, measure))
  }

  /** The update of one aggregate, and what the callback is given for it. */
  method UpdateOne(g: Flow, state: AggState, wip: AggWip, measure: Measure) returns (ok: bool, info: AggInfo, state': AggState)
    ensures ok ==> Given(info, g, state, state', wip.sums, measure) && Copies(info, wip)
    ensures !ok ==> Fatal(state, wip)
  {
    var time := TimeOf(wip);
    ok, state' := UpdateUsage(state, time, wip.sums, measure);
    info := AggInfo(time, Parent(g, state'), wip.children);
  }

  ghost predicate Copies(info: AggInfo, wip: AggWip) {
    info.time == TimeOf(wip) && info.children == wip.children
  }

  /** An update in time that fails the fatal checks. */
  ghost predicate Fatal(state: AggState, wip: AggWip) {
    !Late(state, TimeOf(wip)) && Falls(state, wip.sums)
  }

  /** Aggregate g has been dealt with, or is as it was. */
  ghost predicate Settled(g: Flow, states: States, states': States, wips: Wips, infos: Infos, measure: Measure) {
    if g in infos
    then g in wips && Copies(infos[g], wips[g]) &&
         Given(infos[g], g, StateOf(states, g), StateOf(states', g), wips[g].sums, measure)
    else StateOf(states', g) == StateOf(states, g)
  }

  lemma SettleOne(g: Flow, h: Flow, states: States, states': States, wips: Wips, infos: Infos, measure: Measure,
                  info: AggInfo, next: AggState)
    requires Settled(h, states, states', wips, infos, measure) && g in wips
    requires Copies(info, wips[g]) && Given(info, g, StateOf(states, g), next, wips[g].sums, measure)
    ensures Settled(h, states, states'[g := next], wips, infos[g := info], measure)
  {
    hide Given, Copies;
  }

  /** The second loop of ForEachAgg, up to the first fatal check that fails. */
  method UpdateStates(states: States, wips: Wips, measure: Measure) returns (ok: bool, infos: Infos, states': States)
    ensures infos.Keys <= wips.Keys && (ok <==> infos.Keys == wips.Keys)
    ensures forall g :: Settled(g, states, states', wips, infos, measure)
    ensures !ok ==> exists g :: g in wips && g !in infos && Fatal(StateOf(states, g), wips[g])
  {
    ok, infos, states' := true, map[], states;
    var todo := wips.Keys;
    assert forall g :: Settled(g, states, states', wips, infos, measure);
    while todo != {}
      invariant todo <= wips.Keys && infos.Keys == wips.Keys - todo
      invariant forall g :: Settled(g, states, states', wips, infos, measure)
      decreases |todo|
    {
      hide Given, Copies, Fatal;
      var g :| g in todo;
      assert Settled(g, states, states', wips, infos, measure);
      var info, next;
      ok, info, next := UpdateOne(g, StateOf(states', g), wips[g], measure);
      if !ok {
        return;
      }
      var after, given := states'[g := next], infos[g := info];
      forall h ensures Settled(h, states, after, wips, given, measure) {
        SettleOne(g, h, states, states', wips, infos, measure, info, next);
      }
      states', infos := after, given;
      todo := todo - {g};
    }
  }

  // ---- What the parents add up to ----

  /** The bytes of what was handed out. */
  ghost function ParentSums(infos: Infos): Flows {
    map g | g in infos :: FlowShare(infos[g].parent, false)
  }

  /** The bytes handed out for g are its sums unless the update was late and something had changed. */
  lemma GivenBytes(info: AggInfo, g: Flow, before: AggState, after: AggState, sums: Sums, measure: Measure)
    requires Given(info, g, before, after, sums, measure)
    ensures SameBytes(FlowShare(info.parent, false), sums) <==> !Late(before, info.time) || SameCounts(before, sums)
  {
  }

  lemma {:induction false} SameTotalIff(m: Flows, m': Flows)
    requires m.Keys == m'.Keys && forall g :: g in m ==> NotAbove(m[g], m'[g])
    ensures NotAbove(Total(m), Total(m'))
    ensures SameBytes(Total(m), Total(m')) <==> forall g :: g in m ==> SameBytes(m[g], m'[g])
    decreases |m|
  {
    if m == map[] {
      assert m' == map[];
    } else {
      var g :| g in m;
      TotalRemove(m, g);
      TotalRemove(m', g);
      SameTotalIff(m - {g}, m' - {g});
      assert forall h :: h in m - {g} ==> (m - {g})[h] == m[h] && (m' - {g})[h] == m'[h];
      assert forall h :: h in m ==> h == g || h in m - {g};
    }
  }

  lemma {:induction false} SameTotal(m: Flows, m': Flows)
    requires m.Keys == m'.Keys && forall g :: g in m ==> SameBytes(m[g], m'[g])
    ensures SameBytes(Total(m), Total(m'))
    decreases |m|
  {
    if m == map[] {
      assert m' == map[];
    } else {
      var g :| g in m;
      TotalRemove(m, g);
      TotalRemove(m', g);
      SameTotal(m - {g}, m' - {g});
    }
  }
}
