/**
 One round of ComputeAndBroadcast under any schedule: what every host's state is afterwards, who
 is told about it, and what the bundles show.
 */
module ControllerRound {
  import opened Sequences
  import opened Selection
  import opened ChildStates
  import opened ControllerRuns
  import opened ControllerTasks

  /** host2par_ is ordered by host, and GetID gives every host a par id of its own. */
  ghost predicate Registered(host2par: seq<HostPar>) {
    && Ordered(host2par)
    && forall i, j :: 0 <= i < j < |host2par| ==> host2par[i].par != host2par[j].par
  }

  /** Downgrade, then upgrade. */
  ghost predicate Wanted(input: AggInput, host: nat, before: bool) {
    if input.toUpgrade.Contains(host) then false else if input.toDowngrade.Contains(host) then true else before
  }

  ghost predicate Touches(inputs: seq<AggInput>, host: nat) {
    exists a :: 0 <= a < |inputs| && (inputs[a].toDowngrade.Contains(host) || inputs[a].toUpgrade.Contains(host))
  }

  // ---- What one aggregate's task leaves behind ----

  lemma {:induction false} LastMarkAppend(x: seq<Act>, y: seq<Act>, par: nat, before: bool)
    ensures LastMark(x + y, par, before) == LastMark(y, par, LastMark(x, par, before))
  {
    if y == [] {
      assert x + y == x;
    } else {
      var k := |y| - 1;
      LastMarkAppend(x, y[..k], par, before);
      SplitLast(y);
      Regroup(x, y[..k], [y[k]]);
      LastMarkSnoc(x + y[..k], y[k], par, before);
    }
  }

  lemma {:induction false} LastMarkOfMarks(agg: nat, es: seq<HostPar>, isLopri: bool, n: nat, par: nat, before: bool)
    requires n <= |es|
    ensures LastMark(MarkActs(agg, es, isLopri)[..n], par, before) ==
            if exists k :: 0 <= k < n && es[k].par == par then isLopri else before
  {
    if n > 0 {
      LastMarkOfMarks(agg, es, isLopri, n - 1, par, before);
      assert MarkActs(agg, es, isLopri)[..n][..n - 1] == MarkActs(agg, es, isLopri)[..n - 1];
    }
  }

  lemma {:induction false} LastMarkOfGens(agg: nat, host2par: seq<HostPar>, gens: seq<(nat, int)>, par: nat, before: bool)
    ensures LastMark(GenActs(agg, host2par, gens, false), par, before) == before
  {
    if gens != [] {
      var k := |gens| - 1;
      var es := InRange(host2par, IdRange(gens[k].0, gens[k].0));
      LastMarkOfGens(agg, host2par, gens[..k], par, before);
      if es != [] {
        LastMarkSnoc(GenActs(agg, host2par, gens[..k], false), Act(agg, es[0].par, Hear(gens[k].1)), par, before);
      } else {
        assert GenActs(agg, host2par, gens, false) == GenActs(agg, host2par, gens[..k], false);
      }
    }
  }

  ghost predicate HasPar(es: seq<HostPar>, par: nat) {
    exists k :: 0 <= k < |es| && es[k].par == par
  }

  lemma SelectedPar(host2par: seq<HostPar>, ids: UnorderedIds, e: HostPar)
    requires Registered(host2par) && e in host2par
    ensures HasPar(Selected(host2par, ids), e.par) <==> ids.Contains(e.host)
  {
    hide Selected, UnorderedIds.Contains;
    var es := Selected(host2par, ids);
    if ids.Contains(e.host) {
      SelectedHolds(host2par, ids, e);
      var k :| 0 <= k < |es| && es[k] == e;
      assert es[k].par == e.par;
    }
    if HasPar(es, e.par) {
      var k :| 0 <= k < |es| && es[k].par == e.par;
      SelectedHolds(host2par, ids, es[k]);
      assert es[k] in es;
      assert es[k] == e;
    }
  }

  lemma SelectedOther(host2par: seq<HostPar>, ids: UnorderedIds, par: nat)
    requires !HasPar(host2par, par)
    ensures !HasPar(Selected(host2par, ids), par)
  {
    hide Selected, UnorderedIds.Contains;
    var es := Selected(host2par, ids);
    forall k | 0 <= k < |es| ensures es[k].par != par {
      SelectedHolds(host2par, ids, es[k]);
      assert es[k] in es;
      var i :| 0 <= i < |host2par| && host2par[i] == es[k];
    }
  }

  lemma TaskLastMark(agg: nat, host2par: seq<HostPar>, input: AggInput, par: nat, before: bool)
    ensures LastMark(AggTask(agg, host2par, input), par, before) ==
            if HasPar(Selected(host2par, input.toUpgrade), par) then false
            else if HasPar(Selected(host2par, input.toDowngrade), par) then true
            else before
  {
    hide GenActs, LastMark, Selected;
    var heard := GenActs(agg, host2par, input.gens, false);
    var downs, ups := Selected(host2par, input.toDowngrade), Selected(host2par, input.toUpgrade);
    var d, u := MarkActs(agg, downs, true), MarkActs(agg, ups, false);
    LastMarkAppend(heard, d + u, par, before);
    LastMarkAppend(d, u, par, before);
    LastMarkOfGens(agg, host2par, input.gens, par, before);
    LastMarkOfMarks(agg, downs, true, |downs|, par, before);
    LastMarkOfMarks(agg, ups, false, |ups|, par, LastMark(d, par, before));
    assert d[..|downs|] == d && u[..|ups|] == u;
  }

  // ---- Steps that do not send ----

  ghost predicate Marks(acts: seq<Act>, par: nat) {
    exists k :: 0 <= k < |acts| && acts[k].par == par && acts[k].op.Mark?
  }

  ghost predicate Silent(acts: seq<Act>) {
    forall k :: 0 <= k < |acts| ==> !acts[k].op.Tell?
  }

  ghost predicate Markless(acts: seq<Act>) {
    forall k :: 0 <= k < |acts| ==> !acts[k].op.Mark?
  }

  lemma {:induction false} SilentRun(w: World, acts: seq<Act>, flows: seq<string>, n: nat, par: nat)
    requires Known(acts, w.children.Keys) && Silent(acts) && n <= |acts| && par in w.children
    ensures var w' := Run(w, acts[..n], flows);
            && w'.sends == w.sends
            && w'.children[par].broadcasted == (w.children[par].broadcasted && !Marks(acts[..n], par))
  {
    if n > 0 {
      hide Marked, Shown;
      SilentRun(w, acts, flows, n - 1, par);
      TakeSnoc(acts, n - 1);
      TakeAppend(acts[..n - 1], [acts[n - 1]]);
      MarksSnoc(acts, n - 1, par);
    }
  }

  lemma MarksSnoc(acts: seq<Act>, n: nat, par: nat)
    requires n < |acts|
    ensures Marks(acts[..n + 1], par) <==> Marks(acts[..n], par) || (acts[n].par == par && acts[n].op.Mark?)
  {
    if Marks(acts[..n], par) {
      var k :| 0 <= k < n && acts[..n][k].par == par && acts[..n][k].op.Mark?;
      assert acts[..n + 1][k] == acts[..n][k];
    }
    if acts[n].par == par && acts[n].op.Mark? {
      assert acts[..n + 1][n] == acts[n];
    }
    if Marks(acts[..n + 1], par) {
      var k :| 0 <= k < n + 1 && acts[..n + 1][k].par == par && acts[..n + 1][k].op.Mark?;
      assert k < n ==> acts[..n][k] == acts[..n + 1][k];
    }
  }

  /** Only marks change agg_is_lopri. */
  lemma {:induction false} MarklessRun(w: World, acts: seq<Act>, flows: seq<string>, n: nat, par: nat)
    requires Known(acts, w.children.Keys) && Markless(acts) && n <= |acts| && par in w.children
    ensures Run(w, acts[..n], flows).children[par].aggIsLopri == w.children[par].aggIsLopri
  {
    if n > 0 {
      hide Marked, Shown;
      MarklessRun(w, acts, flows, n - 1, par);
      TakeSnoc(acts, n - 1);
      TakeAppend(acts[..n - 1], [acts[n - 1]]);
    }
  }

  /** The fatal size check of the broadcast cannot fail: entries stay within the aggregates. */
  lemma {:induction false} SizesStayBounded(w: World, acts: seq<Act>, flows: seq<string>, n: nat, par: nat)
    requires Known(acts, w.children.Keys) && n <= |acts| && par in w.children
    requires |w.children[par].aggIsLopri| <= |flows|
    requires forall k :: 0 <= k < |acts| && acts[k].op.Mark? ==> acts[k].task < |flows|
    ensures |Run(w, acts[..n], flows).children[par].aggIsLopri| <= |flows|
  {
    if n > 0 {
      SizesStayBounded(w, acts, flows, n - 1, par);
      TakeSnoc(acts, n - 1);
      TakeAppend(acts[..n - 1], [acts[n - 1]]);
      hide Do, Sent;
      DoSize(Run(w, acts[..n - 1], flows).children[par], acts[n - 1].task, acts[n - 1].op, |flows|);
    }
  }

  lemma DoSize(c: Child, task: nat, op: Op, bound: nat)
    requires |c.aggIsLopri| <= bound && (op.Mark? ==> task < bound)
    ensures |Do(c, task, op).aggIsLopri| <= bound
  {
    hide Attached, Detached;
  }

  // ---- Step 3: telling ----

  /** The sends to one child, in order. */
  ghost function SendsTo(sends: seq<Send>, par: nat): seq<Send> {
    if sends == [] then []
    else
      var k := |sends| - 1;
      SendsTo(sends[..k], par) + if sends[k].par == par then [sends[k]] else []
  }

  lemma {:induction false} SendsToAppend(x: seq<Send>, y: seq<Send>, par: nat)
    ensures SendsTo(x + y, par) == SendsTo(x, par) + SendsTo(y, par)
  {
    if y == [] {
      assert x + y == x;
    } else {
      var k := |y| - 1;
      SendsToAppend(x, y[..k], par);
      assert (x + y)[..|x + y| - 1] == x + y[..k];
      Regroup(SendsTo(x, par), SendsTo(y[..k], par), if y[k].par == par then [y[k]] else []);
    }
  }

  lemma {:induction false} SendsToOne(par: nat, listeners: seq<nat>, b: Bundle, other: nat)
    ensures SendsTo(SendAll(par, listeners, b), other) == if par == other then SendAll(par, listeners, b) else []
  {
    if listeners != [] {
      var k := |listeners| - 1;
      SendsToOne(par, listeners[..k], b, other);
      assert SendAll(par, listeners, b)[..k] == SendAll(par, listeners[..k], b);
    }
  }

  /** Callbacks that tell, and callbacks from outside. */
  ghost predicate Tells(acts: seq<Act>) {
    forall k :: 0 <= k < |acts| ==> acts[k].op.Tell? || Outside(acts[k].op)
  }

  ghost predicate Visits(acts: seq<Act>, n: nat, par: nat)
    requires n <= |acts|
  {
    exists k :: 0 <= k < n && acts[k].par == par && acts[k].op.Tell?
  }

  /** The first time a child is visited. */
  ghost function FirstVisit(acts: seq<Act>, n: nat, par: nat): (k: nat)
    requires n <= |acts|
    ensures k <= n
  {
    if n == 0 || !Visits(acts, n, par) then n
    else if Visits(acts, n - 1, par) then FirstVisit(acts, n - 1, par)
    else n - 1
  }

  lemma {:induction false} FirstVisitIsFirst(acts: seq<Act>, n: nat, par: nat)
    requires n <= |acts| && Visits(acts, n, par)
    ensures var k := FirstVisit(acts, n, par);
            k < n && acts[k].par == par && acts[k].op.Tell? && !Visits(acts, k, par)
  {
    if Visits(acts, n - 1, par) {
      FirstVisitIsFirst(acts, n - 1, par);
    }
  }

  /** What a child is told by these callbacks: once, to the listeners it has when it is first visited. */
  ghost function Told(c: Child, acts: seq<Act>, n: nat, par: nat, flows: seq<string>): seq<Send>
    requires n <= |acts|
  {
    if Visits(acts, n, par) && !c.broadcasted
    then SendAll(par, Roll(c.listeners, acts[..FirstVisit(acts, n, par)], par), Shown(c, flows))
    else []
  }

  ghost function After(c: Child, acts: seq<Act>, n: nat, par: nat): Child
    requires n <= |acts|
  {
    c.(broadcasted := c.broadcasted || Visits(acts, n, par), listeners := Roll(c.listeners, acts[..n], par))
  }

  /** However often a child is visited, it is told once, and then about the state it has. */
  lemma {:induction false} TellRun(w: World, acts: seq<Act>, flows: seq<string>, n: nat, par: nat)
    requires Known(acts, w.children.Keys) && Tells(acts) && n <= |acts| && par in w.children
    ensures var w' := Run(w, acts[..n], flows);
            var c := w.children[par];
            && w'.children[par] == After(c, acts, n, par)
            && SendsTo(w'.sends, par) == SendsTo(w.sends, par) + Told(c, acts, n, par, flows)
  {
    hide Shown, SendsTo, SendAll, Attached, Detached;
    if n == 0 {
      assert SendsTo(w.sends, par) + [] == SendsTo(w.sends, par);
    } else {
      var a, c := acts[n - 1], w.children[par];
      TellRun(w, acts, flows, n - 1, par);
      var w1 := Run(w, acts[..n - 1], flows);
      TakeSnoc(acts, n - 1);
      TakeAppend(acts[..n - 1], [a]);
      hide Visits, FirstVisit, Roll, Run, After, Told;
      TellStep(w1, a, flows, par);
      AfterStep(c, acts, n - 1, par);
      Regroup(SendsTo(w.sends, par), Told(c, acts, n - 1, par, flows), Sends(After(c, acts, n - 1, par), a, par, flows));
      ToldStep(c, acts, n - 1, par, flows);
    }
  }

  /** What one callback sends to a child. */
  ghost function Sends(c: Child, a: Act, par: nat, flows: seq<string>): seq<Send> {
    if a.par == par then Sent(c, par, a.op, flows) else []
  }

  lemma VisitsNext(acts: seq<Act>, n: nat, par: nat)
    requires n < |acts|
    ensures Visits(acts, n + 1, par) <==> Visits(acts, n, par) || (acts[n].par == par && acts[n].op.Tell?)
  {
  }

  lemma RollNext(listeners: seq<nat>, acts: seq<Act>, n: nat, par: nat)
    requires n < |acts|
    ensures var ls, a := Roll(listeners, acts[..n], par), acts[n];
            Roll(listeners, acts[..n + 1], par) ==
            if a.par == par && a.op.Listen? then Attached(ls, a.op.listener)
            else if a.par == par && a.op.Unlisten? then Detached(ls, a.op.listener)
            else ls
  {
    TakeSnoc(acts, n);
    TakeAppend(acts[..n], [acts[n]]);
  }

  lemma AfterStep(c: Child, acts: seq<Act>, n: nat, par: nat)
    requires n < |acts| && (acts[n].op.Tell? || Outside(acts[n].op))
    ensures After(c, acts, n + 1, par) ==
            if acts[n].par == par then Do(After(c, acts, n, par), acts[n].task, acts[n].op) else After(c, acts, n, par)
  {
    hide Visits, Roll, Attached, Detached;
    VisitsNext(acts, n, par);
    RollNext(c.listeners, acts, n, par);
  }

  lemma ShownIgnoresListeners(c: Child, d: Child, flows: seq<string>)
    requires c.aggIsLopri == d.aggIsLopri && c.sawData == d.sawData && c.genSeen == d.genSeen
    ensures Shown(c, flows) == Shown(d, flows)
  {
  }

  lemma ToldStep(c: Child, acts: seq<Act>, n: nat, par: nat, flows: seq<string>)
    requires n < |acts| && (acts[n].op.Tell? || Outside(acts[n].op))
    ensures Told(c, acts, n + 1, par, flows) ==
            Told(c, acts, n, par, flows) + Sends(After(c, acts, n, par), acts[n], par, flows)
  {
    hide Visits, Roll, SendAll, Shown;
    VisitsNext(acts, n, par);
    ShownIgnoresListeners(c, After(c, acts, n, par), flows);
    var t := Told(c, acts, n + 1, par, flows);
    assert t + [] == t && [] + t == t;
  }

  lemma TellStep(w: World, a: Act, flows: seq<string>, par: nat)
    requires a.par in w.children && par in w.children && (a.op.Tell? || Outside(a.op))
    ensures var w' := Step(w, a, flows);
            var c := w.children[par];
            && w'.children[par] == (if a.par == par then Do(c, a.task, a.op) else c)
            && SendsTo(w'.sends, par) == SendsTo(w.sends, par) + Sends(c, a, par, flows)
  {
    hide Shown, SendsTo, SendAll, Attached, Detached;
    var c := w.children[a.par];
    SendsToAppend(w.sends, Sent(c, a.par, a.op, flows), par);
    SendsToOne(a.par, c.listeners, Shown(c, flows), par);
    NoSends(par);
  }

  lemma NoSends(par: nat)
    ensures SendsTo([], par) == []
  {
  }

  // ---- A whole round ----

  /** The inputs of a round and the order in which the callbacks of each step happen. */
  datatype Round = Round(
    host2par: seq<HostPar>, inputs: seq<AggInput>, numShards: nat, flows: seq<string>,
    marks: seq<Act>, tells: seq<Act>, forgets: seq<Act>)

  ghost function AggTasks(r: Round): seq<seq<Act>> {
    seq(|r.inputs|, a requires 0 <= a < |r.inputs| => AggTask(a, r.host2par, r.inputs[a]))
  }

  ghost function Bcasts(r: Round): seq<seq<nat>> {
    seq(|r.inputs|, a requires 0 <= a < |r.inputs| => ToBroadcast(r.host2par, r.inputs[a]))
  }

  ghost function ShardTasks(r: Round): seq<seq<Act>>
    requires r.numShards > 0
  {
    seq(r.numShards, s requires 0 <= s < r.numShards => ShardTask(s, r.numShards, Bcasts(r)))
  }

  ghost function ForgetTasks(r: Round): seq<seq<Act>> {
    seq(|r.inputs|, a requires 0 <= a < |r.inputs| => GenActs(a, r.host2par, r.inputs[a].gens, true))
  }

  /** Every host has a child state, one flow and one diff for each aggregate, and any schedule at all. */
  ghost predicate IsRound(w: World, r: Round) {
    && Registered(r.host2par) && r.numShards > 0 && |r.flows| == |r.inputs|
    && (forall i :: 0 <= i < |r.host2par| ==> r.host2par[i].par in w.children)
    && Interleaves(r.marks, AggTasks(r))
    && Interleaves(r.tells, ShardTasks(r))
    && Interleaves(r.forgets, ForgetTasks(r))
    && (forall a :: (a in r.marks || a in r.tells || a in r.forgets) && Outside(a.op) ==> a.par in w.children)
  }

  lemma HasParIs(es: seq<HostPar>, k: nat)
    requires k < |es|
    ensures HasPar(es, es[k].par)
  {
  }

  lemma {:induction false} GenActsHold(agg: nat, host2par: seq<HostPar>, gens: seq<(nat, int)>, forget: bool, a: Act)
    requires a in GenActs(agg, host2par, gens, forget)
    ensures a.task == agg && HasPar(host2par, a.par) && (if forget then a.op.Forget? else a.op.Hear?)
  {
    var k := |gens| - 1;
    if a in GenActs(agg, host2par, gens[..k], forget) {
      GenActsHold(agg, host2par, gens[..k], forget, a);
    } else {
      var es := InRange(host2par, IdRange(gens[k].0, gens[k].0));
      InRangeHolds(host2par, IdRange(gens[k].0, gens[k].0), es[0]);
      var i :| 0 <= i < |host2par| && host2par[i] == es[0];
      HasParIs(host2par, i);
    }
  }

  lemma AggTaskHolds(agg: nat, host2par: seq<HostPar>, input: AggInput, a: Act)
    requires a in AggTask(agg, host2par, input)
    ensures a.task == agg && HasPar(host2par, a.par) && (a.op.Hear? || a.op.Mark?)
    ensures a.op.Mark? ==>
              HasPar(Selected(host2par, input.toDowngrade), a.par) || HasPar(Selected(host2par, input.toUpgrade), a.par)
  {
    hide GenActs, Selected;
    if a in GenActs(agg, host2par, input.gens, false) {
      GenActsHold(agg, host2par, input.gens, false, a);
    } else if a in MarkActs(agg, Selected(host2par, input.toDowngrade), true) {
      MarkActsHold(agg, host2par, input.toDowngrade, true, a);
    } else {
      MarkActsHold(agg, host2par, input.toUpgrade, false, a);
    }
  }

  lemma MarkActsHold(agg: nat, host2par: seq<HostPar>, ids: UnorderedIds, isLopri: bool, a: Act)
    requires a in MarkActs(agg, Selected(host2par, ids), isLopri)
    ensures a.task == agg && a.op == Mark(isLopri) && HasPar(host2par, a.par) && HasPar(Selected(host2par, ids), a.par)
  {
    hide Selected;
    var es := Selected(host2par, ids);
    var k :| 0 <= k < |es| && MarkActs(agg, es, isLopri)[k] == a;
    HasParIs(es, k);
    SelectedHolds(host2par, ids, es[k]);
    var i :| 0 <= i < |host2par| && host2par[i] == es[k];
    HasParIs(host2par, i);
  }

  lemma {:induction false} ShardActsTell(shard: nat, num: nat, bcasts: seq<seq<nat>>, a: Act)
    requires num > 0 && a in ShardTask(shard, num, bcasts)
    ensures a == Act(shard, a.par, Tell)
  {
    hide ShardOf;
    var k := |bcasts| - 1;
    if a in ShardTask(shard, num, bcasts[..k]) {
      ShardActsTell(shard, num, bcasts[..k], a);
    }
  }

  /** A par id that some aggregate put on its broadcast list. */
  ghost predicate Listed(r: Round, par: nat) {
    exists a :: 0 <= a < |r.inputs| && par in ToBroadcast(r.host2par, r.inputs[a])
  }

  lemma InPars(es: seq<HostPar>, par: nat)
    ensures par in Pars(es) <==> HasPar(es, par)
  {
    if HasPar(es, par) {
      var k :| 0 <= k < |es| && es[k].par == par;
      assert Pars(es)[k] == par;
    }
    if par in Pars(es) {
      var k :| 0 <= k < |es| && Pars(es)[k] == par;
      HasParIs(es, k);
    }
  }

  lemma ToBroadcastHolds(host2par: seq<HostPar>, input: AggInput, par: nat)
    ensures par in ToBroadcast(host2par, input) <==>
            HasPar(Selected(host2par, input.toDowngrade), par) || HasPar(Selected(host2par, input.toUpgrade), par)
  {
    hide Selected, Pars, HasPar;
    InPars(Selected(host2par, input.toDowngrade), par);
    InPars(Selected(host2par, input.toUpgrade), par);
  }

  lemma ListedIsTouched(r: Round, e: HostPar)
    requires Registered(r.host2par) && e in r.host2par
    ensures Listed(r, e.par) <==> Touches(r.inputs, e.host)
  {
    hide Registered, ToBroadcast, UnorderedIds.Contains, HasPar, Selected;
    forall a | 0 <= a < |r.inputs|
      ensures e.par in ToBroadcast(r.host2par, r.inputs[a]) <==>
              r.inputs[a].toDowngrade.Contains(e.host) || r.inputs[a].toUpgrade.Contains(e.host)
    {
      ToBroadcastHolds(r.host2par, r.inputs[a], e.par);
      SelectedPar(r.host2par, r.inputs[a].toDowngrade, e);
      SelectedPar(r.host2par, r.inputs[a].toUpgrade, e);
    }
  }

  lemma HasParInChildren(w: World, r: Round, par: nat)
    requires IsRound(w, r) && HasPar(r.host2par, par)
    ensures par in w.children
  {
  }

  lemma MarkFact(w: World, r: Round, k: nat)
    requires IsRound(w, r) && k < |r.marks|
    ensures var a := r.marks[k];
            && a.par in w.children && !a.op.Tell? && !a.op.Forget?
            && (a.op.Mark? ==> a.task < |r.flows| && Listed(r, a.par))
  {
    hide Registered, AggTask, ToBroadcast, Project, Selected;
    var a := r.marks[k];
    assert a in r.marks;
    InterleavingHolds(r.marks, AggTasks(r), a);
    if a.task < |r.inputs| {
      AggTaskHolds(a.task, r.host2par, r.inputs[a.task], a);
      HasParInChildren(w, r, a.par);
      ToBroadcastHolds(r.host2par, r.inputs[a.task], a.par);
    }
  }

  lemma MarkActIn(agg: nat, es: seq<HostPar>, isLopri: bool, par: nat)
    requires HasPar(es, par)
    ensures Act(agg, par, Mark(isLopri)) in MarkActs(agg, es, isLopri)
  {
    var k :| 0 <= k < |es| && es[k].par == par;
    assert MarkActs(agg, es, isLopri)[k] == Act(agg, par, Mark(isLopri));
  }

  lemma ListedIsMarked(w: World, r: Round, par: nat)
    requires IsRound(w, r) && Listed(r, par)
    ensures Marks(r.marks, par)
  {
    hide Registered, ToBroadcast, Project, Selected, GenActs, HasPar, MarkActs;
    var a :| 0 <= a < |r.inputs| && par in ToBroadcast(r.host2par, r.inputs[a]);
    var input := r.inputs[a];
    ToBroadcastHolds(r.host2par, input, par);
    var lopri := HasPar(Selected(r.host2par, input.toDowngrade), par);
    MarkActIn(a, Selected(r.host2par, if lopri then input.toDowngrade else input.toUpgrade), lopri, par);
    var act := Act(a, par, Mark(lopri));
    assert act in AggTask(a, r.host2par, input);
    InterleavingHolds(r.marks, AggTasks(r), act);
    var k :| 0 <= k < |r.marks| && r.marks[k] == act;
  }

  /** Step 2 marks exactly the listed children, and sends nothing. */
  lemma MarkFacts(w: World, r: Round)
    requires IsRound(w, r)
    ensures Known(r.marks, w.children.Keys) && Silent(r.marks)
    ensures forall k :: 0 <= k < |r.marks| && r.marks[k].op.Mark? ==> r.marks[k].task < |r.flows|
    ensures forall par :: Marks(r.marks, par) <==> Listed(r, par)
  {
    hide IsRound, Listed;
    forall k | 0 <= k < |r.marks|
      ensures r.marks[k].par in w.children && !r.marks[k].op.Tell?
      ensures r.marks[k].op.Mark? ==> r.marks[k].task < |r.flows| && Listed(r, r.marks[k].par)
    {
      MarkFact(w, r, k);
    }
    forall par | Listed(r, par) ensures Marks(r.marks, par) {
      ListedIsMarked(w, r, par);
    }
  }

  lemma TellFact(w: World, r: Round, k: nat)
    requires IsRound(w, r) && k < |r.tells|
    ensures r.tells[k].par in w.children
    ensures Outside(r.tells[k].op) || (r.tells[k].op.Tell? && Listed(r, r.tells[k].par))
  {
    hide Registered, ShardTask, Project, ToBroadcast;
    var a := r.tells[k];
    assert a in r.tells;
    InterleavingHolds(r.tells, ShardTasks(r), a);
    if a.task >= r.numShards {
      return;
    }
    ShardActsTell(a.task, r.numShards, Bcasts(r), a);
    ShardTaskHolds(a.task, r.numShards, Bcasts(r), |Bcasts(r)|, a.par);
    assert Bcasts(r)[..|Bcasts(r)|] == Bcasts(r);
    var v, j :| 0 <= v < |Bcasts(r)| && 0 <= j < |Bcasts(r)[v]| && Bcasts(r)[v][j] == a.par;
    assert a.par in ToBroadcast(r.host2par, r.inputs[v]);
    ListedIsKnown(w, r, a.par);
  }

  lemma ListedIsKnown(w: World, r: Round, par: nat)
    requires IsRound(w, r) && Listed(r, par)
    ensures par in w.children
  {
    hide Registered, ShardTask, Project, Selected, ToBroadcast;
    var a :| 0 <= a < |r.inputs| && par in ToBroadcast(r.host2par, r.inputs[a]);
    ToBroadcastHolds(r.host2par, r.inputs[a], par);
    if !HasPar(r.host2par, par) {
      SelectedOther(r.host2par, r.inputs[a].toDowngrade, par);
      SelectedOther(r.host2par, r.inputs[a].toUpgrade, par);
    }
    HasParInChildren(w, r, par);
  }

  lemma ListedIsVisited(w: World, r: Round, par: nat)
    requires IsRound(w, r) && Listed(r, par)
    ensures Visits(r.tells, |r.tells|, par)
  {
    hide Registered, ShardTask, Project, ToBroadcast;
    var v :| 0 <= v < |r.inputs| && par in ToBroadcast(r.host2par, r.inputs[v]);
    var bs := Bcasts(r);
    assert bs[v] == ToBroadcast(r.host2par, r.inputs[v]);
    var j :| 0 <= j < |bs[v]| && bs[v][j] == par;
    var s := j % r.numShards;
    ShardTaskHolds(s, r.numShards, bs, |bs|, par);
    assert bs[..|bs|] == bs;
    assert ShardTasks(r)[s] == ShardTask(s, r.numShards, bs);
    InterleavingHolds(r.tells, ShardTasks(r), Act(s, par, Tell));
    var k :| 0 <= k < |r.tells| && r.tells[k] == Act(s, par, Tell);
  }

  /** Step 3 visits exactly the listed children. */
  lemma TellFacts(w: World, r: Round)
    requires IsRound(w, r)
    ensures Known(r.tells, w.children.Keys) && Tells(r.tells)
    ensures forall par :: Visits(r.tells, |r.tells|, par) <==> Listed(r, par)
  {
    hide IsRound, Listed;
    forall k | 0 <= k < |r.tells|
      ensures r.tells[k].par in w.children
      ensures Outside(r.tells[k].op) || (r.tells[k].op.Tell? && Listed(r, r.tells[k].par))
    {
      TellFact(w, r, k);
    }
    forall par | Listed(r, par) ensures Visits(r.tells, |r.tells|, par) {
      ListedIsVisited(w, r, par);
    }
  }

  lemma ForgetFacts(w: World, r: Round)
    requires IsRound(w, r)
    ensures Known(r.forgets, w.children.Keys) && Silent(r.forgets) && Markless(r.forgets)
  {
    hide Registered, GenActs, Project;
    forall k | 0 <= k < |r.forgets|
      ensures r.forgets[k].par in w.children && (r.forgets[k].op.Forget? || Outside(r.forgets[k].op))
    {
      var a := r.forgets[k];
      assert a in r.forgets;
      InterleavingHolds(r.forgets, ForgetTasks(r), a);
      if a.task < |r.inputs| {
        GenActsHold(a.task, r.host2par, r.inputs[a.task].gens, true, a);
        HasParInChildren(w, r, a.par);
      }
    }
  }

  /** The children and the sends after step 2, step 3 and step 4. */
  ghost function AfterMarks(w: World, r: Round): (w': World)
    requires IsRound(w, r)
    ensures w'.children.Keys == w.children.Keys
  {
    MarkFacts(w, r);
    Run(w, r.marks, r.flows)
  }

  ghost function AfterTells(w: World, r: Round): (w': World)
    requires IsRound(w, r)
    ensures w'.children.Keys == w.children.Keys
  {
    TellFacts(w, r);
    Run(AfterMarks(w, r), r.tells, r.flows)
  }

  ghost function AfterRound(w: World, r: Round): (w': World)
    requires IsRound(w, r)
    ensures w'.children.Keys == w.children.Keys
  {
    ForgetFacts(w, r);
    Run(AfterTells(w, r), r.forgets, r.flows)
  }

  lemma RoundKeepsLopri(w: World, r: Round, par: nat)
    requires IsRound(w, r) && par in w.children
    ensures AfterRound(w, r).children[par].aggIsLopri == AfterMarks(w, r).children[par].aggIsLopri
  {
    hide Run, IsRound;
    MarkFacts(w, r);
    TellFacts(w, r);
    ForgetFacts(w, r);
    var w1, w2 := AfterMarks(w, r), AfterTells(w, r);
    TellRun(w1, r.tells, r.flows, |r.tells|, par);
    MarklessRun(w2, r.forgets, r.flows, |r.forgets|, par);
    assert r.tells[..|r.tells|] == r.tells && r.forgets[..|r.forgets|] == r.forgets;
  }

  /** Under every schedule a registered host ends up with each aggregate's downgrades, then upgrades. */
  lemma RoundAppliesDiffs(w: World, r: Round, e: HostPar, agg: nat)
    requires IsRound(w, r) && e in r.host2par && e.par in w.children && agg < |r.inputs|
    ensures Reads(AfterRound(w, r).children[e.par].aggIsLopri, agg) ==
            Wanted(r.inputs[agg], e.host, Reads(w.children[e.par].aggIsLopri, agg))
  {
    hide Run, Project, LastMark, AggTask, Selected, UnorderedIds.Contains, HasPar;
    RoundKeepsLopri(w, r, e.par);
    MarkFacts(w, r);
    var before := Reads(w.children[e.par].aggIsLopri, agg);
    ReadsDependOnOneTask(w, r.marks, r.flows, e.par, agg);
    assert Project(r.marks, agg) == AggTasks(r)[agg] == AggTask(agg, r.host2par, r.inputs[agg]);
    TaskLastMark(agg, r.host2par, r.inputs[agg], e.par, before);
    SelectedPar(r.host2par, r.inputs[agg].toUpgrade, e);
    SelectedPar(r.host2par, r.inputs[agg].toDowngrade, e);
  }

  /** The listeners a child has when step 3 first visits it, whoever came or went before. */
  ghost function Hearers(w: World, r: Round, par: nat): seq<nat>
    requires IsRound(w, r) && par in w.children
  {
    var k := FirstVisit(r.tells, |r.tells|, par);
    Roll(Roll(w.children[par].listeners, r.marks, par), r.tells[..k], par)
  }

  /**
   A listed child is told exactly once, about its final state, through the listeners it has at that
   moment; no other child is told.
   */
  lemma RoundTellsOnce(w: World, r: Round, par: nat)
    requires IsRound(w, r) && par in w.children
    ensures SendsTo(AfterRound(w, r).sends, par) ==
            SendsTo(w.sends, par) +
            if Listed(r, par) then SendAll(par, Hearers(w, r, par), Shown(AfterMarks(w, r).children[par], r.flows))
            else []
    ensures Listed(r, par) ==> AfterRound(w, r).children[par].broadcasted
  {
    hide Run, IsRound, Listed, Shown, SendAll, SendsTo, Marks, Visits, Roll, FirstVisit;
    MarkFacts(w, r);
    TellFacts(w, r);
    ForgetFacts(w, r);
    var w1, w2 := AfterMarks(w, r), AfterTells(w, r);
    ListenersRun(w, r.marks, r.flows, par);
    SilentRun(w, r.marks, r.flows, |r.marks|, par);
    TellRun(w1, r.tells, r.flows, |r.tells|, par);
    SilentRun(w2, r.forgets, r.flows, |r.forgets|, par);
    assert r.marks[..|r.marks|] == r.marks;
    assert r.tells[..|r.tells|] == r.tells && r.forgets[..|r.forgets|] == r.forgets;
    MarklessMarksNothing(r.forgets, par);
  }

  ghost function TimesTold(sends: seq<Send>, l: nat): nat {
    if sends == [] then 0
    else TimesTold(sends[..|sends| - 1], l) + if sends[|sends| - 1].listener == l then 1 else 0
  }

  lemma {:induction false} TimesToldAppend(x: seq<Send>, y: seq<Send>, l: nat)
    ensures TimesTold(x + y, l) == TimesTold(x, l) + TimesTold(y, l)
  {
    if y == [] {
      assert x + y == x;
    } else {
      TimesToldAppend(x, y[..|y| - 1], l);
      assert (x + y)[..|x + y| - 1] == x + y[..|y| - 1];
    }
  }

  lemma {:induction false} SendAllTellsOnce(par: nat, listeners: seq<nat>, b: Bundle, l: nat)
    requires Distinct(listeners)
    ensures TimesTold(SendAll(par, listeners, b), l) == if l in listeners then 1 else 0
  {
    if listeners != [] {
      var k := |listeners| - 1;
      SendAllTellsOnce(par, listeners[..k], b, l);
      assert SendAll(par, listeners, b)[..k] == SendAll(par, listeners[..k], b);
      SplitLast(listeners);
      assert listeners[k] !in listeners[..k];
    }
  }

  /** Listener by listener: one call to those attached at the first visit, none to the others. */
  lemma RoundTellsEachListenerOnce(w: World, r: Round, par: nat, l: nat)
    requires IsRound(w, r) && par in w.children && Distinct(w.children[par].listeners)
    ensures TimesTold(SendsTo(AfterRound(w, r).sends, par), l) ==
            TimesTold(SendsTo(w.sends, par), l) + if Listed(r, par) && l in Hearers(w, r, par) then 1 else 0
    ensures Distinct(AfterRound(w, r).children[par].listeners)
  {
    hide Run, IsRound, Listed, Shown, SendAll, SendsTo, Roll, FirstVisit, TimesTold, Distinct;
    RoundTellsOnce(w, r, par);
    var marked := Roll(w.children[par].listeners, r.marks, par);
    RollIsDistinct(w.children[par].listeners, r.marks, par);
    RollIsDistinct(marked, r.tells[..FirstVisit(r.tells, |r.tells|, par)], par);
    var told := if Listed(r, par) then SendAll(par, Hearers(w, r, par), Shown(AfterMarks(w, r).children[par], r.flows)) else [];
    TimesToldAppend(SendsTo(w.sends, par), told, l);
    SendAllTellsOnce(par, Hearers(w, r, par), Shown(AfterMarks(w, r).children[par], r.flows), l);
    NotTold(l);
    MarkFacts(w, r);
    TellFacts(w, r);
    ForgetFacts(w, r);
    ListenersRun(w, r.marks, r.flows, par);
    ListenersRun(AfterMarks(w, r), r.tells, r.flows, par);
    ListenersRun(AfterTells(w, r), r.forgets, r.flows, par);
    RollIsDistinct(marked, r.tells, par);
    RollIsDistinct(Roll(marked, r.tells, par), r.forgets, par);
  }

  lemma NotTold(l: nat)
    ensures TimesTold([], l) == 0
  {
  }

  lemma MarklessMarksNothing(acts: seq<Act>, par: nat)
    requires Markless(acts)
    ensures !Marks(acts, par)
  {
  }

  /** A child that is not in host2par_ keeps its entries. */
  lemma RoundLeavesOthers(w: World, r: Round, par: nat, agg: nat)
    requires IsRound(w, r) && par in w.children && !HasPar(r.host2par, par) && agg < |r.inputs|
    ensures Reads(AfterRound(w, r).children[par].aggIsLopri, agg) == Reads(w.children[par].aggIsLopri, agg)
  {
    hide Run, Project, LastMark, AggTask, Selected, HasPar;
    RoundKeepsLopri(w, r, par);
    MarkFacts(w, r);
    ReadsDependOnOneTask(w, r.marks, r.flows, par, agg);
    assert Project(r.marks, agg) == AggTasks(r)[agg] == AggTask(agg, r.host2par, r.inputs[agg]);
    TaskLastMark(agg, r.host2par, r.inputs[agg], par, Reads(w.children[par].aggIsLopri, agg));
    SelectedOther(r.host2par, r.inputs[agg].toUpgrade, par);
    SelectedOther(r.host2par, r.inputs[agg].toDowngrade, par);
  }

  /** The bundle a touched host is sent shows the final state of every aggregate. */
  lemma RoundBundleIsFinal(w: World, r: Round, e: HostPar, agg: nat)
    requires IsRound(w, r) && e in r.host2par && e.par in w.children && agg < |r.inputs|
    ensures Shown(AfterMarks(w, r).children[e.par], r.flows).allocs[agg] ==
            if Wanted(r.inputs[agg], e.host, Reads(w.children[e.par].aggIsLopri, agg))
            then Alloc(r.flows[agg], 0, MAX_CHILD_BANDWIDTH_BPS)
            else Alloc(r.flows[agg], MAX_CHILD_BANDWIDTH_BPS, 0)
  {
    hide Run, Wanted, Registered;
    RoundKeepsLopri(w, r, e.par);
    RoundAppliesDiffs(w, r, e, agg);
  }

  /** The size check before a broadcast holds in every round. */
  lemma RoundKeepsSizes(w: World, r: Round, par: nat)
    requires IsRound(w, r) && par in w.children && |w.children[par].aggIsLopri| <= |r.flows|
    ensures |AfterMarks(w, r).children[par].aggIsLopri| <= |r.flows|
    ensures |AfterRound(w, r).children[par].aggIsLopri| <= |r.flows|
  {
    hide Run, IsRound;
    MarkFacts(w, r);
    SizesStayBounded(w, r.marks, r.flows, |r.marks|, par);
    assert r.marks[..|r.marks|] == r.marks;
    RoundKeepsLopri(w, r, par);
  }

  // ---- saw_data_this_run ----

  ghost predicate Hears(acts: seq<Act>, n: nat, par: nat)
    requires n <= |acts|
  {
    exists k :: 0 <= k < n && acts[k].par == par && acts[k].op.Hear?
  }

  lemma {:induction false} SawDataRun(w: World, acts: seq<Act>, flows: seq<string>, n: nat, par: nat)
    requires Known(acts, w.children.Keys) && n <= |acts| && par in w.children
    ensures Run(w, acts[..n], flows).children[par].sawData ==> w.children[par].sawData || Hears(acts, n, par)
  {
    if n > 0 {
      hide Marked, Shown, Sent;
      SawDataRun(w, acts, flows, n - 1, par);
      TakeSnoc(acts, n - 1);
      TakeAppend(acts[..n - 1], [acts[n - 1]]);
      assert acts[n - 1].par == par && acts[n - 1].op.Hear? ==> Hears(acts, n, par);
    }
  }

  ghost predicate Remembers(acts: seq<Act>) {
    forall k :: 0 <= k < |acts| ==> !acts[k].op.Forget?
  }

  /** After step 2.3 a child knows the newest generation it was heard with, and that it was heard at all. */
  ghost predicate Knows(c: Child, before: Child, acts: seq<Act>, n: nat, par: nat)
    requires n <= |acts|
  {
    && (c.sawData <==> before.sawData || Hears(acts, n, par))
    && c.genSeen >= before.genSeen
    && (forall k :: 0 <= k < n && acts[k].par == par && acts[k].op.Hear? ==> c.genSeen >= acts[k].op.gen)
    && (c.genSeen == before.genSeen || HeardGen(acts, n, par, c.genSeen))
  }

  ghost predicate HeardGen(acts: seq<Act>, n: nat, par: nat, gen: int)
    requires n <= |acts|
  {
    exists k :: 0 <= k < n && acts[k].par == par && acts[k].op.Hear? && acts[k].op.gen == gen
  }

  lemma {:induction false} KnowsRun(w: World, acts: seq<Act>, flows: seq<string>, n: nat, par: nat)
    requires Known(acts, w.children.Keys) && Remembers(acts) && n <= |acts| && par in w.children
    ensures Knows(Run(w, acts[..n], flows).children[par], w.children[par], acts, n, par)
  {
    if n > 0 {
      hide Marked, Shown, Sent;
      KnowsRun(w, acts, flows, n - 1, par);
      TakeSnoc(acts, n - 1);
      TakeAppend(acts[..n - 1], [acts[n - 1]]);
      var w1 := Run(w, acts[..n - 1], flows);
      KnowsStep(w1.children[par], w.children[par], acts, n - 1, par);
    }
  }

  lemma KnowsStep(c: Child, before: Child, acts: seq<Act>, n: nat, par: nat)
    requires n < |acts| && !acts[n].op.Forget? && Knows(c, before, acts, n, par)
    ensures Knows(if acts[n].par == par then Do(c, acts[n].task, acts[n].op) else c, before, acts, n + 1, par)
  {
    hide Marked;
    if Hears(acts, n, par) {
      var k :| 0 <= k < n && acts[k].par == par && acts[k].op.Hear?;
      assert Hears(acts, n + 1, par);
    }
    if HeardGen(acts, n, par, c.genSeen) {
      var k :| 0 <= k < n && acts[k].par == par && acts[k].op.Hear? && acts[k].op.gen == c.genSeen;
      assert HeardGen(acts, n + 1, par, c.genSeen);
    }
    if acts[n].par == par && acts[n].op.Hear? {
      assert Hears(acts, n + 1, par) && HeardGen(acts, n + 1, par, acts[n].op.gen);
    }
  }

  /** The generation in a bundle is the newest one heard from the host, and 0 if none was heard this round. */
  lemma RoundGenIsNewest(w: World, r: Round, par: nat)
    requires IsRound(w, r) && par in w.children
    ensures Knows(AfterMarks(w, r).children[par], w.children[par], r.marks, |r.marks|, par)
    ensures Shown(AfterMarks(w, r).children[par], r.flows).gen ==
            if w.children[par].sawData || Hears(r.marks, |r.marks|, par) then AfterMarks(w, r).children[par].genSeen else 0
  {
    hide Run, IsRound, Hears, HeardGen;
    MarkFacts(w, r);
    forall k | 0 <= k < |r.marks| ensures !r.marks[k].op.Forget? {
      MarkFact(w, r, k);
    }
    KnowsRun(w, r.marks, r.flows, |r.marks|, par);
    assert r.marks[..|r.marks|] == r.marks;
  }

  ghost predicate Forgets(acts: seq<Act>, n: nat, par: nat)
    requires n <= |acts|
  {
    exists k :: 0 <= k < n && acts[k].par == par && acts[k].op.Forget?
  }

  lemma {:induction false} ForgetRun(w: World, acts: seq<Act>, flows: seq<string>, n: nat, par: nat)
    requires Known(acts, w.children.Keys) && n <= |acts| && par in w.children
    requires forall k :: 0 <= k < |acts| ==> acts[k].op.Forget? || Outside(acts[k].op)
    ensures Run(w, acts[..n], flows).children[par].sawData ==> w.children[par].sawData && !Forgets(acts, n, par)
  {
    if n > 0 {
      hide Marked, Shown, Sent, Attached, Detached;
      ForgetRun(w, acts, flows, n - 1, par);
      TakeSnoc(acts, n - 1);
      TakeAppend(acts[..n - 1], [acts[n - 1]]);
    }
  }

  /** Steps 2.3 and 4 look up the same hosts. */
  lemma {:induction false} GenActsMatch(agg: nat, host2par: seq<HostPar>, gens: seq<(nat, int)>)
    ensures |GenActs(agg, host2par, gens, false)| == |GenActs(agg, host2par, gens, true)|
    ensures forall k :: 0 <= k < |GenActs(agg, host2par, gens, false)| ==>
      GenActs(agg, host2par, gens, true)[k] == Act(agg, GenActs(agg, host2par, gens, false)[k].par, Forget)
  {
    if gens != [] {
      GenActsMatch(agg, host2par, gens[..|gens| - 1]);
    }
  }

  lemma HeardIsForgotten(w: World, r: Round, par: nat)
    requires IsRound(w, r) && Hears(r.marks, |r.marks|, par)
    ensures Forgets(r.forgets, |r.forgets|, par)
  {
    hide Registered, GenActs, Project, Selected, MarkActs;
    var k :| 0 <= k < |r.marks| && r.marks[k].par == par && r.marks[k].op.Hear?;
    var a := r.marks[k];
    assert a in r.marks;
    InterleavingHolds(r.marks, AggTasks(r), a);
    var input := r.inputs[a.task];
    HearsInGens(a.task, r.host2par, input, a);
    var gens := GenActs(a.task, r.host2par, input.gens, false);
    var j :| 0 <= j < |gens| && gens[j] == a;
    GenActsMatch(a.task, r.host2par, input.gens);
    var f := GenActs(a.task, r.host2par, input.gens, true)[j];
    InterleavingHolds(r.forgets, ForgetTasks(r), f);
    var i :| 0 <= i < |r.forgets| && r.forgets[i] == f;
  }

  lemma HearsInGens(agg: nat, host2par: seq<HostPar>, input: AggInput, a: Act)
    requires a in AggTask(agg, host2par, input) && a.op.Hear?
    ensures a in GenActs(agg, host2par, input.gens, false)
  {
    hide GenActs, Selected;
  }

  lemma ForgetsForget(w: World, r: Round, k: nat)
    requires IsRound(w, r) && k < |r.forgets|
    ensures r.forgets[k].op.Forget? || Outside(r.forgets[k].op)
  {
    hide Registered, GenActs, Project;
    var a := r.forgets[k];
    assert a in r.forgets;
    InterleavingHolds(r.forgets, ForgetTasks(r), a);
    if a.task < |r.inputs| {
      GenActsHold(a.task, r.host2par, r.inputs[a.task].gens, true, a);
    }
  }

  /** saw_data_this_run is false between rounds. */
  lemma RoundForgetsData(w: World, r: Round, par: nat)
    requires IsRound(w, r) && par in w.children && !w.children[par].sawData
    ensures !AfterRound(w, r).children[par].sawData
  {
    hide Run, IsRound;
    MarkFacts(w, r);
    TellFacts(w, r);
    ForgetFacts(w, r);
    var w1, w2 := AfterMarks(w, r), AfterTells(w, r);
    SawDataRun(w, r.marks, r.flows, |r.marks|, par);
    TellRun(w1, r.tells, r.flows, |r.tells|, par);
    forall k | 0 <= k < |r.forgets| ensures r.forgets[k].op.Forget? || Outside(r.forgets[k].op) {
      ForgetsForget(w, r, k);
    }
    ForgetRun(w2, r.forgets, r.flows, |r.forgets|, par);
    assert r.marks[..|r.marks|] == r.marks;
    assert r.tells[..|r.tells|] == r.tells && r.forgets[..|r.forgets|] == r.forgets;
    if Hears(r.marks, |r.marks|, par) {
      HeardIsForgotten(w, r, par);
    }
  }
}
