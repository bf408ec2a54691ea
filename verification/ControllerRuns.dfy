/**
 Steps 2 to 4 of ComputeAndBroadcast. Each task is the list of OnID callbacks it makes, each
 callback is atomic, and the tasks of one step interleave in any order.
 */
module ControllerRuns {
  import opened Sequences
  import opened Selection
  import opened ChildStates

  /** A callback that a task makes on one child. */
  datatype Act = Act(task: nat, par: nat, op: Op)

  type Children = map<nat, Child>

  datatype World = World(children: Children, sends: seq<Send>)

  /** What the diff of one aggregate's selector says, and which hosts were heard from. */
  datatype AggInput = AggInput(toDowngrade: UnorderedIds, toUpgrade: UnorderedIds, gens: seq<(nat, int)>)

  ghost predicate Known(acts: seq<Act>, pars: set<nat>) {
    forall k :: 0 <= k < |acts| ==> acts[k].par in pars
  }

  function Step(w: World, a: Act, flows: seq<string>): World
    requires a.par in w.children
  {
    var c := w.children[a.par];
    World(w.children[a.par := Do(c, a.task, a.op)], w.sends + Sent(c, a.par, a.op, flows))
  }

  ghost function Run(w: World, acts: seq<Act>, flows: seq<string>): (w': World)
    requires Known(acts, w.children.Keys)
    ensures w'.children.Keys == w.children.Keys
  {
    if acts == [] then w
    else
      var k := |acts| - 1;
      Step(Run(w, acts[..k], flows), acts[k], flows)
  }

  // ---- Interleavings ----

  /** The callbacks of one task, in the order in which they happen. */
  ghost function Project(acts: seq<Act>, t: nat): seq<Act> {
    if acts == [] then []
    else
      var k := |acts| - 1;
      Project(acts[..k], t) + if acts[k].task == t then [acts[k]] else []
  }

  /** The callbacks of the tasks in any order, among them any that come from outside. */
  ghost predicate Interleaves(acts: seq<Act>, tasks: seq<seq<Act>>) {
    && (forall k :: 0 <= k < |acts| ==> acts[k].task < |tasks| || Outside(acts[k].op))
    && forall t :: 0 <= t < |tasks| ==> Project(acts, t) == tasks[t]
  }

  lemma {:induction false} ProjectHolds(acts: seq<Act>, t: nat, a: Act)
    ensures a in Project(acts, t) <==> a in acts && a.task == t
  {
    if acts != [] {
      ProjectHolds(acts[..|acts| - 1], t, a);
      SplitLast(acts);
    }
  }

  /** An interleaving holds the callbacks of the tasks and, from others, only those from outside. */
  lemma InterleavingHolds(acts: seq<Act>, tasks: seq<seq<Act>>, a: Act)
    requires Interleaves(acts, tasks)
    ensures a.task < |tasks| ==> (a in acts <==> a in tasks[a.task])
    ensures a in acts && a.task >= |tasks| ==> Outside(a.op)
  {
    if a.task < |tasks| {
      ProjectHolds(acts, a.task, a);
    }
  }

  // ---- Step 2: marking ----

  /** How a child reads for one aggregate once these callbacks have happened. */
  ghost function LastMark(acts: seq<Act>, par: nat, before: bool): bool {
    if acts == [] then before
    else
      var k := |acts| - 1;
      if acts[k].par == par && acts[k].op.Mark? then acts[k].op.isLopri else LastMark(acts[..k], par, before)
  }

  lemma LastMarkSnoc(acts: seq<Act>, a: Act, par: nat, before: bool)
    ensures LastMark(acts + [a], par, before) ==
            if a.par == par && a.op.Mark? then a.op.isLopri else LastMark(acts, par, before)
  {
    TakeAppend(acts, [a]);
  }

  /** Only marks change how an aggregate reads, and only those of its own task. */
  lemma DoReads(c: Child, task: nat, op: Op, agg: nat)
    ensures Reads(Do(c, task, op).aggIsLopri, agg) ==
            if op.Mark? && task == agg then op.isLopri else Reads(c.aggIsLopri, agg)
  {
    hide Marked, Attached, Detached, Reads;
    if op.Mark? {
      MarkedIsSet(c.aggIsLopri, task, op.isLopri);
    }
  }

  lemma ProjectSnoc(acts: seq<Act>, agg: nat)
    requires acts != []
    ensures var k := |acts| - 1;
            Project(acts, agg) ==
            if acts[k].task == agg then Project(acts[..k], agg) + [acts[k]] else Project(acts[..k], agg)
  {
  }

  /** Each aggregate's entry depends on that aggregate's task alone. */
  lemma {:induction false} ReadsDependOnOneTask(w: World, acts: seq<Act>, flows: seq<string>, par: nat, agg: nat)
    requires Known(acts, w.children.Keys) && par in w.children
    ensures Reads(Run(w, acts, flows).children[par].aggIsLopri, agg) ==
            LastMark(Project(acts, agg), par, Reads(w.children[par].aggIsLopri, agg))
  {
    if acts != [] {
      var k := |acts| - 1;
      var a := acts[k];
      var before := Reads(w.children[par].aggIsLopri, agg);
      ReadsDependOnOneTask(w, acts[..k], flows, par, agg);
      hide Sent, Do, Reads, Project, LastMark;
      ProjectSnoc(acts, agg);
      LastMarkSnoc(Project(acts[..k], agg), a, par, before);
      DoReads(Run(w, acts[..k], flows).children[par], a.task, a.op, agg);
    }
  }

  // ---- Listeners ----

  /** The listeners of a child once these callbacks have happened. */
  ghost function Roll(listeners: seq<nat>, acts: seq<Act>, par: nat): seq<nat> {
    if acts == [] then listeners
    else
      var k := |acts| - 1;
      var ls := Roll(listeners, acts[..k], par);
      if acts[k].par != par then ls
      else if acts[k].op.Listen? then Attached(ls, acts[k].op.listener)
      else if acts[k].op.Unlisten? then Detached(ls, acts[k].op.listener)
      else ls
  }

  lemma {:induction false} ListenersRun(w: World, acts: seq<Act>, flows: seq<string>, par: nat)
    requires Known(acts, w.children.Keys) && par in w.children
    ensures Run(w, acts, flows).children[par].listeners == Roll(w.children[par].listeners, acts, par)
  {
    if acts != [] {
      hide Shown, Sent, Marked, Attached, Detached;
      ListenersRun(w, acts[..|acts| - 1], flows, par);
    }
  }

  lemma {:induction false} RollIsDistinct(listeners: seq<nat>, acts: seq<Act>, par: nat)
    requires Distinct(listeners)
    ensures Distinct(Roll(listeners, acts, par))
  {
    if acts != [] {
      hide Attached, Detached, Distinct;
      var k := |acts| - 1;
      var ls := Roll(listeners, acts[..k], par);
      RollIsDistinct(listeners, acts[..k], par);
      if Outside(acts[k].op) {
        AttachedHolds(ls, acts[k].op.listener, 0);
        DetachedIsDistinct(ls, acts[k].op.listener);
      }
    }
  }
}
