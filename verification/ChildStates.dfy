/** The per-host state of the fast controller and the bundle it broadcasts for a host. */
module ChildStates {
  import opened Sequences

  /** 100 Gbps */
  const MAX_CHILD_BANDWIDTH_BPS := 100 * 0x4000_0000

  /** A value of ChildState; listeners are in the order in which they are called, each once. */
  datatype Child = Child(aggIsLopri: seq<bool>, listeners: seq<nat>, genSeen: int, broadcasted: bool, sawData: bool)

  datatype Alloc = Alloc(flow: string, hipriBps: int, lopriBps: int)

  datatype Bundle = Bundle(allocs: seq<Alloc>, gen: int)

  /** One call of on_new_bundle_func. */
  datatype Send = Send(par: nat, listener: nat, bundle: Bundle)

  /** Absent entries of agg_is_lopri read as false. */
  predicate Reads(v: seq<bool>, agg: nat) {
    agg < |v| && v[agg]
  }

  /** The state a host should be told about, aggregate by aggregate. */
  ghost predicate Shows(b: Bundle, c: Child, flows: seq<string>) {
    && |b.allocs| == |flows|
    && b.gen == (if c.sawData then c.genSeen else 0)
    && forall i :: 0 <= i < |flows| ==>
         b.allocs[i] == if Reads(c.aggIsLopri, i) then Alloc(flows[i], 0, MAX_CHILD_BANDWIDTH_BPS)
                        else Alloc(flows[i], MAX_CHILD_BANDWIDTH_BPS, 0)
  }

  lemma ShowsIsUnique(b1: Bundle, b2: Bundle, c: Child, flows: seq<string>)
    requires Shows(b1, c, flows) && Shows(b2, c, flows)
    ensures b1 == b2
  {
    assert b1.allocs == b2.allocs;
  }

  function Shown(c: Child, flows: seq<string>): (b: Bundle)
    ensures Shows(b, c, flows)
  {
    Bundle(seq(|flows|, i requires 0 <= i < |flows| =>
             if Reads(c.aggIsLopri, i) then Alloc(flows[i], 0, MAX_CHILD_BANDWIDTH_BPS)
             else Alloc(flows[i], MAX_CHILD_BANDWIDTH_BPS, 0)),
           if c.sawData then c.genSeen else 0)
  }

  /** One send to every listener, in order. */
  function SendAll(par: nat, listeners: seq<nat>, b: Bundle): (sends: seq<Send>)
    ensures |sends| == |listeners|
    ensures forall k :: 0 <= k < |sends| ==> sends[k] == Send(par, listeners[k], b)
  {
    seq(|listeners|, k requires 0 <= k < |listeners| => Send(par, listeners[k], b))
  }

  /** Setting one aggregate changes how that aggregate reads and no other. */
  ghost predicate IsSet(v: seq<bool>, agg: nat, isLopri: bool, v': seq<bool>) {
    && |v'| == (if agg < |v| then |v| else agg + 1)
    && forall b: nat :: Reads(v', b) == if b == agg then isLopri else Reads(v, b)
  }

  /** resize with false, then assign */
  function Marked(v: seq<bool>, agg: nat, isLopri: bool): seq<bool> {
    if agg < |v| then v[agg := isLopri] else v + seq(agg - |v|, _ => false) + [isLopri]
  }

  lemma MarkedIsSet(v: seq<bool>, agg: nat, isLopri: bool)
    ensures IsSet(v, agg, isLopri, Marked(v, agg, isLopri))
  {
  }

  /** The callbacks that the controller runs on a child, each of them atomic. */
  datatype Op = Hear(gen: int) | Mark(isLopri: bool) | Tell | Forget | Listen(listener: nat) | Unlisten(listener: nat)

  /** Callbacks that come from outside the controller's rounds. */
  predicate Outside(op: Op) {
    op.Listen? || op.Unlisten?
  }

  function Attached(listeners: seq<nat>, l: nat): seq<nat> {
    if l in listeners then listeners else listeners + [l]
  }

  function Detached(listeners: seq<nat>, l: nat): seq<nat> {
    if listeners == [] then []
    else
      var k := |listeners| - 1;
      Detached(listeners[..k], l) + if listeners[k] == l then [] else [listeners[k]]
  }

  ghost predicate Distinct(listeners: seq<nat>) {
    forall i, j :: 0 <= i < j < |listeners| ==> listeners[i] != listeners[j]
  }

  lemma AttachedHolds(listeners: seq<nat>, l: nat, x: nat)
    ensures x in Attached(listeners, l) <==> x in listeners || x == l
    ensures Distinct(listeners) ==> Distinct(Attached(listeners, l))
  {
  }

  lemma {:induction false} DetachedHolds(listeners: seq<nat>, l: nat, x: nat)
    ensures x in Detached(listeners, l) <==> x in listeners && x != l
  {
    if listeners != [] {
      DetachedHolds(listeners[..|listeners| - 1], l, x);
      SplitLast(listeners);
    }
  }

  lemma {:induction false} DetachedIsDistinct(listeners: seq<nat>, l: nat)
    requires Distinct(listeners)
    ensures Distinct(Detached(listeners, l))
  {
    if listeners != [] {
      var k := |listeners| - 1;
      DetachedIsDistinct(listeners[..k], l);
      DetachedHolds(listeners[..k], l, listeners[k]);
      assert listeners[k] !in listeners[..k];
    }
  }

  /** A child after a callback of the task for aggregate agg. */
  function Do(c: Child, agg: nat, op: Op): Child {
    match op
    case Hear(gen) => c.(genSeen := if gen > c.genSeen then gen else c.genSeen, sawData := true)
    case Mark(isLopri) => c.(aggIsLopri := Marked(c.aggIsLopri, agg, isLopri), broadcasted := false)
    case Tell => c.(broadcasted := true)
    case Forget => c.(sawData := false)
    case Listen(l) => c.(listeners := Attached(c.listeners, l))
    case Unlisten(l) => c.(listeners := Detached(c.listeners, l))
  }

  /** What a callback sends. */
  function Sent(c: Child, par: nat, op: Op, flows: seq<string>): seq<Send> {
    if op.Tell? && !c.broadcasted then SendAll(par, c.listeners, Shown(c, flows)) else []
  }

  class BaseBundle {
    var allocs: seq<Alloc>
    var gen: int

    /** CreateBroadcastBundle */
    constructor (flows: seq<string>)
      ensures HasFlows(flows)
    {
      allocs := seq(|flows|, i requires 0 <= i < |flows| => Alloc(flows[i], 0, 0));
      gen := 0;
    }

    ghost predicate HasFlows(flows: seq<string>)
      reads this
    {
      |allocs| == |flows| && forall i :: 0 <= i < |flows| ==> allocs[i].flow == flows[i]
    }
  }

  class ChildState {
    const par: nat
    var aggIsLopri: seq<bool>
    var listeners: seq<nat>
    var genSeen: int
    var broadcastedLatestState: bool
    var sawDataThisRun: bool

    ghost function View(): Child
      reads this
    {
      Child(aggIsLopri, listeners, genSeen, broadcastedLatestState, sawDataThisRun)
    }

    method SetAggIsLopri(aggId: nat, isLopri: bool)
      modifies this`aggIsLopri
      ensures aggIsLopri == Marked(old(aggIsLopri), aggId, isLopri)
    {
      if aggId >= |aggIsLopri| {
        aggIsLopri := aggIsLopri + seq(aggId + 1 - |aggIsLopri|, _ => false);
      }
      aggIsLopri := aggIsLopri[aggId := isLopri];
    }

    /** The callback of step 2.3. */
    method Heard(gen: int)
      modifies this`genSeen, this`sawDataThisRun
      ensures View() == Do(old(View()), 0, Hear(gen))
    {
      genSeen := if gen > genSeen then gen else genSeen;
      sawDataThisRun := true;
    }

    /** The callback of step 2.4. */
    method Update(aggId: nat, isLopri: bool)
      modifies this`aggIsLopri, this`broadcastedLatestState
      ensures View() == Do(old(View()), aggId, Mark(isLopri))
      ensures IsSet(old(aggIsLopri), aggId, isLopri, aggIsLopri)
    {
      MarkedIsSet(aggIsLopri, aggId, isLopri);
      SetAggIsLopri(aggId, isLopri);
      broadcastedLatestState := false;
    }

    /** The callback of step 4. */
    method ForgetData()
      modifies this`sawDataThisRun
      ensures View() == Do(old(View()), 0, Forget)
    {
      sawDataThisRun := false;
    }

    /** The callback of RegisterListener. */
    method AddListener(l: nat)
      modifies this`listeners
      ensures View() == Do(old(View()), 0, Listen(l))
      ensures forall x :: x in listeners <==> x in old(listeners) || x == l
    {
      if l !in listeners {
        listeners := listeners + [l];
      }
    }

    /** The callback of a listener's destructor. */
    method RemoveListener(l: nat)
      modifies this`listeners
      ensures View() == Do(old(View()), 0, Unlisten(l))
      ensures forall x :: x in listeners <==> x in old(listeners) && x != l
    {
      var kept: seq<nat> := [];
      for k := 0 to |listeners|
        invariant kept == Detached(listeners[..k], l)
      {
        assert listeners[..k + 1][..k] == listeners[..k];
        if listeners[k] != l {
          kept := kept + [listeners[k]];
        }
      }
      assert listeners[..|listeners|] == listeners;
      forall x ensures x in kept <==> x in listeners && x != l {
        DetachedHolds(listeners, l, x);
      }
      listeners := kept;
    }

    /** What the base bundle held before does not matter, except for its flows. */
    method BroadcastStateUnconditional(base: BaseBundle, ghost flows: seq<string>) returns (sent: seq<Send>)
      requires base.HasFlows(flows) && |aggIsLopri| <= |base.allocs|
      modifies base
      ensures base.HasFlows(flows) && Shows(Bundle(base.allocs, base.gen), View(), flows)
      ensures Bundle(base.allocs, base.gen) == Shown(View(), flows)
      ensures sent == SendAll(par, listeners, Shown(View(), flows))
    {
      for i := 0 to |base.allocs|
        invariant |base.allocs| == |flows|
        invariant forall j :: 0 <= j < |flows| ==> base.allocs[j].flow == flows[j]
        invariant forall j :: 0 <= j < i ==>
          base.allocs[j] == if Reads(aggIsLopri, j) then Alloc(flows[j], 0, MAX_CHILD_BANDWIDTH_BPS)
                            else Alloc(flows[j], MAX_CHILD_BANDWIDTH_BPS, 0)
      {
        var isLopri := false;
        if i < |aggIsLopri| {
          isLopri := aggIsLopri[i];
        }
        if isLopri {
          base.allocs := base.allocs[i := base.allocs[i].(hipriBps := 0, lopriBps := MAX_CHILD_BANDWIDTH_BPS)];
        } else {
          base.allocs := base.allocs[i := base.allocs[i].(hipriBps := MAX_CHILD_BANDWIDTH_BPS, lopriBps := 0)];
        }
      }
      base.gen := 0;
      if sawDataThisRun {
        base.gen := genSeen;
      }
      ShowsIsUnique(Bundle(base.allocs, base.gen), Shown(View(), flows), View(), flows);
      sent := [];
      for k := 0 to |listeners|
        invariant sent == SendAll(par, listeners[..k], Shown(View(), flows))
      {
        sent := sent + [Send(par, listeners[k], Bundle(base.allocs, base.gen))];
      }
      assert listeners[..|listeners|] == listeners;
    }

    method BroadcastStateIfUpdated(base: BaseBundle, ghost flows: seq<string>) returns (sent: seq<Send>)
      requires base.HasFlows(flows) && |aggIsLopri| <= |base.allocs|
      modifies base, this`broadcastedLatestState
      ensures base.HasFlows(flows)
      ensures View() == Do(old(View()), 0, Tell)
      ensures sent == Sent(old(View()), par, Tell, flows)
    {
      if broadcastedLatestState {
        return [];
      }
      sent := BroadcastStateUnconditional(base, flows);
      broadcastedLatestState := true;
    }
  }
}
