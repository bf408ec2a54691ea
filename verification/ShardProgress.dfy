/**
 Progress of the shards: the threads spin on the slot, and yet no state is a dead end. Whoever
 holds the slot can release it, and after that any writer can return and the collector can
 finish by steps of its own.
 */
module ShardProgress {
  import opened Wrappers
  import opened ShardProtocol

  /** The actions lead from s to t. */
  ghost predicate Leads(s: Shard, actions: seq<Action>, t: Shard)
    decreases |actions|
  {
    if actions == [] then s == t
    else Enabled(s, actions[0]) && Leads(Apply(s, actions[0]), actions[1..], t)
  }

  lemma LeadsFirst(s: Shard, a: Action, actions: seq<Action>, t: Shard)
    requires Enabled(s, a) && Leads(Apply(s, a), actions, t)
    ensures Leads(s, [a] + actions, t)
  {
    hide Enabled, Apply;
    assert ([a] + actions)[1..] == actions;
  }

  lemma {:induction false} LeadsOn(s: Shard, actions: seq<Action>, t: Shard, more: seq<Action>, u: Shard)
    requires Leads(s, actions, t) && Leads(t, more, u)
    ensures Leads(s, actions + more, u)
    decreases |actions|
  {
    hide Enabled, Apply;
    if actions == [] {
      assert actions + more == more;
    } else {
      LeadsOn(Apply(s, actions[0]), actions[1..], t, more, u);
      assert (actions + more)[1..] == actions[1..] + more;
    }
  }

  // ---- Writers ----

  /** The next step of a writer that has not returned. */
  function NextOf(id: nat, w: Writer): Action {
    match w
    case Loading(_) => Load(id)
    case Swapping(_, _) => Swap(id)
    case Pushing(_, _, _) => Push(id)
    case _ => Store(id)
  }

  /** Nobody else holds the slot. */
  ghost predicate FreeFor(s: Shard, id: nat) {
    s.holder == None || s.holder == Some(id)
  }

  /** How many steps a writer takes at most while nobody else steps. */
  ghost function StepsLeft(w: Writer, slot: int): nat {
    match w
    case Loading(call) => |call.infos| + 4
    case Swapping(call, cur) => if cur == slot then |call.infos| + 3 else |call.infos| + 5
    case Pushing(call, _, k) => if k <= |call.infos| then |call.infos| - k + 2 else 2
    case Storing(_, _) => 1
    case Returned(_) => 0
  }

  /** A spinning writer gets on as soon as nobody else holds the slot. */
  lemma WriterSteps(s: Shard, id: nat)
    requires Inv(s) && id in s.writers && !s.writers[id].Returned? && FreeFor(s, id)
    ensures Enabled(s, NextOf(id, s.writers[id]))
    ensures var t := Apply(s, NextOf(id, s.writers[id]));
            && Inv(t) && id in t.writers && FreeFor(t, id) && t.writers[id].call == s.writers[id].call
            && StepsLeft(t.writers[id], t.slot) < StepsLeft(s.writers[id], s.slot)
            && t.collector == s.collector
  {
    hide CollectorInv, LogInv, CutsInv, ContentOf;
    assert s.writers[id].Pushing? ==> s.writers[id].cur == s.active;
    StepKeeps(s, NextOf(id, s.writers[id]));
  }

  lemma {:induction false} WriterReturns(s: Shard, id: nat) returns (actions: seq<Action>, t: Shard)
    requires Inv(s) && id in s.writers && FreeFor(s, id)
    ensures Leads(s, actions, t) && Inv(t) && |actions| <= StepsLeft(s.writers[id], s.slot)
    ensures id in t.writers && t.writers[id] == Returned(s.writers[id].call) && t.collector == s.collector
    ensures t.holder == None
    decreases StepsLeft(s.writers[id], s.slot)
  {
    hide Enabled, Apply, StepsLeft;
    if s.writers[id].Returned? {
      actions, t := [], s;
      ReturnedHoldsNothing(s, id);
    } else {
      var a := NextOf(id, s.writers[id]);
      WriterSteps(s, id);
      actions, t := WriterReturns(Apply(s, a), id);
      LeadsFirst(s, a, actions, t);
      actions := [a] + actions;
    }
  }

  lemma ReturnedHoldsNothing(s: Shard, id: nat)
    requires Inv(s) && id in s.writers && s.writers[id].Returned? && FreeFor(s, id)
    ensures s.holder == None
  {
    hide ActiveInv, CollectorInv, LogInv, CutsInv;
  }

  /** From any state the slot can be released, whoever holds it. */
  lemma SlotIsReleased(s: Shard) returns (actions: seq<Action>, t: Shard)
    requires Inv(s)
    ensures Leads(s, actions, t) && Inv(t) && t.holder == None && t.collector == s.collector
    ensures forall id :: id in s.writers ==> id in t.writers && t.writers[id].call == s.writers[id].call
  {
    if s.holder == None {
      actions, t := [], s;
    } else {
      var h := s.holder.value;
      HolderIsWriter(s);
      actions, t := WriterReturns(s, h);
      CallsStay(s, actions, t);
    }
  }

  lemma HolderIsWriter(s: Shard)
    requires Inv(s) && s.holder.Some?
    ensures s.holder.value in s.writers
  {
    hide ActiveInv, CollectorInv, LogInv, CutsInv;
  }

  lemma {:induction false} CallsStay(s: Shard, actions: seq<Action>, t: Shard)
    requires Leads(s, actions, t)
    ensures forall id :: id in s.writers ==> id in t.writers && t.writers[id].call == s.writers[id].call
    decreases |actions|
  {
    if actions != [] {
      StepKeepsCalls(s, actions[0]);
      hide Enabled, Apply;
      CallsStay(Apply(s, actions[0]), actions[1..], t);
    }
  }

  lemma StepKeepsCalls(s: Shard, a: Action)
    requires Enabled(s, a)
    ensures forall id :: id in s.writers ==> id in Apply(s, a).writers && Apply(s, a).writers[id].call == s.writers[id].call
  {
  }

  /** In every state every call that is under way can still return. */
  lemma EveryWriterCanReturn(s: Shard, id: nat) returns (actions: seq<Action>, t: Shard)
    requires Inv(s) && id in s.writers
    ensures Leads(s, actions, t) && Inv(t) && id in t.writers && t.writers[id] == Returned(s.writers[id].call)
  {
    hide Inv, Enabled, Apply;
    var first, mid := SlotIsReleased(s);
    var second;
    second, t := WriterReturns(mid, id);
    LeadsOn(s, first, mid, second, t);
    actions := first + second;
  }

  // ---- The collector ----

  /** The next step of a collector at work. */
  function NextStep(c: Collector): Action {
    match c
    case CollectorLoading => CollectorLoad
    case ClearingGens(_) => ClearGens
    case ClearingInfos(_) => ClearInfos
    case CollectorSwapping(_) => CollectorSwap
    case _ => ReadNext
  }

  ghost predicate Working(c: Collector) {
    !c.Resting? && !c.Collected?
  }

  /** How far the collector is from its end, given what there is to read. */
  ghost function Distance(c: Collector, size: nat): nat {
    match c
    case CollectorLoading => size + 5
    case ClearingGens(_) => size + 4
    case ClearingInfos(_) => size + 3
    case CollectorSwapping(_) => size + 2
    case Reading(_, got) => if |got.infos| + |got.gens| <= size then size - |got.infos| - |got.gens| + 1 else 1
    case _ => 0
  }

  function SizeOf(b: Buffer): nat {
    |b.infos| + |b.gens|
  }

  /** What the collector has to read: the buffer it has, or the one it is about to take. */
  ghost function ToRead(s: Shard): nat
    requires |s.buffers| == 2 && s.active < 2
  {
    if s.collector.Reading? then SizeOf(s.buffers[Other(s.active)]) else SizeOf(s.buffers[s.active])
  }

  lemma ActiveIsBuffer(s: Shard)
    requires Inv(s)
    ensures |s.buffers| == 2 && s.active < 2
  {
  }

  lemma CollectorSteps(s: Shard)
    requires Inv(s) && Working(s.collector) && s.holder == None && |s.buffers| == 2 && s.active < 2
    ensures Enabled(s, NextStep(s.collector))
    ensures var t := Apply(s, NextStep(s.collector));
            && Inv(t) && t.holder == None && t.log == s.log && !t.collector.Resting?
            && |t.buffers| == 2 && t.active < 2
            && (Working(t.collector) ==> Distance(t.collector, ToRead(t)) < Distance(s.collector, ToRead(s)))
  {
    hide LogInv, CutsInv, ContentOf;
    StepKeeps(s, NextStep(s.collector));
  }

  lemma {:induction false} CollectorFinishes(s: Shard) returns (actions: seq<Action>, t: Shard)
    requires Inv(s) && !s.collector.Resting? && s.holder == None && |s.buffers| == 2 && s.active < 2
    ensures Leads(s, actions, t) && Inv(t) && t.collector.Collected? && t.log == s.log
    decreases if Working(s.collector) then Distance(s.collector, ToRead(s)) + 1 else 0
  {
    hide Enabled, Apply, Distance, ToRead;
    if s.collector.Collected? {
      actions, t := [], s;
    } else {
      var a := NextStep(s.collector);
      CollectorSteps(s);
      actions, t := CollectorFinishes(Apply(s, a));
      LeadsFirst(s, a, actions, t);
      actions := [a] + actions;
    }
  }

  /** In every state a snapshot that is under way can still be completed. */
  lemma CollectorCanFinish(s: Shard) returns (actions: seq<Action>, t: Shard)
    requires Inv(s) && !s.collector.Resting?
    ensures Leads(s, actions, t) && Inv(t) && t.collector.Collected?
  {
    hide Inv, Enabled, Apply;
    var first, mid := SlotIsReleased(s);
    ActiveIsBuffer(mid);
    var second;
    second, t := CollectorFinishes(mid);
    LeadsOn(s, first, mid, second, t);
    actions := first + second;
  }
}
