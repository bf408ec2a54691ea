/**
 One info shard of the fast aggregator: two buffers, an atomic slot that names the active one or
 holds -1 while a writer is at work, any number of UpdateInfo calls and one collector. Every
 load, compare-exchange, store, push, clear and read is a step of its own, and steps of
 different threads interleave freely.
 */
module ShardProtocol {
  import opened Wrappers
  import opened Sequences

  const LOCKED := -1

  datatype Info = Info(aggId: nat, childId: nat, volumeBps: int, currentlyLopri: bool)

  datatype HostGen = HostGen(hostId: nat, gen: int)

  /** What one UpdateInfo call has to publish. */
  datatype Call = Call(infos: seq<Info>, hostGen: HostGen)

  datatype Buffer = Buffer(gens: seq<HostGen>, infos: seq<Info>)

  const EMPTY := Buffer([], [])

  /** Where a writer stands in UpdateInfo. */
  datatype Writer =
    | Loading(call: Call)                          // before active_info_shard_ids_.load
    | Swapping(call: Call, cur: int)               // before compare_exchange(cur, -1)
    | Pushing(call: Call, cur: int, k: nat)        // k infos pushed
    | Storing(call: Call, cur: int)                // gen pushed, before store(cur)
    | Returned(call: Call)

  /** Where the collector stands in its task for this shard. */
  datatype Collector =
    | Resting
    | CollectorLoading
    | ClearingGens(cur: int)
    | ClearingInfos(cur: int)
    | CollectorSwapping(cur: int)                  // before compare_exchange(cur, next)
    | Reading(cur: int, got: Buffer)               // Aggregate has read this much
    | Collected(got: Buffer)

  datatype Published = Published(id: nat, call: Call)

  /**
   The shard, followed by history: which buffer is active, which writer holds it, the calls
   published so far in order, and where the collector cut that order.
   */
  datatype Shard = Shard(
    slot: int, buffers: seq<Buffer>, writers: map<nat, Writer>, collector: Collector,
    active: nat, holder: Option<nat>, log: seq<Published>, cuts: seq<nat>)

  datatype Action =
    | Arrive(id: nat, call: Call)
    | Load(id: nat)
    | Swap(id: nat)
    | Push(id: nat)
    | Store(id: nat)
    | Begin
    | CollectorLoad
    | ClearGens
    | ClearInfos
    | CollectorSwap
    | ReadNext

  const INIT := Shard(0, [EMPTY, EMPTY], map[], Resting, 0, None, [], [0])

  ghost predicate Enabled(s: Shard, a: Action) {
    && |s.buffers| == 2
    && match a
       case Arrive(id, call) => id !in s.writers
       case Load(id) => id in s.writers && s.writers[id].Loading?
       case Swap(id) => id in s.writers && s.writers[id].Swapping?
       case Push(id) => id in s.writers && s.writers[id].Pushing? && 0 <= s.writers[id].cur < 2
       case Store(id) => id in s.writers && s.writers[id].Storing?
       case Begin => s.collector.Resting? || s.collector.Collected?
       case CollectorLoad => s.collector.CollectorLoading?
       case ClearGens => s.collector.ClearingGens?
       case ClearInfos => s.collector.ClearingInfos?
       case CollectorSwap => s.collector.CollectorSwapping?
       case ReadNext => s.collector.Reading? && 0 <= s.collector.cur < 2
  }

  /** (cur_id + 1) % 2 */
  function Other(b: int): (r: nat)
    ensures r < 2
  {
    (b + 1) % 2
  }

  function Apply(s: Shard, a: Action): Shard
    requires Enabled(s, a)
  {
    match a
    case Arrive(id, call) => s.(writers := s.writers[id := Loading(call)])
    case Load(id) =>
      var w := s.writers[id];
      if s.slot < 0 then s
      else s.(writers := s.writers[id := Swapping(w.call, s.slot)])
    case Swap(id) =>
      var w := s.writers[id];
      if s.slot == w.cur
      then s.(slot := LOCKED, writers := s.writers[id := Pushing(w.call, w.cur, 0)], holder := Some(id))
      else s.(writers := s.writers[id := Loading(w.call)])
    case Push(id) =>
      var w := s.writers[id];
      var b := s.buffers[w.cur];
      if w.k < |w.call.infos|
      then s.(buffers := s.buffers[w.cur := b.(infos := b.infos + [w.call.infos[w.k]])],
              writers := s.writers[id := Pushing(w.call, w.cur, w.k + 1)])
      else s.(buffers := s.buffers[w.cur := b.(gens := b.gens + [w.call.hostGen])],
              writers := s.writers[id := Storing(w.call, w.cur)])
    case Store(id) =>
      var w := s.writers[id];
      s.(slot := w.cur, writers := s.writers[id := Returned(w.call)],
         holder := None, log := s.log + [Published(id, w.call)])
    case Begin => s.(collector := CollectorLoading)
    case CollectorLoad =>
      if s.slot < 0 then s else s.(collector := ClearingGens(s.slot))
    case ClearGens =>
      var next := Other(s.collector.cur);
      s.(buffers := s.buffers[next := s.buffers[next].(gens := [])],
         collector := ClearingInfos(s.collector.cur))
    case ClearInfos =>
      var next := Other(s.collector.cur);
      s.(buffers := s.buffers[next := s.buffers[next].(infos := [])],
         collector := CollectorSwapping(s.collector.cur))
    case CollectorSwap =>
      var cur := s.collector.cur;
      if s.slot == cur
      then s.(slot := Other(cur), collector := Reading(cur, EMPTY), active := Other(cur), cuts := s.cuts + [|s.log|])
      else s.(collector := CollectorLoading)
    case ReadNext =>
      var b := s.buffers[s.collector.cur];
      var got := s.collector.got;
      if |got.infos| < |b.infos|
      then s.(collector := s.collector.(got := got.(infos := got.infos + [b.infos[|got.infos|]])))
      else if |got.gens| < |b.gens|
      then s.(collector := s.collector.(got := got.(gens := got.gens + [b.gens[|got.gens|]])))
      else s.(collector := Collected(got))
  }

  // ---- Contents ----

  ghost function InfosOf(log: seq<Published>): seq<Info> {
    if log == [] then [] else InfosOf(log[..|log| - 1]) + log[|log| - 1].call.infos
  }

  ghost function GensOf(log: seq<Published>): (r: seq<HostGen>)
    ensures |r| == |log|
    ensures forall k :: 0 <= k < |r| ==> r[k] == log[k].call.hostGen
  {
    seq(|log|, k requires 0 <= k < |log| => log[k].call.hostGen)
  }

  /** Exactly these calls, whole and in order. */
  ghost function ContentOf(log: seq<Published>): Buffer {
    Buffer(GensOf(log), InfosOf(log))
  }

  lemma ContentSnoc(log: seq<Published>, p: Published)
    ensures InfosOf(log + [p]) == InfosOf(log) + p.call.infos
    ensures GensOf(log + [p]) == GensOf(log) + [p.call.hostGen]
  {
    TakeAppend(log, [p]);
  }

  ghost predicate Holds(w: Writer) {
    w.Pushing? || w.Storing?
  }

  // ---- The invariant ----

  ghost predicate CutsInv(cuts: seq<nat>, n: nat) {
    && cuts != [] && cuts[0] == 0
    && cuts[|cuts| - 1] <= n
    && forall j, k :: 0 <= j < k < |cuts| ==> cuts[j] <= cuts[k]
  }

  /** The calls published since the collector's last cut. */
  ghost function Live(log: seq<Published>, cuts: seq<nat>): seq<Published>
    requires CutsInv(cuts, |log|)
  {
    log[cuts[|cuts| - 1]..]
  }

  /** The calls between the collector's last two cuts. */
  ghost function LastTaken(log: seq<Published>, cuts: seq<nat>): seq<Published>
    requires CutsInv(cuts, |log|) && |cuts| > 1
  {
    log[cuts[|cuts| - 2]..cuts[|cuts| - 1]]
  }

  /** The slot names the active buffer, or is locked by the one writer that works on it. */
  ghost predicate LockInv(slot: int, active: nat, holder: Option<nat>, writers: map<nat, Writer>) {
    && active < 2
    && (forall id :: id in writers && writers[id].Swapping? ==> writers[id].cur >= 0)
    && (forall id :: id in writers && Holds(writers[id]) ==> holder == Some(id) && writers[id].cur == active)
    && match holder
       case None => slot == active
       case Some(h) => slot == LOCKED && h in writers && Holds(writers[h])
  }

  /** The active buffer holds the live calls, plus what the current holder has pushed so far. */
  ghost predicate ActiveInv(b: Buffer, holder: Option<nat>, writers: map<nat, Writer>, live: seq<Published>) {
    match holder
    case None => b == ContentOf(live)
    case Some(h) => h in writers && PartlyPushed(b, writers[h], live)
  }

  ghost predicate PartlyPushed(b: Buffer, w: Writer, live: seq<Published>) {
    match w
    case Pushing(call, _, k) =>
      k <= |call.infos| && b == Buffer(GensOf(live), InfosOf(live) + call.infos[..k])
    case Storing(call, _) =>
      b == Buffer(GensOf(live) + [call.hostGen], InfosOf(live) + call.infos)
    case _ => false
  }

  /** What the collector may rely on; idle is the buffer that is not active. */
  ghost predicate CollectorInv(c: Collector, active: nat, idle: Buffer, log: seq<Published>, cuts: seq<nat>)
    requires CutsInv(cuts, |log|)
  {
    match c
    case Resting => true
    case CollectorLoading => true
    case ClearingGens(cur) => cur == active
    case ClearingInfos(cur) => cur == active && idle.gens == []
    case CollectorSwapping(cur) => cur == active && idle == EMPTY
    case Reading(cur, got) =>
      && cur == Other(active) && |cuts| > 1
      && idle == ContentOf(LastTaken(log, cuts))
      && got.infos <= idle.infos && got.gens <= idle.gens
    case Collected(got) => |cuts| > 1 && got == ContentOf(LastTaken(log, cuts))
  }

  /** Every call that returned is in the log exactly once, and nothing else is. */
  ghost predicate LogInv(log: seq<Published>, writers: map<nat, Writer>) {
    && (forall j, k :: 0 <= j < k < |log| ==> log[j].id != log[k].id)
    && (forall k :: 0 <= k < |log| ==> log[k].id in writers && writers[log[k].id] == Returned(log[k].call))
    && (forall id :: id in writers && writers[id].Returned? ==> exists k :: 0 <= k < |log| && log[k].id == id)
  }

  ghost predicate Inv(s: Shard) {
    && |s.buffers| == 2
    && LockInv(s.slot, s.active, s.holder, s.writers)
    && CutsInv(s.cuts, |s.log|)
    && ActiveInv(s.buffers[s.active], s.holder, s.writers, Live(s.log, s.cuts))
    && CollectorInv(s.collector, s.active, s.buffers[Other(s.active)], s.log, s.cuts)
    && LogInv(s.log, s.writers)
  }

  lemma InitInv()
    ensures Inv(INIT)
  {
    assert Live(INIT.log, INIT.cuts) == [];
    assert ContentOf([]) == EMPTY;
  }

  // ---- Every step keeps the invariant ----

  lemma LogIgnores(log: seq<Published>, writers: map<nat, Writer>, id: nat, w: Writer)
    requires LogInv(log, writers) && (id in writers ==> !writers[id].Returned?) && !w.Returned?
    ensures LogInv(log, writers[id := w])
  {
  }

  lemma ArriveKeeps(s: Shard, id: nat, call: Call)
    requires Inv(s) && Enabled(s, Arrive(id, call))
    ensures Inv(Apply(s, Arrive(id, call)))
  {
    hide ContentOf, PartlyPushed, LogInv, CollectorInv, CutsInv;
    LogIgnores(s.log, s.writers, id, Loading(call));
  }

  lemma LoadKeeps(s: Shard, id: nat)
    requires Inv(s) && Enabled(s, Load(id))
    ensures Inv(Apply(s, Load(id)))
  {
    hide ContentOf, PartlyPushed, LogInv, CollectorInv, CutsInv;
    LogIgnores(s.log, s.writers, id, Swapping(s.writers[id].call, s.slot));
  }

  lemma SwapKeeps(s: Shard, id: nat)
    requires Inv(s) && Enabled(s, Swap(id))
    ensures Inv(Apply(s, Swap(id)))
  {
    hide GensOf, InfosOf, LogInv, CollectorInv, CutsInv;
    var w := s.writers[id];
    LogIgnores(s.log, s.writers, id, Loading(w.call));
    LogIgnores(s.log, s.writers, id, Pushing(w.call, w.cur, 0));
    assert InfosOf(Live(s.log, s.cuts)) + w.call.infos[..0] == InfosOf(Live(s.log, s.cuts));
  }

  lemma PushKeeps(s: Shard, id: nat)
    requires Inv(s) && Enabled(s, Push(id))
    ensures Inv(Apply(s, Push(id)))
  {
    hide PartlyPushed, ContentOf, LogInv, CollectorInv, CutsInv;
    var w := s.writers[id];
    assert s.holder == Some(id) && w.cur == s.active;
    if w.k < |w.call.infos| {
      LogIgnores(s.log, s.writers, id, Pushing(w.call, w.cur, w.k + 1));
    } else {
      LogIgnores(s.log, s.writers, id, Storing(w.call, w.cur));
    }
    PushAdvances(s.buffers[w.cur], w, Live(s.log, s.cuts));
  }

  lemma PushAdvances(b: Buffer, w: Writer, live: seq<Published>)
    requires w.Pushing? && PartlyPushed(b, w, live)
    ensures w.k < |w.call.infos| ==>
              PartlyPushed(b.(infos := b.infos + [w.call.infos[w.k]]), w.(k := w.k + 1), live)
    ensures w.k >= |w.call.infos| ==>
              PartlyPushed(b.(gens := b.gens + [w.call.hostGen]), Storing(w.call, w.cur), live)
  {
    hide InfosOf, GensOf;
    if w.k < |w.call.infos| {
      TakeSnoc(w.call.infos, w.k);
      Regroup(InfosOf(live), w.call.infos[..w.k], [w.call.infos[w.k]]);
    } else {
      assert w.call.infos[..w.k] == w.call.infos;
    }
  }

  lemma StoreKeeps(s: Shard, id: nat)
    requires Inv(s) && Enabled(s, Store(id))
    ensures Inv(Apply(s, Store(id)))
  {
    hide InfosOf, GensOf, LogInv, CollectorInv;
    var p := Published(id, s.writers[id].call);
    assert s.holder == Some(id);
    var log' := s.log + [p];
    assert Live(log', s.cuts) == Live(s.log, s.cuts) + [p];
    ContentSnoc(Live(s.log, s.cuts), p);
    LogGrows(s.log, s.writers, p);
    CollectorIgnoresLog(s.collector, s.active, s.buffers[Other(s.active)], s.log, s.cuts, p);
  }

  lemma CollectorIgnoresLog(c: Collector, active: nat, idle: Buffer, log: seq<Published>, cuts: seq<nat>, p: Published)
    requires CutsInv(cuts, |log|) && CollectorInv(c, active, idle, log, cuts)
    ensures CutsInv(cuts, |log + [p]|) && CollectorInv(c, active, idle, log + [p], cuts)
  {
    hide ContentOf;
    assert |cuts| > 1 ==> LastTaken(log + [p], cuts) == LastTaken(log, cuts);
  }

  lemma LogGrows(log: seq<Published>, writers: map<nat, Writer>, p: Published)
    requires LogInv(log, writers) && p.id in writers && !writers[p.id].Returned?
    ensures LogInv(log + [p], writers[p.id := Returned(p.call)])
  {
    var log' := log + [p];
    assert log'[|log|] == p;
    forall id | id in writers && writers[id].Returned? ensures exists k :: 0 <= k < |log'| && log'[k].id == id {
      var k :| 0 <= k < |log| && log[k].id == id;
      assert log'[k].id == id;
    }
  }

  lemma BeginKeeps(s: Shard)
    requires Inv(s) && (Enabled(s, Begin) || Enabled(s, CollectorLoad))
    ensures Enabled(s, Begin) ==> Inv(Apply(s, Begin))
    ensures Enabled(s, CollectorLoad) ==> Inv(Apply(s, CollectorLoad))
  {
    hide ActiveInv, LogInv, CutsInv, ContentOf;
  }

  lemma ClearKeeps(s: Shard)
    requires Inv(s) && (Enabled(s, ClearGens) || Enabled(s, ClearInfos))
    ensures Enabled(s, ClearGens) ==> Inv(Apply(s, ClearGens))
    ensures Enabled(s, ClearInfos) ==> Inv(Apply(s, ClearInfos))
  {
    hide ActiveInv, LogInv, CutsInv, ContentOf;
  }

  lemma CollectorSwapKeeps(s: Shard)
    requires Inv(s) && Enabled(s, CollectorSwap)
    ensures Inv(Apply(s, CollectorSwap))
  {
    hide ContentOf, LogInv;
    if s.slot == s.collector.cur {
      var cuts' := s.cuts + [|s.log|];
      assert Live(s.log, cuts') == [];
      assert LastTaken(s.log, cuts') == Live(s.log, s.cuts);
      EmptyContent();
    }
  }

  lemma EmptyContent()
    ensures ContentOf([]) == EMPTY
  {
  }

  lemma ReadNextKeeps(s: Shard)
    requires Inv(s) && Enabled(s, ReadNext)
    ensures Inv(Apply(s, ReadNext))
  {
    hide ActiveInv, LogInv, CutsInv, ContentOf;
  }

  lemma StepKeeps(s: Shard, a: Action)
    requires Inv(s) && Enabled(s, a)
    ensures Inv(Apply(s, a))
  {
    hide Inv, Enabled, Apply;
    match a
    case Arrive(id, call) => ArriveKeeps(s, id, call);
    case Load(id) => LoadKeeps(s, id);
    case Swap(id) => SwapKeeps(s, id);
    case Push(id) => PushKeeps(s, id);
    case Store(id) => StoreKeeps(s, id);
    case Begin => BeginKeeps(s);
    case CollectorLoad => BeginKeeps(s);
    case ClearGens => ClearKeeps(s);
    case ClearInfos => ClearKeeps(s);
    case CollectorSwap => CollectorSwapKeeps(s);
    case ReadNext => ReadNextKeeps(s);
  }
}
