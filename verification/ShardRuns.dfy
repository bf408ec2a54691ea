/**
 All eight shards together, over whole runs: UpdateInfo calls arrive at the shard of their host,
 and CollectSnapshot runs one collector per shard and waits for all of them.
 */
module ShardRuns {
  import opened Sequences
  import opened ShardProtocol

  const NUM_SHARDS := 8

  datatype World = World(shards: seq<Shard>, snapshots: seq<seq<Buffer>>)

  datatype WorldAction =
    | OnShard(i: nat, a: Action)
    | BeginCollect
    | EndCollect

  ghost function WorldInit(): World {
    World(seq(NUM_SHARDS, _ => INIT), [])
  }

  ghost predicate WorldEnabled(s: World, x: WorldAction) {
    match x
    case OnShard(i, a) =>
      && i < |s.shards| && a != Begin && Enabled(s.shards[i], a)
      && (a.Arrive? ==> a.call.hostGen.hostId % NUM_SHARDS == i)
    case BeginCollect =>
      forall i :: 0 <= i < |s.shards| ==> s.shards[i].collector.Resting? && Enabled(s.shards[i], Begin)
    case EndCollect =>
      forall i :: 0 <= i < |s.shards| ==> s.shards[i].collector.Collected?
  }

  ghost function WorldApply(s: World, x: WorldAction): World
    requires WorldEnabled(s, x)
  {
    match x
    case OnShard(i, a) => s.(shards := s.shards[i := Apply(s.shards[i], a)])
    case BeginCollect =>
      s.(shards := seq(|s.shards|, i requires 0 <= i < |s.shards| && Enabled(s.shards[i], Begin) => Apply(s.shards[i], Begin)))
    case EndCollect =>
      World(seq(|s.shards|, i requires 0 <= i < |s.shards| => s.shards[i].(collector := Resting)),
             s.snapshots + [Gathered(s)])
  }

  ghost function Gathered(s: World): (r: seq<Buffer>)
    requires forall i :: 0 <= i < |s.shards| ==> s.shards[i].collector.Collected?
    ensures |r| == |s.shards| && forall i :: 0 <= i < |r| ==> r[i] == s.shards[i].collector.got
  {
    seq(|s.shards|, i requires 0 <= i < |s.shards| && s.shards[i].collector.Collected? => s.shards[i].collector.got)
  }

  ghost predicate Cutting(c: Collector) {
    c.Reading? || c.Collected?
  }

  /** Shard s has been collected n times; the n-th snapshot is what lies between two of its cuts. */
  ghost predicate ShardInv(s: Shard, i: nat, n: nat, snapshots: seq<seq<Buffer>>) {
    && Inv(s)
    && |s.cuts| == n + 1 + (if Cutting(s.collector) then 1 else 0)
    && n == |snapshots|
    && (forall k :: 0 <= k < n ==> i < |snapshots[k]| && snapshots[k][i] == Segment(s, k))
    && (forall id :: id in s.writers ==> s.writers[id].call.hostGen.hostId % NUM_SHARDS == i)
  }

  /** The calls between cuts k and k + 1, whole and in order. */
  ghost function Segment(s: Shard, k: nat): Buffer
    requires CutsInv(s.cuts, |s.log|) && k + 1 < |s.cuts|
  {
    ContentOf(s.log[s.cuts[k]..s.cuts[k + 1]])
  }

  ghost predicate WorldInv(s: World) {
    && |s.shards| == NUM_SHARDS
    && (forall k :: 0 <= k < |s.snapshots| ==> |s.snapshots[k]| == NUM_SHARDS)
    && (forall i :: 0 <= i < |s.shards| ==> ShardInv(s.shards[i], i, |s.snapshots|, s.snapshots))
  }

  /** A step keeps the earlier cuts and the calls before them, so earlier snapshots stay right. */
  lemma StepKeepsSegments(s: Shard, a: Action)
    requires Inv(s) && Enabled(s, a) && a != Begin
    ensures var s' := Apply(s, a);
            && s.cuts <= s'.cuts && s.log <= s'.log
            && |s'.cuts| - |s.cuts| == (if Cutting(s'.collector) then 1 else 0) - (if Cutting(s.collector) then 1 else 0)
  {
    hide LockInv, ActiveInv, CollectorInv, LogInv, CutsInv, ContentOf;
  }

  lemma StepKeepsRoutes(s: Shard, i: nat, a: Action)
    requires Enabled(s, a)
    requires forall id :: id in s.writers ==> s.writers[id].call.hostGen.hostId % NUM_SHARDS == i
    requires a.Arrive? ==> a.call.hostGen.hostId % NUM_SHARDS == i
    ensures forall id :: id in Apply(s, a).writers ==> Apply(s, a).writers[id].call.hostGen.hostId % NUM_SHARDS == i
  {
  }

  lemma ShardStep(s: Shard, i: nat, n: nat, snapshots: seq<seq<Buffer>>, a: Action)
    requires ShardInv(s, i, n, snapshots) && Enabled(s, a) && a != Begin
    requires a.Arrive? ==> a.call.hostGen.hostId % NUM_SHARDS == i
    ensures ShardInv(Apply(s, a), i, n, snapshots)
  {
    hide Apply, Enabled, ContentOf, LockInv, ActiveInv, CollectorInv, LogInv;
    StepKeeps(s, a);
    StepKeepsSegments(s, a);
    StepKeepsRoutes(s, i, a);
    var s' := Apply(s, a);
    forall k | 0 <= k < n ensures Segment(s', k) == Segment(s, k) {
      assert s'.cuts[k] == s.cuts[k] && s'.cuts[k + 1] == s.cuts[k + 1];
      assert s'.log[s.cuts[k]..s.cuts[k + 1]] == s.log[s.cuts[k]..s.cuts[k + 1]];
    }
  }

  lemma ShardBegin(s: Shard, i: nat, n: nat, snapshots: seq<seq<Buffer>>)
    requires ShardInv(s, i, n, snapshots) && s.collector.Resting? && Enabled(s, Begin)
    ensures ShardInv(Apply(s, Begin), i, n, snapshots)
  {
    hide ContentOf, LockInv, ActiveInv, LogInv;
    BeginKeeps(s);
  }

  lemma ShardEnd(s: Shard, i: nat, n: nat, snapshots: seq<seq<Buffer>>, parts: seq<Buffer>)
    requires ShardInv(s, i, n, snapshots) && s.collector.Collected?
    requires i < |parts| && parts[i] == s.collector.got
    ensures ShardInv(s.(collector := Resting), i, n + 1, snapshots + [parts])
  {
    hide ContentOf, LockInv, ActiveInv, LogInv;
    var snapshots' := snapshots + [parts];
    forall k | 0 <= k < n + 1 ensures snapshots'[k] == if k < n then snapshots[k] else parts {
    }
  }

  lemma WorldStepKeeps(s: World, x: WorldAction)
    requires WorldInv(s) && WorldEnabled(s, x)
    ensures WorldInv(WorldApply(s, x))
  {
    hide ShardInv, Apply, Enabled;
    match x {
      case OnShard(i, a) =>
        ShardStep(s.shards[i], i, |s.snapshots|, s.snapshots, a);
      case BeginCollect =>
        forall i | 0 <= i < |s.shards| ensures ShardInv(Apply(s.shards[i], Begin), i, |s.snapshots|, s.snapshots) {
          ShardBegin(s.shards[i], i, |s.snapshots|, s.snapshots);
        }
      case EndCollect =>
        forall i | 0 <= i < |s.shards|
          ensures ShardInv(s.shards[i].(collector := Resting), i, |s.snapshots| + 1, s.snapshots + [Gathered(s)])
        {
          ShardEnd(s.shards[i], i, |s.snapshots|, s.snapshots, Gathered(s));
        }
    }
  }

  /** A run: from the constructor's state, one enabled step after another, in any interleaving. */
  ghost predicate IsRun(states: seq<World>, actions: seq<WorldAction>) {
    && |states| == |actions| + 1
    && states[0] == WorldInit()
    && forall k :: 0 <= k < |actions| ==>
         WorldEnabled(states[k], actions[k]) && states[k + 1] == WorldApply(states[k], actions[k])
  }

  lemma {:induction false} RunKeeps(states: seq<World>, actions: seq<WorldAction>, k: nat)
    requires IsRun(states, actions) && k < |states|
    ensures WorldInv(states[k])
  {
    hide WorldEnabled, WorldApply;
    if k == 0 {
      InitInv();
      assert WorldInv(WorldInit());
    } else {
      RunKeeps(states, actions, k - 1);
      WorldStepKeeps(states[k - 1], actions[k - 1]);
    }
  }

  // ---- What the invariant means ----

  /** The buffer a holder may push into. */
  ghost predicate WriterUses(s: Shard, id: nat, b: int) {
    id in s.writers && Holds(s.writers[id]) && s.writers[id].cur == b
  }

  /** The buffer the collector is clearing or reading. */
  ghost predicate CollectorUses(s: Shard, b: int) {
    match s.collector
    case ClearingGens(cur) => b == Other(cur)
    case ClearingInfos(cur) => b == Other(cur)
    case Reading(cur, _) => b == cur
    case _ => false
  }

  /** In no reachable state do two threads use the same buffer. */
  lemma NoTwoThreadsShareABuffer(states: seq<World>, actions: seq<WorldAction>, k: nat, i: nat)
    requires IsRun(states, actions) && k < |states| && i < NUM_SHARDS
    ensures |states[k].shards| == NUM_SHARDS
    ensures forall id, b :: WriterUses(states[k].shards[i], id, b) ==> !CollectorUses(states[k].shards[i], b)
    ensures forall id, id', b, b' ::
              WriterUses(states[k].shards[i], id, b) && WriterUses(states[k].shards[i], id', b') ==> id == id'
  {
    hide IsRun, ActiveInv, LogInv, ContentOf, Segment;
    RunKeeps(states, actions, k);
    assert ShardInv(states[k].shards[i], i, |states[k].snapshots|, states[k].snapshots);
  }

  lemma {:induction false} InfosAppend(a: seq<Published>, b: seq<Published>)
    ensures InfosOf(a + b) == InfosOf(a) + InfosOf(b)
  {
    if b == [] {
      assert a + b == a;
    } else {
      var c, p := b[..|b| - 1], b[|b| - 1];
      SplitLast(b);
      Regroup(a, c, [p]);
      InfosAppend(a, c);
      ContentSnoc(a + c, p);
      ContentSnoc(c, p);
      Regroup(InfosOf(a), InfosOf(c), p.call.infos);
    }
  }

  /** Everything the first n snapshots saw of shard i, in order. */
  ghost function Seen(snapshots: seq<seq<Buffer>>, i: nat, n: nat): seq<Info>
    requires n <= |snapshots| && forall k :: 0 <= k < |snapshots| ==> i < |snapshots[k]|
  {
    if n == 0 then [] else Seen(snapshots, i, n - 1) + snapshots[n - 1][i].infos
  }

  lemma {:induction false} SeenIsLogPrefix(s: Shard, i: nat, snapshots: seq<seq<Buffer>>, n: nat)
    requires ShardInv(s, i, |snapshots|, snapshots) && n <= |snapshots|
    requires forall k :: 0 <= k < |snapshots| ==> i < |snapshots[k]|
    ensures Seen(snapshots, i, n) == InfosOf(s.log[..s.cuts[n]])
  {
    hide LockInv, ActiveInv, CollectorInv, LogInv, InfosOf;
    if n == 0 {
      assert s.log[..s.cuts[0]] == [];
      NoInfos();
    } else {
      SeenIsLogPrefix(s, i, snapshots, n - 1);
      var a, b := s.cuts[n - 1], s.cuts[n];
      InfosAppend(s.log[..a], s.log[a..b]);
      assert s.log[..b] == s.log[..a] + s.log[a..b];
    }
  }

  lemma NoInfos()
    ensures InfosOf([]) == []
  {
  }

  /** Infos cut off by the collector but not yet part of a finished snapshot. */
  ghost function InTransit(s: Shard): seq<Info>
    requires Inv(s)
  {
    if Cutting(s.collector) then InfosOf(LastTaken(s.log, s.cuts)) else []
  }

  /**
   None lost, none duplicated, none reordered: in every reachable state, the infos of the
   published calls of a shard are those already seen in snapshots, then those the collector is
   reading, then those in the active buffer.
   */
  lemma PublishedIsSeenPlusActive(states: seq<World>, actions: seq<WorldAction>, k: nat, i: nat)
    requires IsRun(states, actions) && k < |states| && i < NUM_SHARDS
    ensures var s := states[k];
            && WorldInv(s) && Inv(s.shards[i])
            && InfosOf(s.shards[i].log) ==
               Seen(s.snapshots, i, |s.snapshots|) + InTransit(s.shards[i]) + InfosOf(Live(s.shards[i].log, s.shards[i].cuts))
            && (s.shards[i].holder.None? ==>
                  s.shards[i].buffers[s.shards[i].active] == ContentOf(Live(s.shards[i].log, s.shards[i].cuts)))
  {
    hide IsRun, LogInv, LockInv, InfosOf;
    RunKeeps(states, actions, k);
    var s := states[k];
    var x, n := s.shards[i], |s.snapshots|;
    assert ShardInv(x, i, n, s.snapshots);
    SeenIsLogPrefix(x, i, s.snapshots, n);
    var a, b := x.cuts[n], x.cuts[|x.cuts| - 1];
    assert x.log == x.log[..a] + x.log[a..b] + x.log[b..];
    InfosAppend(x.log[..a] + x.log[a..b], x.log[b..]);
    InfosAppend(x.log[..a], x.log[a..b]);
    if !Cutting(x.collector) {
      assert x.log[a..b] == [];
      NoInfos();
    }
  }

  /**
   Each snapshot holds whole calls only, and every call that has returned is published exactly
   once: it is in one snapshot or in the active buffer, never split and never twice.
   */
  lemma SnapshotsHoldWholeCalls(states: seq<World>, actions: seq<WorldAction>, k: nat, i: nat, n: nat)
    requires IsRun(states, actions) && k < |states| && i < NUM_SHARDS && n < |states[k].snapshots|
    ensures var s := states[k];
            && WorldInv(s) && Inv(s.shards[i]) && n + 1 < |s.shards[i].cuts|
            && s.snapshots[n][i] == ContentOf(s.shards[i].log[s.shards[i].cuts[n]..s.shards[i].cuts[n + 1]])
            && LogInv(s.shards[i].log, s.shards[i].writers)
  {
    hide IsRun, LogInv, LockInv, ActiveInv, CollectorInv, ContentOf;
    RunKeeps(states, actions, k);
    assert ShardInv(states[k].shards[i], i, |states[k].snapshots|, states[k].snapshots);
  }

  // ---- A snapshot sees everything published before it began ----

  /** Once shard s is being cut for snapshot n, or later, that cut lies at or after position m of the log. */
  ghost predicate CutAfter(s: Shard, n: nat, m: nat) {
    m <= |s.log| && (|s.cuts| > n + 1 ==> s.cuts[n + 1] >= m)
  }

  lemma StepKeepsCutAfter(s: Shard, a: Action, n: nat, m: nat)
    requires Enabled(s, a) && CutAfter(s, n, m)
    ensures CutAfter(Apply(s, a), n, m)
  {
  }

  lemma WorldKeepsCutAfter(s: World, x: WorldAction, i: nat, n: nat, m: nat)
    requires WorldEnabled(s, x) && i < |s.shards| && CutAfter(s.shards[i], n, m)
    ensures |WorldApply(s, x).shards| == |s.shards| && CutAfter(WorldApply(s, x).shards[i], n, m)
  {
    hide Apply, Enabled, CutAfter;
    match x {
      case OnShard(j, a) => if j == i { StepKeepsCutAfter(s.shards[i], a, n, m); }
      case BeginCollect => StepKeepsCutAfter(s.shards[i], Begin, n, m);
      case EndCollect => RestKeepsCutAfter(s.shards[i], n, m);
    }
  }

  lemma RestKeepsCutAfter(s: Shard, n: nat, m: nat)
    requires CutAfter(s, n, m)
    ensures CutAfter(s.(collector := Resting), n, m)
  {
  }

  lemma {:induction false} RunKeepsCutAfter(
    states: seq<World>, actions: seq<WorldAction>, j: nat, k: nat, i: nat, n: nat, m: nat)
    requires IsRun(states, actions) && j <= k < |states|
    requires i < |states[j].shards| && CutAfter(states[j].shards[i], n, m)
    ensures i < |states[k].shards| && CutAfter(states[k].shards[i], n, m)
    decreases k - j
  {
    hide WorldEnabled, WorldApply, CutAfter;
    if j < k {
      WorldKeepsCutAfter(states[j], actions[j], i, n, m);
      RunKeepsCutAfter(states, actions, j + 1, k, i, n, m);
    }
  }

  /**
   Every call published by the time CollectSnapshot starts is in the snapshot it returns, or in
   an earlier one: the cut that closes snapshot n lies at or behind it in the log.
   */
  lemma SnapshotSeesEarlierCalls(states: seq<World>, actions: seq<WorldAction>, j: nat, k: nat, i: nat)
    requires IsRun(states, actions) && j <= k < |states| && j < |actions| && actions[j].BeginCollect?
    requires i < NUM_SHARDS
    ensures var n := |states[j].snapshots|;
            && WorldInv(states[j]) && WorldInv(states[k])
            && |states[j].shards[i].log| <= |states[k].shards[i].log|
            && (n < |states[k].snapshots| ==>
                  n + 1 < |states[k].shards[i].cuts| && |states[j].shards[i].log| <= states[k].shards[i].cuts[n + 1])
  {
    hide LogInv, LockInv, ActiveInv, CollectorInv, ContentOf, WorldApply, Segment;
    RunKeeps(states, actions, j);
    RunKeeps(states, actions, k);
    var n := |states[j].snapshots|;
    assert WorldEnabled(states[j], actions[j]);
    assert ShardInv(states[j].shards[i], i, n, states[j].snapshots);
    assert ShardInv(states[k].shards[i], i, |states[k].snapshots|, states[k].snapshots);
    RunKeepsCutAfter(states, actions, j, k, i, n, |states[j].shards[i].log|);
  }
}
