/** The tasks of ComputeAndBroadcast as the lists of callbacks they make. */
module ControllerTasks {
  import opened Sequences
  import opened Selection
  import opened ChildStates
  import opened ControllerRuns

  // ---- Step 2: one task for each aggregate ----

  ghost function MarkActs(agg: nat, es: seq<HostPar>, isLopri: bool): seq<Act> {
    seq(|es|, k requires 0 <= k < |es| => Act(agg, es[k].par, Mark(isLopri)))
  }

  ghost function Pars(es: seq<HostPar>): seq<nat> {
    seq(|es|, k requires 0 <= k < |es| => es[k].par)
  }

  /** A callback for each generation whose host is registered: the same hosts in steps 2.3 and 4. */
  ghost function GenActs(agg: nat, host2par: seq<HostPar>, gens: seq<(nat, int)>, forget: bool): seq<Act> {
    if gens == [] then []
    else
      var k := |gens| - 1;
      var es := InRange(host2par, IdRange(gens[k].0, gens[k].0));
      GenActs(agg, host2par, gens[..k], forget) +
      if es == [] then [] else [Act(agg, es[0].par, if forget then Forget else Hear(gens[k].1))]
  }

  ghost function AggTask(agg: nat, host2par: seq<HostPar>, input: AggInput): seq<Act> {
    GenActs(agg, host2par, input.gens, false)
    + (MarkActs(agg, Selected(host2par, input.toDowngrade), true)
       + MarkActs(agg, Selected(host2par, input.toUpgrade), false))
  }

  /** par_ids_to_bcast[agg] */
  ghost function ToBroadcast(host2par: seq<HostPar>, input: AggInput): seq<nat> {
    Pars(Selected(host2par, input.toDowngrade)) + Pars(Selected(host2par, input.toUpgrade))
  }

  lemma GenActsSnoc(agg: nat, host2par: seq<HostPar>, gens: seq<(nat, int)>, k: nat, forget: bool)
    requires k < |gens|
    ensures var es := InRange(host2par, IdRange(gens[k].0, gens[k].0));
            GenActs(agg, host2par, gens[..k + 1], forget) == GenActs(agg, host2par, gens[..k], forget) +
            if es == [] then [] else [Act(agg, es[0].par, if forget then Forget else Hear(gens[k].1))]
  {
    TakeSnoc(gens, k);
    TakeAppend(gens[..k], [gens[k]]);
  }

  /** The lookups of step 2.3, or of step 4. */
  method GenLoop(agg: nat, host2par: seq<HostPar>, gens: seq<(nat, int)>, forget: bool) returns (acts: seq<Act>)
    requires Ordered(host2par)
    ensures acts == GenActs(agg, host2par, gens, forget)
  {
    hide InRange, GenActs;
    acts := [];
    GenActsOfNone(agg, host2par, gens, forget);
    for k := 0 to |gens|
      invariant acts == GenActs(agg, host2par, gens[..k], forget)
    {
      GenActsSnoc(agg, host2par, gens, k, forget);
      var i := LowerBound(host2par, gens[k].0);
      if i < |host2par| && host2par[i].host == gens[k].0 {
        InRangeSlice(host2par, IdRange(gens[k].0, gens[k].0), i, i + 1);
        acts := acts + [Act(agg, host2par[i].par, if forget then Forget else Hear(gens[k].1))];
      } else {
        InRangeSlice(host2par, IdRange(gens[k].0, gens[k].0), i, i);
      }
    }
    assert gens[..|gens|] == gens;
  }

  lemma GenActsOfNone(agg: nat, host2par: seq<HostPar>, gens: seq<(nat, int)>, forget: bool)
    ensures GenActs(agg, host2par, gens[..0], forget) == []
  {
  }

  method MarkLoop(agg: nat, es: seq<HostPar>, isLopri: bool) returns (acts: seq<Act>, pars: seq<nat>)
    ensures acts == MarkActs(agg, es, isLopri) && pars == Pars(es)
  {
    acts, pars := [], [];
    for k := 0 to |es|
      invariant acts == MarkActs(agg, es[..k], isLopri) && pars == Pars(es[..k])
    {
      pars := pars + [es[k].par];
      acts := acts + [Act(agg, es[k].par, Mark(isLopri))];
    }
    assert es[..|es|] == es;
  }

  /** Steps 2.3 and 2.4 for one aggregate: its callbacks and its entry of par_ids_to_bcast. */
  method UpdateChildren(agg: nat, host2par: seq<HostPar>, input: AggInput) returns (acts: seq<Act>, bcast: seq<nat>)
    requires Ordered(host2par)
    ensures acts == AggTask(agg, host2par, input) && bcast == ToBroadcast(host2par, input)
  {
    hide Selected, MarkActs, Pars, GenActs;
    var heard := GenLoop(agg, host2par, input.gens, false);
    var down := ForEachSelected(host2par, input.toDowngrade);
    var downActs, downPars := MarkLoop(agg, down, true);
    var up := ForEachSelected(host2par, input.toUpgrade);
    var upActs, upPars := MarkLoop(agg, up, false);
    acts, bcast := heard + (downActs + upActs), downPars + upPars;
  }

  // ---- Step 3: one task for each broadcast shard ----

  /** The entries of vec at the indices that are shard modulo num. */
  ghost function ShardOf(vec: seq<nat>, shard: nat, num: nat): seq<nat>
    requires num > 0
  {
    if vec == [] then []
    else
      var k := |vec| - 1;
      ShardOf(vec[..k], shard, num) + if k % num == shard then [vec[k]] else []
  }

  lemma ShardOfSnoc(vec: seq<nat>, k: nat, shard: nat, num: nat)
    requires num > 0 && k < |vec|
    ensures ShardOf(vec[..k + 1], shard, num) ==
            if k % num == shard then ShardOf(vec[..k], shard, num) + [vec[k]] else ShardOf(vec[..k], shard, num)
  {
    assert vec[..k + 1][..k] == vec[..k];
  }

  lemma {:induction false} ShardSkip(vec: seq<nat>, lo: nat, hi: nat, shard: nat, num: nat)
    requires num > 0 && lo <= hi <= |vec|
    requires forall k :: lo <= k < hi ==> k % num != shard
    ensures ShardOf(vec[..hi], shard, num) == ShardOf(vec[..lo], shard, num)
    decreases hi
  {
    if lo < hi {
      ShardSkip(vec, lo, hi - 1, shard, num);
      ShardOfSnoc(vec, hi - 1, shard, num);
    }
  }

  lemma ModOfBlock(i: nat, num: nat, k: nat)
    requires num > 0 && i * num <= k < i * num + num
    ensures k % num == k - i * num
  {
    DivModUnique(k, num, i, k - i * num);
  }

  lemma DivModUnique(a: nat, n: nat, q: nat, r: nat)
    requires r < n && a == q * n + r
    ensures a / n == q && a % n == r
  {
    assert a == a / n * n + a % n;
    assert (a / n - q) * n == a / n * n - q * n;
    MultipleIsLarge(a / n - q, n);
  }

  lemma MultipleIsLarge(d: int, n: nat)
    ensures d >= 1 ==> d * n >= n
    ensures d <= -1 ==> d * n + n <= 0
  {
  }

  function Min(x: nat, y: nat): nat {
    if x < y then x else y
  }

  /** One block of num indices holds at most one index of the shard. */
  lemma ShardBlock(vec: seq<nat>, i: nat, shard: nat, num: nat)
    requires shard < num
    ensures var j := shard + i * num;
            ShardOf(vec[..Min(i * num + num, |vec|)], shard, num) ==
            if j < |vec| then ShardOf(vec[..Min(i * num, |vec|)], shard, num) + [vec[j]]
            else ShardOf(vec[..Min(i * num, |vec|)], shard, num)
  {
    forall k | i * num <= k < i * num + num ensures k % num == k - i * num {
      ModOfBlock(i, num, k);
    }
    ShardBlockAt(vec, i * num, shard, num);
  }

  lemma ShardBlockAt(vec: seq<nat>, base: nat, shard: nat, num: nat)
    requires shard < num
    requires forall k :: base <= k < base + num ==> k % num == k - base
    ensures var j := shard + base;
            ShardOf(vec[..Min(base + num, |vec|)], shard, num) ==
            if j < |vec| then ShardOf(vec[..Min(base, |vec|)], shard, num) + [vec[j]]
            else ShardOf(vec[..Min(base, |vec|)], shard, num)
  {
    hide ShardOf;
    var from, to, j := Min(base, |vec|), Min(base + num, |vec|), shard + base;
    if j < |vec| {
      ShardSkip(vec, from, j, shard, num);
      ShardOfSnoc(vec, j, shard, num);
      ShardSkip(vec, j + 1, to, shard, num);
    } else {
      ShardSkip(vec, from, to, shard, num);
    }
  }

  lemma EnoughBlocks(len: nat, num: nat)
    requires num > 0
    ensures (len + num - 1) / num * num >= len
  {
    var q := (len + num - 1) / num;
    assert len + num - 1 == q * num + (len + num - 1) % num;
  }

  lemma PastTheEnd(i: nat, n: nat, num: nat, len: nat, shard: nat)
    requires i < n && num > 0 && shard < num && shard + i * num >= len
    ensures Min(i * num + num, len) == len
  {
  }

  lemma NextBlock(i: nat, num: nat)
    ensures (i + 1) * num == i * num + num
  {
  }

  /** The loop over one vector in a broadcast task. */
  method WalkShard(vec: seq<nat>, shard: nat, num: nat) returns (pars: seq<nat>)
    requires shard < num
    ensures pars == ShardOf(vec, shard, num)
  {
    hide ShardOf;
    pars := [];
    var n := (|vec| + num - 1) / num;
    var i := 0;
    ShardOfNone(vec, shard, num);
    assert vec[..|vec|] == vec;
    while i < n
      invariant 0 <= i <= n
      invariant pars == ShardOf(vec[..Min(i * num, |vec|)], shard, num)
    {
      var j := shard + i * num;
      ShardBlock(vec, i, shard, num);
      if j >= |vec| {
        PastTheEnd(i, n, num, |vec|, shard);
        return;
      }
      pars := pars + [vec[j]];
      NextBlock(i, num);
      i := i + 1;
    }
    EnoughBlocks(|vec|, num);
  }

  lemma ShardOfNone(vec: seq<nat>, shard: nat, num: nat)
    requires num > 0
    ensures ShardOf(vec[..Min(0 * num, |vec|)], shard, num) == []
  {
  }

  /** What the first m shards visit. */
  ghost function Visited(vec: seq<nat>, num: nat, m: nat): multiset<nat>
    requires num > 0
  {
    if m == 0 then multiset{} else Visited(vec, num, m - 1) + multiset(ShardOf(vec, m - 1, num))
  }

  ghost function OneIf(b: bool, p: nat): multiset<nat> {
    if b then multiset{p} else multiset{}
  }

  /** The shard that visits index k. */
  ghost function ShardAt(k: nat, num: nat): (shard: nat)
    requires num > 0
    ensures shard < num
  {
    k % num
  }

  lemma ShardMultiset(vec: seq<nat>, k: nat, shard: nat, num: nat)
    requires num > 0 && k < |vec|
    ensures multiset(ShardOf(vec[..k + 1], shard, num)) ==
            multiset(ShardOf(vec[..k], shard, num)) + OneIf(ShardAt(k, num) == shard, vec[k])
  {
    hide ShardOf;
    ShardOfSnoc(vec, k, shard, num);
  }

  lemma AddOne(x: multiset<nat>, y: multiset<nat>, a: bool, b: bool, p: nat)
    requires !(a && b)
    ensures (x + OneIf(a, p)) + (y + OneIf(b, p)) == (x + y) + OneIf(a || b, p)
  {
  }

  lemma VisitedOneMore(vec: seq<nat>, num: nat, m: nat)
    requires num > 0 && m > 0
    ensures Visited(vec, num, m) == Visited(vec, num, m - 1) + multiset(ShardOf(vec, m - 1, num))
  {
  }

  lemma {:induction false} VisitedSnoc(vec: seq<nat>, k: nat, num: nat, m: nat)
    requires num > 0 && k < |vec|
    ensures Visited(vec[..k + 1], num, m) == Visited(vec[..k], num, m) + OneIf(ShardAt(k, num) < m, vec[k])
  {
    hide ShardOf, ShardAt, OneIf, Visited;
    var less, more, shard := vec[..k], vec[..k + 1], ShardAt(k, num);
    if m == 0 {
      VisitedNone(less, more, num, vec[k]);
    } else {
      VisitedSnoc(vec, k, num, m - 1);
      VisitedOneMore(less, num, m);
      VisitedOneMore(more, num, m);
      ShardMultiset(vec, k, m - 1, num);
      AddOne(Visited(less, num, m - 1), multiset(ShardOf(less, m - 1, num)), shard < m - 1, shard == m - 1, vec[k]);
    }
  }

  lemma VisitedNone(less: seq<nat>, more: seq<nat>, num: nat, p: nat)
    requires num > 0
    ensures Visited(more, num, 0) == Visited(less, num, 0) + OneIf(false, p)
  {
  }

  lemma MultisetSnoc(vec: seq<nat>, k: nat)
    requires k < |vec|
    ensures multiset(vec[..k + 1]) == multiset(vec[..k]) + OneIf(true, vec[k])
  {
    TakeSnoc(vec, k);
  }

  /** Together the shards visit every index exactly once. */
  lemma {:induction false} ShardsVisitOnce(vec: seq<nat>, num: nat, n: nat)
    requires num > 0 && n <= |vec|
    ensures Visited(vec[..n], num, num) == multiset(vec[..n])
  {
    hide Visited, OneIf;
    if n == 0 {
      NothingToVisit(vec, num, num);
    } else {
      ShardsVisitOnce(vec, num, n - 1);
      VisitedSnoc(vec, n - 1, num, num);
      MultisetSnoc(vec, n - 1);
    }
  }

  lemma {:induction false} NothingToVisit(vec: seq<nat>, num: nat, m: nat)
    requires num > 0
    ensures Visited(vec[..0], num, m) == multiset{}
  {
    if m > 0 {
      NothingToVisit(vec, num, m - 1);
    }
  }

  lemma {:induction false} ShardOfHolds(vec: seq<nat>, n: nat, shard: nat, num: nat, p: nat)
    requires num > 0 && n <= |vec|
    ensures p in ShardOf(vec[..n], shard, num) <==> exists j :: 0 <= j < n && vec[j] == p && j % num == shard
  {
    if n > 0 {
      ShardOfHolds(vec, n - 1, shard, num, p);
      ShardOfSnoc(vec, n - 1, shard, num);
    }
  }

  ghost function TellActs(shard: nat, pars: seq<nat>): seq<Act> {
    seq(|pars|, k requires 0 <= k < |pars| => Act(shard, pars[k], Tell))
  }

  ghost function ShardTask(shard: nat, num: nat, bcasts: seq<seq<nat>>): seq<Act>
    requires num > 0
  {
    if bcasts == [] then []
    else
      var k := |bcasts| - 1;
      ShardTask(shard, num, bcasts[..k]) + TellActs(shard, ShardOf(bcasts[k], shard, num))
  }

  /** The task of one broadcast shard. */
  method BroadcastShard(shard: nat, num: nat, bcasts: seq<seq<nat>>) returns (acts: seq<Act>)
    requires shard < num
    ensures acts == ShardTask(shard, num, bcasts)
  {
    hide ShardOf;
    acts := [];
    for v := 0 to |bcasts|
      invariant acts == ShardTask(shard, num, bcasts[..v])
    {
      var pars := WalkShard(bcasts[v], shard, num);
      var told: seq<Act> := [];
      for k := 0 to |pars|
        invariant told == TellActs(shard, pars[..k])
      {
        told := told + [Act(shard, pars[k], Tell)];
      }
      assert pars[..|pars|] == pars;
      assert bcasts[..v + 1][..v] == bcasts[..v];
      acts := acts + told;
    }
    assert bcasts[..|bcasts|] == bcasts;
  }

  /** A par id is visited by the shards exactly when some aggregate listed it. */
  lemma {:induction false} ShardTaskHolds(shard: nat, num: nat, bcasts: seq<seq<nat>>, n: nat, p: nat)
    requires num > 0 && n <= |bcasts|
    ensures Act(shard, p, Tell) in ShardTask(shard, num, bcasts[..n]) <==>
            exists v, j :: 0 <= v < n && 0 <= j < |bcasts[v]| && bcasts[v][j] == p && j % num == shard
  {
    if n > 0 {
      hide ShardOf;
      var v := n - 1;
      ShardTaskHolds(shard, num, bcasts, v, p);
      ShardOfHolds(bcasts[v], |bcasts[v]|, shard, num, p);
      assert bcasts[v][..|bcasts[v]|] == bcasts[v];
      assert bcasts[..n][..v] == bcasts[..v];
      TellActsHold(shard, ShardOf(bcasts[v], shard, num), p);
    }
  }

  lemma TellActsHold(shard: nat, pars: seq<nat>, p: nat)
    ensures Act(shard, p, Tell) in TellActs(shard, pars) <==> p in pars
  {
    if p in pars {
      var k :| 0 <= k < |pars| && pars[k] == p;
      assert TellActs(shard, pars)[k] == Act(shard, p, Tell);
    }
  }
}
