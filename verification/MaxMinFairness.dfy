/**
 The two solvers of SingleLinkMaxMinFairnessProblem, by a full sort and by partial sorts, with and
 without the shortcut for tiny demands. All of them find the same water level.
 */
module MaxMinFairness {
  import opened Sequences
  import opened WaterLevels

  // ---- Moving demands around ----

  ghost predicate Unmoved(a: seq<int>, b: seq<int>, lo: nat, hi: nat)
    requires lo <= hi <= |a| == |b|
  {
    && (forall i :: 0 <= i < lo ==> b[i] == a[i])
    && (forall i :: hi <= i < |a| ==> b[i] == a[i])
    && multiset(b[lo..hi]) == multiset(a[lo..hi])
  }

  lemma SwapIsUnmoved(a: seq<int>, i: nat, j: nat, lo: nat, hi: nat)
    requires lo <= i < hi <= |a| && lo <= j < hi
    ensures Unmoved(a, a[i := a[j]][j := a[i]], lo, hi)
  {
    var b := a[i := a[j]][j := a[i]];
    var s := a[lo..hi];
    assert b[lo..hi] == s[i - lo := s[j - lo]][j - lo := s[i - lo]];
  }

  lemma UnmovedIsTransitive(a: seq<int>, b: seq<int>, c: seq<int>, lo: nat, hi: nat)
    requires lo <= hi <= |a| == |b| == |c| && Unmoved(a, b, lo, hi) && Unmoved(b, c, lo, hi)
    ensures Unmoved(a, c, lo, hi)
  {
  }

  /** What was moved was moved within the range. */
  lemma MovedFrom(a: seq<int>, b: seq<int>, lo: nat, hi: nat, i: nat) returns (j: nat)
    requires lo <= hi <= |a| == |b| && Unmoved(a, b, lo, hi) && lo <= i < hi
    ensures lo <= j < hi && a[j] == b[i]
  {
    assert b[lo..hi][i - lo] in multiset(b[lo..hi]);
    assert b[i] in multiset(a[lo..hi]);
    assert b[i] in a[lo..hi];
    var k :| 0 <= k < |a[lo..hi]| && a[lo..hi][k] == b[i];
    j := lo + k;
  }

  lemma UnmovedIsPermuted(a: seq<int>, b: seq<int>, lo: nat, hi: nat)
    requires lo <= hi <= |a| == |b| && Unmoved(a, b, lo, hi)
    ensures multiset(a) == multiset(b)
  {
    ThreeParts(a, lo, hi);
    ThreeParts(b, lo, hi);
    assert a[..lo] == b[..lo] && a[hi..] == b[hi..];
  }

  lemma ThreeParts(a: seq<int>, lo: nat, hi: nat)
    requires lo <= hi <= |a|
    ensures multiset(a) == multiset(a[..lo]) + multiset(a[lo..hi]) + multiset(a[hi..])
  {
    assert a == (a[..lo] + a[lo..hi]) + a[hi..];
  }

  /** The first elements of the range are in order and nothing after them is smaller. */
  ghost predicate Placed(a: seq<int>, lo: nat, upto: nat, hi: nat) {
    && lo <= upto <= hi <= |a|
    && forall i, j :: lo <= i < upto && i <= j < hi ==> a[i] <= a[j]
  }

  method MinIndex(a: array<int>, lo: nat, hi: nat) returns (m: nat)
    requires lo < hi <= a.Length
    ensures lo <= m < hi && forall j :: lo <= j < hi ==> a[m] <= a[j]
  {
    m := lo;
    for k := lo + 1 to hi
      invariant lo <= m < hi && forall j :: lo <= j < k ==> a[m] <= a[j]
    {
      if a[k] < a[m] {
        m := k;
      }
    }
  }

  lemma PlaceNext(a: seq<int>, lo: nat, k: nat, hi: nat, m: nat)
    requires Placed(a, lo, k, hi) && k <= m < hi && forall j :: k <= j < hi ==> a[m] <= a[j]
    ensures Placed(a[k := a[m]][m := a[k]], lo, k + 1, hi)
  {
  }

  lemma SelectStep(orig: seq<int>, a: seq<int>, lo: nat, k: nat, hi: nat, m: nat)
    requires lo <= k <= m < hi <= |orig| == |a| && Unmoved(orig, a, lo, hi) && Placed(a, lo, k, hi)
    requires forall j :: k <= j < hi ==> a[m] <= a[j]
    ensures var b := a[k := a[m]][m := a[k]];
            Unmoved(orig, b, lo, hi) && Placed(b, lo, k + 1, hi)
  {
    hide Unmoved, Placed;
    SwapIsUnmoved(a, k, m, lo, hi);
    PlaceNext(a, lo, k, hi, m);
    UnmovedIsTransitive(orig, a, a[k := a[m]][m := a[k]], lo, hi);
  }

  method Swap(a: array<int>, k: nat, m: nat)
    requires k < a.Length && m < a.Length
    modifies a
    ensures a[..] == old(a[..])[k := old(a[m])][m := old(a[k])]
  {
    a[k], a[m] := a[m], a[k];
  }

  /** What the library's sort promises. */
  method Sort(a: array<int>)
    modifies a
    ensures Unmoved(old(a[..]), a[..], 0, a.Length) && Placed(a[..], 0, a.Length, a.Length)
  {
    hide Unmoved, Placed;
    SelectStarts(a[..], 0, a.Length);
    for k := 0 to a.Length
      invariant Unmoved(old(a[..]), a[..], 0, a.Length) && Placed(a[..], 0, k, a.Length)
    {
      var m := MinIndex(a, k, a.Length);
      ghost var was := a[..];
      SelectStep(old(a[..]), was, 0, k, a.Length, m);
      Swap(a, k, m);
    }
  }

  lemma SelectStarts(a: seq<int>, lo: nat, hi: nat)
    requires lo <= hi <= |a|
    ensures Unmoved(a, a, lo, hi) && Placed(a, lo, lo, hi)
  {
  }

  // ---- NthElement ----

  /** Nothing from first to p is above the p-th element, nothing after it is below. */
  ghost predicate Parted(a: seq<int>, first: nat, p: nat, last: nat) {
    && first <= p < last <= |a|
    && (forall i :: first <= i < p ==> a[i] <= a[p])
    && (forall j :: p < j < last ==> a[p] <= a[j])
  }

  /** The partition loop, before its last swap: below the pivot, then not below it. */
  ghost predicate Parting(a: seq<int>, first: nat, i: nat, j: nat, last: nat) {
    && first <= i <= j < last <= |a|
    && (forall k :: first <= k < i ==> a[k] <= a[last - 1])
    && (forall k :: i <= k < j ==> a[k] >= a[last - 1])
  }

  lemma PartStep(a: seq<int>, first: nat, i: nat, j: nat, last: nat)
    requires Parting(a, first, i, j, last) && j < last - 1
    ensures a[j] >= a[last - 1] ==> Parting(a, first, i, j + 1, last)
    ensures a[j] <= a[last - 1] ==> Parting(a[i := a[j]][j := a[i]], first, i + 1, j + 1, last)
  {
  }

  lemma PartEnds(a: seq<int>, first: nat, i: nat, last: nat)
    requires last > 0 && Parting(a, first, i, last - 1, last)
    ensures Parted(a[i := a[last - 1]][last - 1 := a[i]], first, i, last)
  {
  }

  lemma PartSwap(orig: seq<int>, a: seq<int>, first: nat, last: nat, i: nat, j: nat)
    requires first <= i < last <= |orig| == |a| && first <= j < last && Unmoved(orig, a, first, last)
    ensures Unmoved(orig, a[i := a[j]][j := a[i]], first, last)
  {
    hide Unmoved;
    SwapIsUnmoved(a, i, j, first, last);
    UnmovedIsTransitive(orig, a, a[i := a[j]][j := a[i]], first, last);
  }

  /** Parts a range around the pivot at its end. */
  method Partition(a: array<int>, first: nat, last: nat) returns (p: nat)
    requires first < last <= a.Length
    modifies a
    ensures Unmoved(old(a[..]), a[..], first, last) && Parted(a[..], first, p, last)
  {
    hide Unmoved, Parting, Parted;
    p := first;
    PartStarts(a[..], first, last);
    for j := first to last - 1
      invariant first <= p <= j
      invariant Unmoved(old(a[..]), a[..], first, last) && Parting(a[..], first, p, j, last)
    {
      PartStep(a[..], first, p, j, last);
      if a[j] < a[last - 1] {
        PartSwap(old(a[..]), a[..], first, last, p, j);
        Swap(a, p, j);
        p := p + 1;
      }
    }
    PartEnds(a[..], first, p, last);
    PartSwap(old(a[..]), a[..], first, last, p, last - 1);
    Swap(a, p, last - 1);
  }

  lemma PartStarts(a: seq<int>, first: nat, last: nat)
    requires first < last <= |a|
    ensures Unmoved(a, a, first, last) && Parting(a, first, first, first, last)
  {
  }

  /** What still has to be searched is not below what lies before it, nor above what lies after it. */
  ghost predicate Fenced(a: seq<int>, lo: nat, first: nat, last: nat, hi: nat) {
    && lo <= first <= last <= hi <= |a|
    && (forall i, j :: lo <= i < first <= j < hi ==> a[i] <= a[j])
    && (forall i, j :: lo <= i < last <= j < hi ==> a[i] <= a[j])
  }

  lemma FencedIsMoved(a: seq<int>, b: seq<int>, lo: nat, first: nat, last: nat, hi: nat)
    requires Fenced(a, lo, first, last, hi) && |b| == |a| && Unmoved(a, b, first, last)
    ensures Fenced(b, lo, first, last, hi)
  {
    forall i, j | lo <= i < first <= j < hi ensures b[i] <= b[j] {
      if j < last {
        var k := MovedFrom(a, b, first, last, j);
      }
    }
    forall i, j | lo <= i < last <= j < hi ensures b[i] <= b[j] {
      if first <= i {
        var k := MovedFrom(a, b, first, last, i);
      }
    }
  }

  lemma UnmovedWithin(a: seq<int>, b: seq<int>, lo: nat, first: nat, last: nat, hi: nat)
    requires lo <= first <= last <= hi <= |a| == |b| && Unmoved(a, b, first, last)
    ensures Unmoved(a, b, lo, hi)
  {
    assert a[lo..hi] == (a[lo..first] + a[first..last]) + a[last..hi];
    assert b[lo..hi] == (b[lo..first] + b[first..last]) + b[last..hi];
    assert a[lo..first] == b[lo..first] && a[last..hi] == b[last..hi];
  }

  /** The search goes on to the right of the pivot, to its left, or ends at it. */
  lemma SearchOn(a: seq<int>, lo: nat, first: nat, p: nat, last: nat, hi: nat)
    requires Fenced(a, lo, first, last, hi) && Parted(a, first, p, last)
    ensures Fenced(a, lo, p + 1, last, hi) && Fenced(a, lo, first, p, hi) && Parted(a, lo, p, hi)
  {
    forall i | lo <= i < p ensures a[i] <= a[p] {
    }
    forall j | p < j < hi ensures a[p] <= a[j] {
    }
    forall i, j | lo <= i < p <= j < hi ensures a[i] <= a[j] {
      assert a[i] <= a[p] && (j > p ==> a[p] <= a[j]);
    }
    forall i, j | lo <= i < p + 1 <= j < hi ensures a[i] <= a[j] {
      assert a[p] <= a[j] && (i < p ==> a[i] <= a[p]);
    }
  }

  /** NthElement: the range is permuted so that it is parted at nth; its parts are in no order. */
  method NthElement(a: array<int>, lo: nat, nth: nat, hi: nat)
    requires lo <= nth < hi <= a.Length
    modifies a
    ensures Unmoved(old(a[..]), a[..], lo, hi) && Parted(a[..], lo, nth, hi)
  {
    hide Unmoved, Fenced, Parted;
    var first, last := lo, hi;
    SearchStarts(a[..], lo, hi);
    while true
      invariant lo <= first <= nth < last <= hi
      invariant Unmoved(old(a[..]), a[..], lo, hi) && Fenced(a[..], lo, first, last, hi)
      decreases last - first
    {
      ghost var was := a[..];
      var p := Partition(a, first, last);
      PartedBounds(a[..], first, p, last);
      FencedIsMoved(was, a[..], lo, first, last, hi);
      UnmovedWithin(was, a[..], lo, first, last, hi);
      UnmovedIsTransitive(old(a[..]), was, a[..], lo, hi);
      SearchOn(a[..], lo, first, p, last, hi);
      if p < nth {
        first := p + 1;
      } else if p > nth {
        last := p;
      } else {
        return;
      }
    }
  }

  lemma PartedBounds(a: seq<int>, first: nat, p: nat, last: nat)
    requires Parted(a, first, p, last)
    ensures first <= p < last <= |a|
  {
  }

  lemma SearchStarts(a: seq<int>, lo: nat, hi: nat)
    requires lo <= hi <= |a|
    ensures Unmoved(a, a, lo, hi) && Fenced(a, lo, lo, hi, hi)
  {
  }

  // ---- SolveFullSort ----

  lemma AboveNext(ds: seq<int>, next: nat, w: int)
    requires SplitBy(ds, next, w) && next < |ds| && forall j :: next <= j < |ds| ==> ds[next] <= ds[j]
    ensures ds[next] >= w && AllAtLeast(ds[next..], ds[next]) && SplitBy(ds, next + 1, ds[next])
  {
    assert ds[next..][0] == ds[next];
    var met := ds[..next + 1];
    forall k | 0 <= k < next + 1 ensures met[k] <= ds[next] {
      assert k < next ==> ds[..next][k] == ds[k];
    }
  }

  /** The state of either solver: what is below the level is met, what is left over is known. */
  ghost predicate Raised(ds: seq<int>, capacity: int, residual: int, lower: nat, w: int, floor: int) {
    && SplitBy(ds, lower, w) && floor <= w && (w == floor || w in ds)
    && residual == capacity - Fill(ds, w) && residual >= 0
  }

  lemma AllMet(ds: seq<int>, capacity: int, residual: int, w: int, floor: int)
    requires Raised(ds, capacity, residual, |ds|, w, floor)
    ensures IsLevel(ds, capacity, floor, w)
  {
    assert ds[..|ds|] == ds;
  }

  lemma UnmetCostMore(ds: seq<int>, next: nat, capacity: int)
    requires next < |ds| && Fill(ds, ds[next]) > capacity && forall j :: next <= j < |ds| ==> ds[next] <= ds[j]
    ensures forall k :: next <= k < |ds| ==> Fill(ds, ds[k]) > capacity
  {
    forall k | next <= k < |ds| ensures Fill(ds, ds[k]) > capacity {
      FillMonotone(ds, ds[next], ds[k]);
    }
  }

  /** The next demand is met if all unmet demands can have as much; otherwise the rest is divided. */
  lemma FullSortStep(ds: seq<int>, total: int, rest: int, next: nat, w: int, floor: int)
    requires Raised(ds, total, rest, next, w, floor) && next < |ds|
    requires forall j :: next <= j < |ds| ==> ds[next] <= ds[j]
    ensures var ask := (ds[next] - w) * (|ds| - next);
            && (ask <= rest ==> Raised(ds, total, rest - ask, next + 1, ds[next], floor))
            && (ask > rest ==> IsLevel(ds, total, floor, w + rest / (|ds| - next)))
  {
    hide Fill, SplitBy, IsLevel;
    AboveNext(ds, next, w);
    RaiseWithin(ds, next, w, ds[next]);
    if (ds[next] - w) * (|ds| - next) > rest {
      UnmetCostMore(ds, next, total);
      DivideRest(ds, next, w, total, floor);
    }
  }

  method SolveFullSort(capacity: int, a: array<int>, waterlevel: int, ghost total: int) returns (w: int)
    requires Raised(a[..], total, capacity, 0, waterlevel, waterlevel)
    modifies a
    ensures multiset(a[..]) == multiset(old(a[..]))
    ensures IsLevel(a[..], total, waterlevel, w)
  {
    hide Raised, IsLevel, Unmoved;
    ghost var was := a[..];
    Sort(a);
    ghost var ds := a[..];
    UnmovedIsPermuted(was, ds, 0, a.Length);
    RaisedPermuted(was, ds, total, capacity, waterlevel);
    var next := 0;
    var rest := capacity;
    w := waterlevel;
    while next < a.Length
      invariant 0 <= next <= a.Length && a[..] == ds
      invariant Raised(ds, total, rest, next, w, waterlevel)
    {
      var delta := a[next] - w;
      var numUnsatisfied := a.Length - next;
      var ask := delta * numUnsatisfied;
      FullSortStep(ds, total, rest, next, w, waterlevel);
      if ask <= rest {
        w := w + delta;
        rest := rest - ask;
        next := next + 1;
      } else {
        w := w + rest / numUnsatisfied;
        return;
      }
    }
    AllMet(ds, total, rest, w, waterlevel);
  }

  lemma RaisedPermuted(s: seq<int>, t: seq<int>, capacity: int, residual: int, w: int)
    requires multiset(s) == multiset(t) && Raised(s, capacity, residual, 0, w, w)
    ensures Raised(t, capacity, residual, 0, w, w)
  {
    FillPermuted(s, t, w);
    assert s[0..] == s && t[0..] == t;
    forall k | 0 <= k < |t| ensures t[k] >= w {
      assert t[k] in multiset(t);
      assert t[k] in s;
    }
  }

  // ---- PartialSortAllocator ----

  /** Demands above upper cannot be met, and none of them is below a demand of the area. */
  ghost predicate AreaIsLow(ds: seq<int>, capacity: int, lower: int, upper: int) {
    && 0 <= lower <= upper + 1 <= |ds|
    && (forall j :: upper < j < |ds| ==> Fill(ds, ds[j]) > capacity)
    && (forall i, j :: lower <= i <= upper < j < |ds| ==> ds[i] <= ds[j])
  }

  lemma SplitIsMoved(s: seq<int>, t: seq<int>, lower: nat, hi: nat, w: int)
    requires SplitBy(s, lower, w) && lower <= hi <= |s| == |t| && Unmoved(s, t, lower, hi)
    ensures SplitBy(t, lower, w)
  {
    assert t[..lower] == s[..lower];
    var rest := t[lower..];
    forall k | 0 <= k < |rest| ensures rest[k] >= w {
      var i := lower + k;
      if i < hi {
        var j := MovedFrom(s, t, lower, hi, i);
        assert s[lower..][j - lower] == s[j];
      } else {
        assert s[lower..][i - lower] == s[i];
      }
    }
  }

  lemma RaisedIsMoved(s: seq<int>, t: seq<int>, capacity: int, residual: int, lower: nat, hi: nat, w: int, floor: int)
    requires Raised(s, capacity, residual, lower, w, floor) && lower <= hi <= |s| == |t| && Unmoved(s, t, lower, hi)
    ensures Raised(t, capacity, residual, lower, w, floor)
  {
    hide Fill, SplitBy, Unmoved;
    UnmovedIsPermuted(s, t, lower, hi);
    FillPermuted(s, t, w);
    PermutedBounds(s, t, w);
    SplitIsMoved(s, t, lower, hi, w);
  }

  lemma AreaIsMoved(s: seq<int>, t: seq<int>, capacity: int, lower: nat, upper: int)
    requires AreaIsLow(s, capacity, lower, upper) && |s| == |t| && Unmoved(s, t, lower, upper + 1)
    ensures AreaIsLow(t, capacity, lower, upper)
  {
    hide Fill;
    UnmovedIsPermuted(s, t, lower, upper + 1);
    forall j | upper < j < |t| ensures Fill(t, t[j]) > capacity {
      FillPermuted(s, t, t[j]);
    }
    forall i, j | lower <= i <= upper < j < |t| ensures t[i] <= t[j] {
      var k := MovedFrom(s, t, lower, upper + 1, i);
    }
  }

  lemma TotalAppend(x: seq<int>, y: seq<int>)
    ensures Total(x + y) == Total(x) + Total(y)
  {
    var w := Max(x + y);
    FillAppend(x, y, w);
    FillMet(x + y, w);
    assert forall k :: 0 <= k < |x| ==> x[k] == (x + y)[k];
    assert forall k :: 0 <= k < |y| ==> y[k] == (x + y)[|x| + k];
    FillMet(x, w);
    FillMet(y, w);
  }

  ghost function Max(s: seq<int>): (m: int)
    ensures AllAtMost(s, m)
  {
    if s == [] then 0
    else
      var m := Max(s[..|s| - 1]);
      if s[|s| - 1] > m then s[|s| - 1] else m
  }

  /** A, from lower to p, ends in its largest demand, and nothing after p is smaller. */
  ghost predicate PartitionedAt(ds: seq<int>, lower: nat, p: nat) {
    && lower <= p < |ds|
    && (forall i :: lower <= i <= p ==> ds[i] <= ds[p])
    && (forall j :: p < j < |ds| ==> ds[p] <= ds[j])
  }

  lemma SplitAtPartition(ds: seq<int>, lower: nat, p: nat, w: int)
    requires SplitBy(ds, lower, w) && PartitionedAt(ds, lower, p)
    ensures lower <= p < |ds| && SplitBy(ds, p + 1, ds[p]) && ds[p] >= w
  {
    assert ds[lower..][p - lower] == ds[p];
    var met := ds[..p + 1];
    forall k | 0 <= k < p + 1 ensures met[k] <= ds[p] {
      assert k < lower ==> ds[..lower][k] == ds[k];
    }
  }

  lemma TotalUpTo(ds: seq<int>, lower: nat, i: nat)
    requires lower <= i <= |ds|
    ensures Total(ds[..i]) == Total(ds[..lower]) + Total(ds[lower..i])
  {
    assert ds[..i] == ds[..lower] + ds[lower..i];
    TotalAppend(ds[..lower], ds[lower..i]);
  }

  /** What it takes to raise the demands from lower up to i, in all, from w. */
  ghost function Rises(ds: seq<int>, lower: nat, i: nat, w: int): int
    requires lower <= i <= |ds|
  {
    Total(ds[lower..i]) - (i - lower) * w
  }

  lemma RisesStart(ds: seq<int>, lower: nat, w: int)
    requires lower <= |ds|
    ensures Rises(ds, lower, lower, w) == 0
  {
    assert ds[lower..lower] == [];
  }

  lemma RisesStep(ds: seq<int>, lower: nat, i: nat, w: int)
    requires lower <= i < |ds|
    ensures Rises(ds, lower, i + 1, w) == Rises(ds, lower, i, w) + ds[i] - w
  {
    hide Total;
    TotalSnoc(ds, lower, i);
    OneMore(i - lower, w);
  }

  lemma OneMore(n: int, w: int)
    ensures (n + 1) * w == n * w + w
  {
  }

  lemma SplitOf(ds: seq<int>, capacity: int, residual: int, lower: nat, w: int, floor: int)
    requires Raised(ds, capacity, residual, lower, w, floor)
    ensures SplitBy(ds, lower, w)
  {
  }

  /** The ask is what it costs to raise the level to the largest demand of A. */
  lemma AskIsCost(ds: seq<int>, lower: nat, p: nat, w: int)
    requires SplitBy(ds, lower, w) && PartitionedAt(ds, lower, p)
    ensures SplitBy(ds, p + 1, ds[p]) && ds[p] >= w
    ensures lower <= p < |ds|
    ensures Rises(ds, lower, p + 1, w) + (ds[p] - w) * (|ds| - p - 1) == Fill(ds, ds[p]) - Fill(ds, w)
  {
    SplitAtPartition(ds, lower, p, w);
    hide Fill, Total, PartitionedAt, SplitBy;
    FillAtSplit(ds, lower, w);
    FillAtSplit(ds, p + 1, ds[p]);
    TotalUpTo(ds, lower, p + 1);
    AskSum(Total(ds[..lower]), Total(ds[lower..p + 1]), p + 1 - lower, |ds| - p - 1, |ds| - lower, w, ds[p]);
  }

  lemma AskSum(met: int, inA: int, a: int, b: int, n: int, w: int, v: int)
    requires n == a + b
    ensures inA - a * w + (v - w) * b == (met + inA + b * v) - (met + n * w)
  {
    assert n * w == a * w + b * w;
    assert (v - w) * b == b * v - b * w;
  }

  /** Raise the level to the largest demand of A, or give up on it and on everything above. */
  lemma PartialSortStep(ds: seq<int>, capacity: int, residual: int, lower: nat, upper: nat, p: nat, w: int, floor: int)
    requires Raised(ds, capacity, residual, lower, w, floor) && AreaIsLow(ds, capacity, lower, upper)
    requires lower <= p <= upper && PartitionedAt(ds, lower, p)
    ensures var ask := Fill(ds, ds[p]) - Fill(ds, w);
            && (ask <= residual ==> Raised(ds, capacity, residual - ask, p + 1, ds[p], floor) && AreaIsLow(ds, capacity, p + 1, upper))
            && (ask > residual ==> AreaIsLow(ds, capacity, lower, p) && (lower == upper ==> AreaIsLow(ds, capacity, lower, lower - 1)))
  {
    AskIsCost(ds, lower, p, w);
    hide Fill;
    if Fill(ds, ds[p]) > capacity {
      forall j | p <= j < |ds| ensures Fill(ds, ds[j]) > capacity {
        FillMonotone(ds, ds[p], ds[j]);
      }
    }
  }

  class PartialSortAllocator {
    const capacity: int
    ghost const floor: int
    const sorted: array<int>
    var residual: int
    var lower: int
    var upper: int
    var waterlevel: int

    ghost predicate Valid()
      reads this, sorted
    {
      && lower >= 0 && Raised(sorted[..], capacity, residual, lower, waterlevel, floor)
      && AreaIsLow(sorted[..], capacity, lower, upper)
    }

    constructor (sorted: array<int>, residual: int, waterlevel: int, capacity: int)
      requires Raised(sorted[..], capacity, residual, 0, waterlevel, waterlevel)
      ensures Valid() && this.sorted == sorted && this.capacity == capacity && floor == waterlevel == this.waterlevel
      ensures lower == 0 && upper == sorted.Length - 1
    {
      this.sorted, this.residual, this.waterlevel := sorted, residual, waterlevel;
      this.capacity, floor := capacity, waterlevel;
      lower, upper := 0, sorted.Length - 1;
    }

    /** What it takes to raise everything to the largest demand of A. */
    method Ask(p: int) returns (ask: int)
      requires Valid() && lower <= p <= upper < sorted.Length && PartitionedAt(sorted[..], lower, p)
      ensures ask == Fill(sorted[..], sorted[p]) - Fill(sorted[..], waterlevel)
    {
      hide Fill, AreaIsLow, Raised, PartitionedAt, Rises, SplitBy;
      ghost var ds := sorted[..];
      BoundsOfArea(ds, capacity, lower, upper);
      SplitOf(ds, capacity, residual, lower, waterlevel, floor);
      var maxDemandA := 0;
      ask := 0;
      RisesStart(ds, lower, waterlevel);
      for i := lower to p + 1
        invariant ask == Rises(ds, lower, i, waterlevel)
        invariant i > lower ==> maxDemandA == ds[i - 1]
      {
        var d := sorted[i];
        RisesStep(ds, lower, i, waterlevel);
        ask := ask + d - waterlevel;
        maxDemandA := d;
      }
      AskIsCost(ds, lower, p, waterlevel);
      ask := ask + (maxDemandA - waterlevel) * (sorted.Length - p - 1);
    }

    method ComputeWaterlevel() returns (w: int)
      requires Valid() && upper == sorted.Length - 1 && lower == 0 && floor == waterlevel
      modifies this, sorted
      ensures multiset(sorted[..]) == multiset(old(sorted[..]))
      ensures IsLevel(sorted[..], capacity, floor, w)
    {
      hide Fill, IsLevel, Raised, AreaIsLow, PartitionedAt, Unmoved, Parted;
      if sorted.Length == 0 {
        AllMet(sorted[..], capacity, residual, waterlevel, floor);
        return waterlevel;
      }
      while upper >= lower
        invariant Valid() && multiset(sorted[..]) == multiset(old(sorted[..]))
        decreases upper - lower + 1
      {
        BoundsOfArea(sorted[..], capacity, lower, upper);
        var partition := lower + (upper - lower) / 2;
        ghost var was := sorted[..];
        NthElement(sorted, lower, partition, upper + 1);
        ghost var ds := sorted[..];
        UnmovedIsPermuted(was, ds, lower, upper + 1);
        RaisedIsMoved(was, ds, capacity, residual, lower, upper + 1, waterlevel, floor);
        AreaIsMoved(was, ds, capacity, lower, upper);
        PartedIsPartitioned(ds, capacity, lower, partition, upper);
        PartialSortStep(ds, capacity, residual, lower, upper, partition, waterlevel, floor);
        var ask := Ask(partition);
        if ask <= residual {
          waterlevel := sorted[partition];
          residual := residual - ask;
          lower := partition + 1;
        } else if lower == upper {
          upper := lower - 1;
        } else {
          upper := partition;
        }
      }
      w := DivideRemainder();
    }

    /** The rest is divided among the demands that are left. */
    method DivideRemainder() returns (w: int)
      requires Valid() && upper < lower
      modifies this
      ensures IsLevel(sorted[..], capacity, floor, w)
    {
      hide IsLevel, Fill;
      var nextUnsatisfied := if lower > upper then lower else upper;
      if nextUnsatisfied < sorted.Length {
        DivideRest(sorted[..], lower, waterlevel, capacity, floor);
        waterlevel := waterlevel + residual / (sorted.Length - nextUnsatisfied);
      } else {
        AllMet(sorted[..], capacity, residual, waterlevel, floor);
      }
      return waterlevel;
    }
  }

  lemma BoundsOfArea(ds: seq<int>, capacity: int, lower: int, upper: int)
    requires AreaIsLow(ds, capacity, lower, upper)
    ensures 0 <= lower <= upper + 1 <= |ds|
  {
  }

  lemma TotalSnoc(ds: seq<int>, lower: nat, i: nat)
    requires lower <= i < |ds|
    ensures Total(ds[lower..i + 1]) == Total(ds[lower..i]) + ds[i]
  {
    assert ds[lower..i + 1][..i - lower] == ds[lower..i];
  }

  lemma PartedIsPartitioned(ds: seq<int>, capacity: int, lower: nat, p: nat, upper: nat)
    requires Parted(ds, lower, p, upper + 1) && AreaIsLow(ds, capacity, lower, upper) && lower <= p <= upper < |ds|
    ensures PartitionedAt(ds, lower, p)
  {
    hide Fill;
  }

  // ---- ComputeWaterlevel ----

  datatype SolveMethod = FullSort | PartialSort

  datatype Options = Options(solveMethod: SolveMethod, enableTinyFlowOpt: bool)

  /** Demands at or below thresh are set aside, the others are kept. */
  ghost function Tiny(ds: seq<int>, thresh: int): seq<int> {
    if ds == [] then []
    else Tiny(ds[..|ds| - 1], thresh) + if ds[|ds| - 1] <= thresh then [ds[|ds| - 1]] else []
  }

  ghost function Kept(ds: seq<int>, thresh: int): seq<int> {
    if ds == [] then []
    else Kept(ds[..|ds| - 1], thresh) + if ds[|ds| - 1] <= thresh then [] else [ds[|ds| - 1]]
  }

  lemma FillOne(d: int, w: int)
    ensures Fill([d], w) == Least(w, d)
  {
    assert [d][..0] == [];
  }

  lemma {:induction false} FilterKeepsFill(ds: seq<int>, thresh: int, w: int)
    ensures Fill(ds, w) == Fill(Tiny(ds, thresh), w) + Fill(Kept(ds, thresh), w)
  {
    if ds != [] {
      var d := ds[|ds| - 1];
      FilterKeepsFill(ds[..|ds| - 1], thresh, w);
      FillAppend(Tiny(ds[..|ds| - 1], thresh), [d], w);
      FillAppend(Kept(ds[..|ds| - 1], thresh), [d], w);
      FillOne(d, w);
      assert Tiny(ds[..|ds| - 1], thresh) + [] == Tiny(ds[..|ds| - 1], thresh);
      assert Kept(ds[..|ds| - 1], thresh) + [] == Kept(ds[..|ds| - 1], thresh);
    }
  }

  lemma {:induction false} FilterHolds(ds: seq<int>, thresh: int, x: int)
    ensures x in Tiny(ds, thresh) <==> x in ds && x <= thresh
    ensures x in Kept(ds, thresh) <==> x in ds && x > thresh
  {
    if ds != [] {
      FilterHolds(ds[..|ds| - 1], thresh, x);
      SplitLast(ds);
    }
  }

  lemma FilterSnoc(ds: seq<int>, thresh: int, i: nat)
    requires i < |ds|
    ensures Tiny(ds[..i + 1], thresh) == if ds[i] <= thresh then Tiny(ds[..i], thresh) + [ds[i]] else Tiny(ds[..i], thresh)
    ensures Kept(ds[..i + 1], thresh) == if ds[i] <= thresh then Kept(ds[..i], thresh) else Kept(ds[..i], thresh) + [ds[i]]
  {
    assert ds[..i + 1][..i] == ds[..i];
  }

  /** The largest demand set aside, and at least 0. */
  ghost predicate IsTop(tiny: seq<int>, w: int) {
    w >= 0 && AllAtMost(tiny, w) && (w == 0 || w in tiny)
  }

  lemma TotalOfSnoc(s: seq<int>, d: int)
    ensures Total(s + [d]) == Total(s) + d
  {
    TakeAppend(s, [d]);
  }

  /** The loop that sets tiny demands aside; the others move to the front of the buffer. */
  method Filter(demands: seq<int>, thresh: int, capacity: int, buf: array<int>)
    returns (numUnfiltered: nat, rest: int, waterlevel: int)
    requires buf.Length == |demands|
    modifies buf
    ensures numUnfiltered <= buf.Length && buf[..numUnfiltered] == Kept(demands, thresh)
    ensures rest == capacity - Total(Tiny(demands, thresh))
    ensures IsTop(Tiny(demands, thresh), waterlevel)
  {
    hide Total, Tiny, Kept;
    numUnfiltered, rest, waterlevel := 0, capacity, 0;
    NothingFiltered(demands, thresh);
    for i := 0 to |demands|
      invariant numUnfiltered <= i && buf[..numUnfiltered] == Kept(demands[..i], thresh)
      invariant rest == capacity - Total(Tiny(demands[..i], thresh))
      invariant IsTop(Tiny(demands[..i], thresh), waterlevel)
    {
      ghost var kept := buf[..numUnfiltered];
      FilterSnoc(demands, thresh, i);
      TotalOfSnoc(Tiny(demands[..i], thresh), demands[i]);
      buf[numUnfiltered] := demands[i];
      assert buf[..numUnfiltered] == kept;
      if demands[i] <= thresh {
        rest := rest - demands[i];
        waterlevel := if waterlevel < demands[i] then demands[i] else waterlevel;
      } else {
        assert buf[..numUnfiltered + 1] == kept + [demands[i]];
        numUnfiltered := numUnfiltered + 1;
      }
    }
    assert demands[..|demands|] == demands;
  }

  lemma NothingFiltered(ds: seq<int>, thresh: int)
    ensures Tiny(ds[..0], thresh) == [] && Kept(ds[..0], thresh) == [] && Total([]) == 0
  {
  }

  /** What is left after the tiny demands starts the solver off. */
  lemma FilterIsRaised(ds: seq<int>, thresh: int, capacity: int, w: int)
    requires capacity >= 0 && AllAtLeast(ds, 0) && IsTop(Tiny(ds, thresh), w)
    requires thresh == -1 || thresh * |ds| <= capacity
    ensures var kept, rest := Kept(ds, thresh), capacity - Total(Tiny(ds, thresh));
            Raised(kept, rest, rest - w * |kept|, 0, w, w)
  {
    hide Total, Fill, Kept, Tiny;
    var tiny, kept := Tiny(ds, thresh), Kept(ds, thresh);
    assert kept[0..] == kept && kept[..0] == [];
    TopIsTiny(ds, thresh, w);
    forall k | 0 <= k < |kept| ensures kept[k] >= w {
      FilterHolds(ds, thresh, kept[k]);
    }
    FillUnmet(kept, w);
    FillMet(tiny, w);
    FilterKeepsFill(ds, thresh, w);
    FitsBelow(ds, thresh, capacity, w);
  }

  lemma TopIsTiny(ds: seq<int>, thresh: int, w: int)
    requires AllAtLeast(ds, 0) && IsTop(Tiny(ds, thresh), w)
    ensures w == 0 || w <= thresh
    ensures forall x :: x in Kept(ds, thresh) ==> x >= w
  {
    hide Kept, Tiny;
    FilterHolds(ds, thresh, w);
    forall x | x in Kept(ds, thresh) ensures x >= w {
      FilterHolds(ds, thresh, x);
    }
  }

  lemma FitsBelow(ds: seq<int>, thresh: int, capacity: int, w: int)
    requires capacity >= 0 && (w == 0 || 0 <= w <= thresh) && (thresh == -1 || thresh * |ds| <= capacity)
    ensures Fill(ds, w) <= capacity
  {
    FillCapped(ds, w);
    ScaleUp(|ds|, w, thresh);
  }

  /** A level for what was kept, on top of the tiny demands, is a level for all demands. */
  lemma LevelOfAll(ds: seq<int>, thresh: int, capacity: int, floor: int, w: int)
    requires AllAtLeast(ds, 0) && IsTop(Tiny(ds, thresh), floor)
    requires IsLevel(Kept(ds, thresh), capacity - Total(Tiny(ds, thresh)), floor, w)
    ensures IsLevel(ds, capacity, 0, w)
  {
    hide Total, Fill, Kept, Tiny;
    var tiny, kept := Tiny(ds, thresh), Kept(ds, thresh);
    FilterKeepsFill(ds, thresh, w);
    FilterKeepsFill(ds, thresh, w + 1);
    FillMet(tiny, w);
    FillMet(tiny, w + 1);
    FilterHolds(ds, thresh, w);
    if AllAtMost(kept, w) {
      forall k | 0 <= k < |ds| ensures ds[k] <= w {
        FilterHolds(ds, thresh, ds[k]);
      }
    }
  }

  lemma TinyThreshold(capacity: nat, n: nat)
    ensures capacity / (if n > 1 then n else 1) * n <= capacity
  {
  }

  class SingleLinkMaxMinFairnessProblem {
    const options: Options

    constructor (options: Options)
      ensures this.options == options
    {
      this.options := options;
    }

    /** Whatever the options, the result is the one max-min fair water level. */
    method ComputeWaterlevel(capacity: int, demands: seq<int>) returns (w: int)
      requires capacity >= 0 && AllAtLeast(demands, 0)
      ensures IsLevel(demands, capacity, 0, w)
    {
      hide Fill, Total, Tiny, Kept, IsLevel, Raised, IsTop;
      var n := |demands|;
      var thresh := capacity / (if n > 1 then n else 1);
      TinyThreshold(capacity, n);
      if !options.enableTinyFlowOpt {
        thresh := -1;
      }
      var buf := new int[n](_ => 0);
      var numUnfiltered, rest, waterlevel := Filter(demands, thresh, capacity, buf);
      FilterIsRaised(demands, thresh, capacity, waterlevel);
      var span := new int[numUnfiltered](i requires 0 <= i < numUnfiltered <= buf.Length reads buf => buf[i]);
      assert span[..] == buf[..numUnfiltered] == Kept(demands, thresh);
      ghost var kept := span[..];
      var residual := rest - waterlevel * numUnfiltered;
      match options.solveMethod {
        case FullSort =>
          w := SolveFullSort(residual, span, waterlevel, rest);
        case PartialSort =>
          var allocator := new PartialSortAllocator(span, residual, waterlevel, rest);
          w := allocator.ComputeWaterlevel();
      }
      LevelPermuted(span[..], kept, rest, waterlevel, w);
      LevelOfAll(demands, thresh, capacity, waterlevel, w);
    }

    /** Nobody gets more than they ask for or more than the level, and together they fit. */
    method SetAllocations(waterlevel: int, demands: seq<int>) returns (allocations: seq<int>)
      ensures |allocations| == |demands| && Total(allocations) == Fill(demands, waterlevel)
      ensures forall i :: 0 <= i < |demands| ==> allocations[i] == Least(waterlevel, demands[i])
    {
      allocations := [];
      for i := 0 to |demands|
        invariant |allocations| == i && Total(allocations) == Fill(demands[..i], waterlevel)
        invariant forall k :: 0 <= k < i ==> allocations[k] == Least(waterlevel, demands[k])
      {
        TotalOfSnoc(allocations, Least(waterlevel, demands[i]));
        assert demands[..i + 1][..i] == demands[..i];
        allocations := allocations + [Least(waterlevel, demands[i])];
      }
      assert demands[..|demands|] == demands;
    }
  }
}
