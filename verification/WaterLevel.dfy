/** What a max-min fair share of one link is: the highest level at which every demand can be filled. */
module WaterLevels {
  import opened Sequences

  function Least(x: int, y: int): int {
    if x < y then x else y
  }

  /** What the demands take when each gets up to level w. */
  ghost function Fill(ds: seq<int>, w: int): int {
    if ds == [] then 0 else Fill(ds[..|ds| - 1], w) + Least(w, ds[|ds| - 1])
  }

  ghost function Total(ds: seq<int>): int {
    if ds == [] then 0 else Total(ds[..|ds| - 1]) + ds[|ds| - 1]
  }

  ghost predicate AllAtMost(ds: seq<int>, w: int) {
    forall k :: 0 <= k < |ds| ==> ds[k] <= w
  }

  ghost predicate AllAtLeast(ds: seq<int>, w: int) {
    forall k :: 0 <= k < |ds| ==> ds[k] >= w
  }

  /**
   Level w fits the capacity, and it cannot be higher: one more would not fit, or every demand is
   met and w is no higher than the floor or the largest demand.
   */
  ghost predicate IsLevel(ds: seq<int>, capacity: int, floor: int, w: int) {
    && w >= floor && Fill(ds, w) <= capacity
    && (Fill(ds, w + 1) > capacity || (AllAtMost(ds, w) && (w == floor || w in ds)))
  }

  lemma {:induction false} FillMonotone(ds: seq<int>, v: int, w: int)
    requires v <= w
    ensures Fill(ds, v) <= Fill(ds, w)
  {
    if ds != [] {
      FillMonotone(ds[..|ds| - 1], v, w);
    }
  }

  lemma {:induction false} FillAppend(x: seq<int>, y: seq<int>, w: int)
    ensures Fill(x + y, w) == Fill(x, w) + Fill(y, w)
  {
    if y == [] {
      assert x + y == x;
    } else {
      FillAppend(x, y[..|y| - 1], w);
      assert (x + y)[..|x + y| - 1] == x + y[..|y| - 1];
    }
  }

  lemma {:induction false} FillMet(ds: seq<int>, w: int)
    requires AllAtMost(ds, w)
    ensures Fill(ds, w) == Total(ds)
  {
    if ds != [] {
      FillMet(ds[..|ds| - 1], w);
    }
  }

  lemma {:induction false} FillUnmet(ds: seq<int>, w: int)
    requires AllAtLeast(ds, w)
    ensures Fill(ds, w) == |ds| * w
  {
    if ds != [] {
      var k := |ds| - 1;
      FillUnmet(ds[..k], w);
      assert |ds| * w == k * w + w;
    }
  }

  lemma FillTakeOut(t: seq<int>, k: nat, w: int)
    requires k < |t|
    ensures Fill(t, w) == Fill(t[..k] + t[k + 1..], w) + Least(w, t[k])
  {
    SplitAt(t, k);
    assert t[k..] == [t[k]] + t[k + 1..];
    FillAppend(t[..k], t[k..], w);
    FillAppend([t[k]], t[k + 1..], w);
    FillAppend(t[..k], t[k + 1..], w);
    assert [t[k]][..0] == [];
  }

  lemma MultisetTakeOut(t: seq<int>, k: nat)
    requires k < |t|
    ensures multiset(t) == multiset(t[..k] + t[k + 1..]) + multiset{t[k]}
  {
    assert t == t[..k] + [t[k]] + t[k + 1..];
  }

  lemma Cancel(a: multiset<int>, b: multiset<int>, x: int)
    requires a + multiset{x} == b + multiset{x}
    ensures a == b
  {
    forall y ensures a[y] == b[y] {
      assert (a + multiset{x})[y] == (b + multiset{x})[y];
    }
  }

  /** The order of the demands does not matter. */
  lemma {:induction false} FillPermuted(s: seq<int>, t: seq<int>, w: int)
    requires multiset(s) == multiset(t)
    ensures Fill(s, w) == Fill(t, w)
    decreases |s|
  {
    if s == [] {
      assert |multiset(t)| == 0;
      assert t == [];
    } else {
      var n := |s| - 1;
      var x := s[n];
      assert x in multiset(s);
      assert x in multiset(t);
      var k :| 0 <= k < |t| && t[k] == x;
      var t' := t[..k] + t[k + 1..];
      MultisetTakeOut(t, k);
      SplitLast(s);
      assert multiset(s) == multiset(s[..n]) + multiset{x};
      Cancel(multiset(s[..n]), multiset(t'), x);
      FillPermuted(s[..n], t', w);
      FillTakeOut(t, k, w);
    }
  }

  lemma PermutedBounds(s: seq<int>, t: seq<int>, w: int)
    requires multiset(s) == multiset(t)
    ensures AllAtMost(s, w) <==> AllAtMost(t, w)
    ensures w in s <==> w in t
  {
    assert forall x :: x in s <==> x in multiset(s);
    assert forall x :: x in t <==> x in multiset(t);
    if AllAtMost(s, w) {
      forall k | 0 <= k < |t| ensures t[k] <= w {
        assert t[k] in t;
        var j :| 0 <= j < |s| && s[j] == t[k];
      }
    }
    if AllAtMost(t, w) {
      forall k | 0 <= k < |s| ensures s[k] <= w {
        assert s[k] in s;
        var j :| 0 <= j < |t| && t[j] == s[k];
      }
    }
  }

  lemma LevelPermuted(s: seq<int>, t: seq<int>, capacity: int, floor: int, w: int)
    requires multiset(s) == multiset(t) && IsLevel(s, capacity, floor, w)
    ensures IsLevel(t, capacity, floor, w)
  {
    hide Fill, AllAtMost;
    FillPermuted(s, t, w);
    FillPermuted(s, t, w + 1);
    PermutedBounds(s, t, w);
  }

  /** There is one such level, so every method that finds one finds the same. */
  lemma LevelIsUnique(ds: seq<int>, capacity: int, floor: int, v: int, w: int)
    requires IsLevel(ds, capacity, floor, v) && IsLevel(ds, capacity, floor, w)
    ensures v == w
  {
    if v < w {
      HigherIsNoLevel(ds, capacity, floor, v, w);
    } else if w < v {
      HigherIsNoLevel(ds, capacity, floor, w, v);
    }
  }

  lemma HigherIsNoLevel(ds: seq<int>, capacity: int, floor: int, v: int, w: int)
    requires IsLevel(ds, capacity, floor, v) && v < w
    ensures !IsLevel(ds, capacity, floor, w)
  {
    FillMonotone(ds, v + 1, w);
    if AllAtMost(ds, v) {
      FillMet(ds, v);
      FillMet(ds, w + 1);
    }
  }

  /** No way to share the capacity gives every demand more than the level does. */
  lemma {:induction false} SharesFill(ds: seq<int>, shares: seq<int>, w: int)
    requires |shares| == |ds| && forall k :: 0 <= k < |ds| ==> shares[k] >= Least(w, ds[k])
    ensures Total(shares) >= Fill(ds, w)
  {
    if ds != [] {
      var k := |ds| - 1;
      SharesFill(ds[..k], shares[..k], w);
    }
  }

  lemma NoShareIsBetter(ds: seq<int>, capacity: int, floor: int, w: int, shares: seq<int>)
    requires IsLevel(ds, capacity, floor, w) && !AllAtMost(ds, w)
    requires |shares| == |ds| && Total(shares) <= capacity
    ensures exists k :: 0 <= k < |ds| && shares[k] < Least(w + 1, ds[k])
  {
    if forall k :: 0 <= k < |ds| ==> shares[k] >= Least(w + 1, ds[k]) {
      SharesFill(ds, shares, w + 1);
    }
  }

  /** How many demands are not met at w. */
  ghost function Unmet(ds: seq<int>, w: int): nat {
    if ds == [] then 0 else Unmet(ds[..|ds| - 1], w) + if ds[|ds| - 1] > w then 1 else 0
  }

  /** What the shares give the unmet demands beyond w. */
  ghost function Extra(ds: seq<int>, shares: seq<int>, w: int): int
    requires |shares| == |ds|
  {
    if ds == [] then 0
    else
      var k := |ds| - 1;
      Extra(ds[..k], shares[..k], w) + if ds[k] > w then shares[k] - w else 0
  }

  /** One more level costs one unit for each unmet demand. */
  lemma {:induction false} RaiseByOne(ds: seq<int>, w: int)
    ensures Fill(ds, w + 1) == Fill(ds, w) + Unmet(ds, w)
  {
    if ds != [] {
      RaiseByOne(ds[..|ds| - 1], w);
    }
  }

  lemma {:induction false} ExtraIsPaid(ds: seq<int>, shares: seq<int>, w: int)
    requires |shares| == |ds| && forall k :: 0 <= k < |ds| ==> shares[k] >= Least(w, ds[k])
    ensures Fill(ds, w) + Extra(ds, shares, w) <= Total(shares)
  {
    if ds != [] {
      var k := |ds| - 1;
      ExtraIsPaid(ds[..k], shares[..k], w);
    }
  }

  /** If the extra units are fewer than the unmet demands, one of them gets none. */
  lemma {:induction false} OneGetsNoMore(ds: seq<int>, shares: seq<int>, w: int) returns (j: nat)
    requires |shares| == |ds| && forall k :: 0 <= k < |ds| ==> shares[k] >= Least(w, ds[k])
    requires Extra(ds, shares, w) < Unmet(ds, w)
    ensures j < |ds| && ds[j] > w && shares[j] == w
  {
    var k := |ds| - 1;
    if ds[k] > w && shares[k] == w {
      j := k;
    } else {
      j := OneGetsNoMore(ds[..k], shares[..k], w);
    }
  }

  /**
   Max-min fairness in whole units. If some demand is unmet, whoever shares the capacity without
   giving anyone less than the level does has fewer extra units than there are unmet demands,
   so some unmet demand stays exactly at the level.
   */
  lemma LevelIsFair(ds: seq<int>, capacity: int, floor: int, w: int, shares: seq<int>)
    requires IsLevel(ds, capacity, floor, w) && !AllAtMost(ds, w)
    requires |shares| == |ds| && Total(shares) <= capacity
    requires forall k :: 0 <= k < |ds| ==> shares[k] >= Least(w, ds[k])
    ensures 0 <= Extra(ds, shares, w) < Unmet(ds, w)
    ensures exists j :: 0 <= j < |ds| && ds[j] > w && shares[j] == w
  {
    hide Fill, Extra, Unmet, Total;
    RaiseByOne(ds, w);
    ExtraIsPaid(ds, shares, w);
    ExtraIsNotNegative(ds, shares, w);
    var j := OneGetsNoMore(ds, shares, w);
  }

  lemma {:induction false} ExtraIsNotNegative(ds: seq<int>, shares: seq<int>, w: int)
    requires |shares| == |ds| && forall k :: 0 <= k < |ds| ==> shares[k] >= Least(w, ds[k])
    ensures Extra(ds, shares, w) >= 0
  {
    if ds != [] {
      var k := |ds| - 1;
      ExtraIsNotNegative(ds[..k], shares[..k], w);
    }
  }

  // ---- Raising the level ----

  /** The demands before lower are met at w, and the others are not below it. */
  ghost predicate SplitBy(ds: seq<int>, lower: nat, w: int) {
    lower <= |ds| && AllAtMost(ds[..lower], w) && AllAtLeast(ds[lower..], w)
  }

  lemma FillAtSplit(ds: seq<int>, lower: nat, w: int)
    requires SplitBy(ds, lower, w)
    ensures Fill(ds, w) == Total(ds[..lower]) + (|ds| - lower) * w
  {
    SplitAt(ds, lower);
    FillAppend(ds[..lower], ds[lower..], w);
    FillMet(ds[..lower], w);
    FillUnmet(ds[lower..], w);
  }

  /** Up to the smallest unmet demand the level costs one unit for each unmet demand. */
  lemma RaiseWithin(ds: seq<int>, lower: nat, w: int, v: int)
    requires SplitBy(ds, lower, w) && w <= v && AllAtLeast(ds[lower..], v)
    ensures Fill(ds, v) == Fill(ds, w) + (|ds| - lower) * (v - w)
  {
    FillAtSplit(ds, lower, w);
    FillAtSplit(ds, lower, v);
    assert (|ds| - lower) * (v - w) == (|ds| - lower) * v - (|ds| - lower) * w;
  }

  /** Dividing what is left among the unmet demands gives the level, if none of them can be met. */
  lemma DivideRest(ds: seq<int>, lower: nat, w: int, capacity: int, floor: int)
    requires SplitBy(ds, lower, w) && lower < |ds| && floor <= w && Fill(ds, w) <= capacity
    requires forall k :: lower <= k < |ds| ==> Fill(ds, ds[k]) > capacity
    ensures IsLevel(ds, capacity, floor, w + (capacity - Fill(ds, w)) / (|ds| - lower))
  {
    hide Fill;
    var num, rest := |ds| - lower, capacity - Fill(ds, w);
    var q := rest / num;
    DivBounds(rest, num);
    forall k | 0 <= k < |ds[lower..]| ensures ds[lower..][k] >= w + q + 1 {
      var d := ds[lower..][k];
      assert d == ds[lower + k];
      BelowDemand(ds, lower, w, capacity, lower + k, q);
    }
    RaiseWithin(ds, lower, w, w + q);
    RaiseWithin(ds, lower, w, w + q + 1);
    assert num * (q + 1) == num * q + num;
  }

  lemma DivBounds(a: nat, n: nat)
    requires n > 0
    ensures n * (a / n) <= a < n * (a / n) + n
  {
  }

  lemma BelowDemand(ds: seq<int>, lower: nat, w: int, capacity: int, k: nat, q: nat)
    requires SplitBy(ds, lower, w) && lower <= k < |ds| && Fill(ds, ds[k]) > capacity
    requires Fill(ds, w) + (|ds| - lower) * q <= capacity
    ensures ds[k] >= w + q + 1
  {
    hide Fill;
    assert ds[lower..][k - lower] == ds[k];
    FillAtMost(ds, lower, w, ds[k]);
    ScaleUp(|ds| - lower, ds[k] - w, q);
  }

  lemma ScaleUp(n: nat, x: int, y: int)
    ensures x <= y ==> n * x <= n * y
  {
  }

  lemma FillAtMost(ds: seq<int>, lower: nat, w: int, v: int)
    requires SplitBy(ds, lower, w) && w <= v
    ensures Fill(ds, v) <= Fill(ds, w) + (|ds| - lower) * (v - w)
  {
    SplitAt(ds, lower);
    FillAppend(ds[..lower], ds[lower..], v);
    FillAtSplit(ds, lower, w);
    FillMet(ds[..lower], v);
    FillCapped(ds[lower..], v);
    assert (|ds| - lower) * (v - w) == (|ds| - lower) * v - (|ds| - lower) * w;
  }

  lemma {:induction false} FillCapped(ds: seq<int>, w: int)
    ensures Fill(ds, w) <= |ds| * w
  {
    if ds != [] {
      var k := |ds| - 1;
      FillCapped(ds[..k], w);
      assert |ds| * w == k * w + w;
    }
  }
}
