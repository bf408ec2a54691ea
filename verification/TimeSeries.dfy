/**
 The sampled time series that a `tsBatch` buffers: timestamps rounded to the merge
 precision, and runs of equal timestamps collapsed to their newest sample.
 Everything here is about plain sequences; the buffers themselves are in TsBatch.dfy.
 */
module TimeSeries {
  import opened Sequences

  /** An opaque `interface{}` payload: nil, or a record known only by its identity. */
  datatype Datum = Nil | Record(id: int)

  datatype Entry = Entry(time: int, data: Datum)

  /** Go's time.Round: nearest multiple of p, halfway values up; p <= 0 leaves t alone. */
  function Round(t: int, p: int): int {
    if p <= 0 then t
    else
      var r := t % p;
      if r + r < p then t - r else t + p - r
  }

  lemma ProductAtLeast(p: int, d: int)
    requires p > 0 && d >= 1
    ensures p * d >= p
  {
  }

  lemma DivisionIsUnique(x: int, p: int, q: int, r: int)
    requires p > 0 && x == p * q + r && 0 <= r < p
    ensures x / p == q && x % p == r
  {
    var a, u := x / p, x % p;
    assert x == p * a + u;
    if a < q {
      ProductAtLeast(p, q - a);
      assert false;
    }
    if q < a {
      ProductAtLeast(p, a - q);
      assert false;
    }
  }

  lemma DivideMonotone(s: int, t: int, p: int)
    requires p > 0 && s <= t
    ensures s / p <= t / p
  {
    var a, b := s / p, t / p;
    assert s == p * a + s % p && t == p * b + t % p;
    if b < a {
      ProductAtLeast(p, a - b);
      assert false;
    }
  }

  /** The multiple of p nearest to t, and of two equally near the later one; t itself without a precision. */
  ghost predicate IsRounded(r: int, t: int, p: int) {
    if p > 0 then r % p == 0 && 2 * (r - t) <= p && 2 * (t - r) < p else r == t
  }

  lemma RoundIsNearest(t: int, p: int)
    ensures IsRounded(Round(t, p), t, p)
  {
    if p > 0 {
      var q := if t % p + t % p < p then t / p else t / p + 1;
      assert Round(t, p) == p * q;
      DivisionIsUnique(p * q, p, q, 0);
    }
  }

  lemma MultiplesAreApart(x: int, y: int, p: int)
    requires p > 0 && x % p == 0 && y % p == 0 && x < y
    ensures y - x >= p
  {
    DivideMonotone(x, y, p);
    var a, b := x / p, y / p;
    assert x == p * a && y == p * b;
    if a < b {
      ProductAtLeast(p, b - a);
    }
  }

  /** No other value is as near. */
  lemma RoundedIsUnique(r: int, t: int, p: int)
    requires IsRounded(r, t, p)
    ensures r == Round(t, p)
  {
    hide Round;
    RoundIsNearest(t, p);
    var s := Round(t, p);
    if p > 0 && r < s {
      MultiplesAreApart(r, s, p);
    }
    if p > 0 && s < r {
      MultiplesAreApart(s, r, p);
    }
    if p <= 0 {
      RoundIsNearest(t, p);
    }
  }

  lemma RoundIdempotent(t: int, p: int)
    ensures Round(Round(t, p), p) == Round(t, p)
  {
    if p > 0 {
      var q := if t % p + t % p < p then t / p else t / p + 1;
      assert Round(t, p) == p * q;
      DivisionIsUnique(p * q, p, q, 0);
    }
  }

  lemma RoundMonotone(s: int, t: int, p: int)
    requires s <= t
    ensures Round(s, p) <= Round(t, p)
  {
    if p > 0 {
      DivideMonotone(s, t, p);
      var a, b := s / p, t / p;
      assert s - s % p == p * a && t - t % p == p * b;
      if a < b {
        ProductAtLeast(p, b - a);
        assert p * (b - a) == p * b - p * a;
      }
    }
  }

  function RoundAll(s: seq<Entry>, p: int): (r: seq<Entry>)
    ensures |r| == |s|
    ensures forall k :: 0 <= k < |s| ==> r[k] == Entry(Round(s[k].time, p), s[k].data)
  {
    seq(|s|, k requires 0 <= k < |s| => Entry(Round(s[k].time, p), s[k].data))
  }

  /** Adds one sample to a series: it replaces the newest entry if their times agree. */
  function Push(d: seq<Entry>, e: Entry): (r: seq<Entry>)
    ensures r != [] && r[|r| - 1] == e
  {
    if d != [] && d[|d| - 1].time == e.time then d[..|d| - 1] + [e] else d + [e]
  }

  /** Collapses every run of equal timestamps to its last entry. */
  function Dedup(s: seq<Entry>): (r: seq<Entry>)
    ensures |r| <= |s|
    ensures s != [] ==> r != [] && r[|r| - 1] == s[|s| - 1]
  {
    if s == [] then [] else Push(Dedup(s[..|s| - 1]), s[|s| - 1])
  }

  /** The series a stream of raw samples stands for. */
  function Series(stream: seq<Entry>, p: int): seq<Entry> {
    Dedup(RoundAll(stream, p))
  }

  ghost predicate NonDecreasing(s: seq<Entry>) {
    forall j, k :: 0 <= j < k < |s| ==> s[j].time <= s[k].time
  }

  ghost predicate StrictlyIncreasing(s: seq<Entry>) {
    forall j, k :: 0 <= j < k < |s| ==> s[j].time < s[k].time
  }

  ghost predicate OneTime(s: seq<Entry>) {
    forall j, k :: 0 <= j < |s| && 0 <= k < |s| ==> s[j].time == s[k].time
  }

  lemma DedupSnoc(s: seq<Entry>, e: Entry)
    ensures Dedup(s + [e]) == Push(Dedup(s), e)
  {
    TakeAppend(s, [e]);
  }

  lemma {:induction false} DedupIdempotent(s: seq<Entry>)
    ensures Dedup(Dedup(s)) == Dedup(s)
  {
    if s != [] {
      var x, e := s[..|s| - 1], s[|s| - 1];
      var d := Dedup(x);
      DedupIdempotent(x);
      if d != [] && d[|d| - 1].time == e.time {
        var d' := d[..|d| - 1];
        assert Dedup(d') == d' by { DedupedPrefix(d); }
        DedupSnoc(d', e);
        assert d' != [] ==> d'[|d'| - 1].time != e.time by { DedupedPrefix(d); }
      } else {
        DedupSnoc(d, e);
      }
    }
  }

  lemma DedupedPrefix(d: seq<Entry>)
    requires Dedup(d) == d && d != []
    ensures Dedup(d[..|d| - 1]) == d[..|d| - 1]
    ensures |d| > 1 ==> d[|d| - 2].time != d[|d| - 1].time
  {
    var x := Dedup(d[..|d| - 1]);
    assert |x| <= |d| - 1;
    assert d == x + [d[|d| - 1]];
    assert d[..|d| - 1] == x;
  }

  /** Only the deduplicated form of a prefix matters to what follows it. */
  lemma {:induction false} DedupCongruent(a: seq<Entry>, b: seq<Entry>, y: seq<Entry>)
    requires Dedup(a) == Dedup(b)
    ensures Dedup(a + y) == Dedup(b + y)
    decreases |y|
  {
    if y == [] {
      assert a + y == a && b + y == b;
    } else {
      DedupSnoc(a, y[0]);
      DedupSnoc(b, y[0]);
      DedupCongruent(a + [y[0]], b + [y[0]], y[1..]);
      MoveHead(a, y);
      MoveHead(b, y);
    }
  }

  /** Deduplicating a prefix early changes nothing: chunk boundaries are invisible. */
  lemma DedupAbsorbsPrefix(x: seq<Entry>, y: seq<Entry>)
    ensures Dedup(Dedup(x) + y) == Dedup(x + y)
  {
    DedupIdempotent(x);
    DedupCongruent(Dedup(x), x, y);
  }

  /** A sample pushed behind a non-empty series does not reach what stands before it. */
  lemma PushBehind(a: seq<Entry>, d: seq<Entry>, e: Entry)
    requires d != []
    ensures Push(a + d, e) == a + Push(d, e)
  {
    assert (a + d)[|a + d| - 1] == d[|d| - 1];
    assert (a + d)[..|a + d| - 1] == a + d[..|d| - 1];
  }

  lemma DedupTwo(e: Entry, f: Entry)
    requires e.time != f.time
    ensures Dedup([e] + [f]) == [e] + Dedup([f])
  {
    DedupSnoc([e], f);
    DedupOne(e);
    DedupOne(f);
  }

  lemma DedupOne(e: Entry)
    ensures Dedup([e]) == [e]
  {
    assert [e][..0] == [];
  }

  /** An entry with a different time than its successor is final. */
  lemma {:induction false} DedupCons(e: Entry, s: seq<Entry>)
    requires s != [] && e.time != s[0].time
    ensures Dedup([e] + s) == [e] + Dedup(s)
  {
    hide Dedup, Push;
    var x, f := s[..|s| - 1], s[|s| - 1];
    SplitLast(s);
    if x == [] {
      assert s == [f];
      DedupTwo(e, f);
    } else {
      Regroup([e], x, [f]);
      DedupSnoc([e] + x, f);
      DedupSnoc(x, f);
      DedupCons(e, x);
      PushBehind([e], Dedup(x), f);
    }
  }

  lemma {:induction false} DedupDrop(s: seq<Entry>)
    requires Dedup(s) == s && s != []
    ensures Dedup(s[1..]) == s[1..]
    ensures |s| > 1 ==> s[0].time != s[1].time
  {
    hide Dedup, Push;
    if |s| > 1 {
      var x, e := s[..|s| - 1], s[|s| - 1];
      DedupedPrefix(s);
      DedupDrop(x);
      SplitLast(s);
      DropHead(x, [e]);
      DedupSnoc(x[1..], e);
      if |s| > 2 {
        PushNew(x[1..], e);
      } else {
        DedupOne(e);
        assert x[1..] + [e] == [e];
      }
    } else {
      assert s[1..] == [];
      DedupNothing();
    }
  }

  lemma PushNew(d: seq<Entry>, e: Entry)
    requires d != [] && d[|d| - 1].time != e.time
    ensures Push(d, e) == d + [e]
  {
  }

  lemma DedupNothing()
    ensures Dedup([]) == []
  {
  }

  /** Fewer than two entries survive exactly when all samples share one timestamp. */
  lemma {:induction false} DedupIsShortIffOneTime(s: seq<Entry>)
    ensures |Dedup(s)| < 2 <==> OneTime(s)
  {
    if s != [] {
      var x, e := s[..|s| - 1], s[|s| - 1];
      DedupIsShortIffOneTime(x);
      if x != [] {
        assert x[|x| - 1] == s[|s| - 2];
        if !OneTime(x) {
          var j, k :| 0 <= j < |x| && 0 <= k < |x| && x[j].time != x[k].time;
          assert s[j].time != s[k].time;
          assert |Dedup(x)| >= 2;
        } else if x[|x| - 1].time == e.time {
          forall j | 0 <= j < |s| ensures s[j].time == e.time {
            assert j < |x| ==> x[j].time == x[|x| - 1].time;
          }
        }
      }
    }
  }

  /** On ordered input the series is strictly increasing. */
  lemma {:induction false} DedupOrders(s: seq<Entry>)
    requires NonDecreasing(s)
    ensures StrictlyIncreasing(Dedup(s))
  {
    if s != [] {
      hide StrictlyIncreasing, Push;
      var x := s[..|s| - 1];
      DedupOrders(x);
      assert x != [] ==> x[|x| - 1] == s[|s| - 2];
      PushOrders(Dedup(x), s[|s| - 1]);
    }
  }

  lemma PushOrders(d: seq<Entry>, e: Entry)
    requires StrictlyIncreasing(d) && (d != [] ==> d[|d| - 1].time <= e.time)
    ensures StrictlyIncreasing(Push(d, e))
  {
  }

  lemma SeriesOrders(stream: seq<Entry>, p: int)
    requires NonDecreasing(stream)
    ensures StrictlyIncreasing(Series(stream, p))
  {
    var r := RoundAll(stream, p);
    forall j, k | 0 <= j < k < |r| ensures r[j].time <= r[k].time {
      RoundMonotone(stream[j].time, stream[k].time, p);
    }
    DedupOrders(r);
  }

  /** Entry k of s is superseded when the next sample carries the same time. */
  predicate LastOfRun(s: seq<Entry>, k: int) {
    0 <= k < |s| && (k + 1 == |s| || s[k + 1].time != s[k].time)
  }

  /** Deduplication invents nothing. */
  lemma {:induction false} DedupSelects(s: seq<Entry>)
    ensures forall e :: e in Dedup(s) ==> e in s
  {
    if s != [] {
      var x := s[..|s| - 1];
      DedupSelects(x);
      forall e | e in Dedup(s) ensures e in s {
        assert e in Dedup(x) || e == s[|s| - 1];
        assert e in x ==> e in s;
      }
    }
  }

  /** On ordered input it keeps exactly the samples that nothing supersedes. */
  lemma {:induction false} DedupKeepsLast(s: seq<Entry>, k: int)
    requires NonDecreasing(s) && LastOfRun(s, k)
    ensures s[k] in Dedup(s)
  {
    if k + 1 < |s| {
      var x := s[..|s| - 1];
      assert LastOfRun(x, k);
      DedupKeepsLast(x, k);
      assert s[k].time < s[k + 1].time <= s[|s| - 1].time;
    }
  }

  /** What a pushed sample leaves in place is older than it. */
  lemma PushKeepsOlder(d: seq<Entry>, f: Entry, e: Entry)
    requires StrictlyIncreasing(d) && (d != [] ==> d[|d| - 1].time <= f.time)
    requires e in Push(d, f) && e != f
    ensures e in d && e.time < f.time
  {
    var r := Push(d, f);
    var k :| 0 <= k < |r| && r[k] == e;
    assert r[k] == d[k];
    assert k < |d| - 1 ==> d[k].time < d[|d| - 1].time;
  }

  lemma {:induction false} DedupKeepsOnlyLast(s: seq<Entry>, e: Entry) returns (k: int)
    requires NonDecreasing(s) && e in Dedup(s)
    ensures LastOfRun(s, k) && s[k] == e
  {
    var x, f := s[..|s| - 1], s[|s| - 1];
    if e == f {
      k := |s| - 1;
    } else {
      hide Dedup, Push, StrictlyIncreasing, LastOfRun, NonDecreasing;
      SplitLast(s);
      DedupSnoc(x, f);
      FrontIsOlder(s);
      DedupOrders(x);
      PushKeepsOlder(Dedup(x), f, e);
      k := DedupKeepsOnlyLast(x, e);
      StaysLast(s, k);
    }
  }

  lemma FrontIsOlder(s: seq<Entry>)
    requires NonDecreasing(s) && s != []
    ensures var x := s[..|s| - 1];
            NonDecreasing(x) && (x != [] ==> x[|x| - 1].time <= s[|s| - 1].time)
  {
  }

  lemma StaysLast(s: seq<Entry>, k: int)
    requires s != [] && LastOfRun(s[..|s| - 1], k) && s[k].time < s[|s| - 1].time
    ensures LastOfRun(s, k)
  {
  }
}
