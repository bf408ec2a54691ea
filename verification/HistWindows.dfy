/** The sliding windows over which HistCombiner merges histograms. */
module HistWindows {

  /** Histograms start to end, both included, are merged, and reported at the time of the last. */
  datatype Window = Window(start: nat, end: nat, time: int)

  /** Go's integer division truncates towards zero. */
  function Truncated(a: int, b: int): (r: int)
    requires b > 0
    ensures a >= 0 ==> r >= 0 && r * b <= a < r * b + b
    ensures a <= 0 ==> r <= 0 && r * b >= a > r * b - b
  {
    if a >= 0 then a / b else -((-a) / b)
  }

  ghost predicate Sorted(times: seq<int>) {
    forall i, j :: 0 <= i < j < |times| ==> times[i] <= times[j]
  }

  ghost predicate InRange(ws: seq<Window>, n: nat) {
    forall k :: 0 <= k < |ws| ==> ws[k].start <= ws[k].end < n
  }

  /** Starts and ends strictly increase, and each window begins inside the one before it. */
  ghost predicate Chained(ws: seq<Window>) {
    forall k :: 0 < k < |ws| ==> Follows(ws[k - 1], ws[k])
  }

  ghost predicate Follows(v: Window, w: Window) {
    v.start < w.start <= v.end < w.end
  }

  ghost predicate Spans(times: seq<int>, w: Window, dur: int) {
    w.start < |times| && w.end < |times| && times[w.end] - times[w.start] >= dur
  }

  /** From the first histogram to the last without a gap, and every window but the last spans dur. */
  ghost predicate Covers(times: seq<int>, ws: seq<Window>, dur: int) {
    && InRange(ws, |times|) && Chained(ws)
    && (times == [] <==> ws == [])
    && (ws != [] ==> ws[0].start == 0 && ws[|ws| - 1].end == |times| - 1)
    && (forall k :: 0 <= k < |ws| - 1 ==> Spans(times, ws[k], dur))
  }

  /** Chained windows leave nothing out. */
  lemma {:induction false} EveryHistogramIsCovered(times: seq<int>, ws: seq<Window>, dur: int, x: nat) returns (k: nat)
    requires Covers(times, ws, dur) && x < |times|
    ensures k < |ws| && ws[k].start <= x <= ws[k].end
  {
    k := 0;
    while ws[k].end < x
      invariant k < |ws| && ws[k].start <= x
      decreases |ws| - k
    {
      assert k + 1 < |ws| ==> Follows(ws[k], ws[k + 1]);
      k := k + 1;
    }
  }

  /** What the windows written so far say about the next one, as long as dur is positive. */
  ghost predicate Chaining(times: seq<int>, ws: seq<Window>, dur: int, i: nat, j: nat) {
    && InRange(ws, j) && Chained(ws) && i <= j
    && (ws == [] ==> i == 0)
    && (ws != [] ==> ws[0].start == 0 && ws[|ws| - 1].start < i <= ws[|ws| - 1].end)
    && (forall k :: 0 <= k < |ws| ==> Spans(times, ws[k], dur))
  }

  lemma ChainSnoc(times: seq<int>, ws: seq<Window>, dur: int, i: nat, j: nat)
    requires Chaining(times, ws, dur, i, j) && j < |times|
    ensures var ws' := ws + [Window(i, j, times[j])];
            && InRange(ws', j + 1) && Chained(ws') && ws'[0].start == 0
            && (times[j] - times[i] >= dur ==> forall k :: 0 <= k < |ws'| ==> Spans(times, ws'[k], dur))
  {
    var ws' := ws + [Window(i, j, times[j])];
    forall k | 0 < k < |ws'| ensures Follows(ws'[k - 1], ws'[k]) {
      assert k < |ws| ==> Follows(ws[k - 1], ws[k]);
    }
  }

  /** The loop that moves the start past the first twentieth of the window. */
  method Advance(times: seq<int>, dur: int, from: nat, j: nat) returns (i: nat, found: bool)
    requires from <= j < |times|
    ensures Advanced(times, dur, from, j, i, found) && from <= i <= j + 1 && found == (i <= j)
  {
    var minT := times[from] + Truncated(dur, 20);
    i := from;
    found := false;
    while i <= j
      invariant from <= i <= j + 1
      invariant forall k :: from <= k < i ==> times[k] <= minT
    {
      if times[i] > minT {
        return i, true;
      }
      i := i + 1;
    }
  }

  ghost predicate Advanced(times: seq<int>, dur: int, from: nat, j: nat, i: nat, found: bool) {
    && from <= j < |times| && from <= i <= j + 1 && found == (i <= j)
    && (forall k :: from <= k < i ==> times[k] <= times[from] + Truncated(dur, 20))
    && (found ==> times[i] > times[from] + Truncated(dur, 20))
  }

  /** Where window k may end at the earliest. */
  ghost function After(ws: seq<Window>, k: nat): nat
    requires k <= |ws|
  {
    if k == 0 then 0 else ws[k - 1].end + 1
  }

  /** No histogram from one index up to another is as late as dur after the start. */
  ghost predicate AllShort(times: seq<int>, dur: int, start: nat, from: nat, to: nat) {
    start < |times| && to <= |times| && forall m :: from <= m < to ==> times[m] < times[start] + dur
  }

  /**
   Each window ends at the first histogram after the window before it that is dur past its start,
   and starts at the first one past a twentieth of dur after the start of that window.
   */
  ghost predicate Prompt(times: seq<int>, ws: seq<Window>, dur: int) {
    && (forall k :: 0 <= k < |ws| ==> AllShort(times, dur, ws[k].start, After(ws, k), ws[k].end))
    && (forall k :: 0 < k < |ws| ==> Advanced(times, dur, ws[k - 1].start, ws[k - 1].end, ws[k].start, true))
  }

  /** The window that is open at histogram j. */
  ghost predicate Pending(times: seq<int>, ws: seq<Window>, dur: int, i: nat, j: nat) {
    && AllShort(times, dur, i, After(ws, |ws|), j)
    && (ws != [] ==> Advanced(times, dur, ws[|ws| - 1].start, ws[|ws| - 1].end, i, true))
  }

  lemma PromptSnoc(times: seq<int>, ws: seq<Window>, dur: int, i: nat, j: nat, w: Window)
    requires Prompt(times, ws, dur) && Pending(times, ws, dur, i, j) && w.start == i && w.end == j
    ensures Prompt(times, ws + [w], dur)
  {
    hide Advanced, AllShort;
    var ws' := ws + [w];
    forall k | 0 <= k < |ws'| ensures AllShort(times, dur, ws'[k].start, After(ws', k), ws'[k].end) {
      assert k < |ws| ==> AllShort(times, dur, ws[k].start, After(ws, k), ws[k].end);
    }
    forall k | 0 < k < |ws'| ensures Advanced(times, dur, ws'[k - 1].start, ws'[k - 1].end, ws'[k].start, true) {
      assert k < |ws| ==> Advanced(times, dur, ws[k - 1].start, ws[k - 1].end, ws[k].start, true);
    }
  }

  lemma PendingStarts(times: seq<int>, dur: int)
    ensures Prompt(times, [], dur) && (times != [] ==> Pending(times, [], dur, 0, 0))
  {
  }

  lemma PendingGoesOn(times: seq<int>, ws: seq<Window>, dur: int, i: nat, j: nat)
    requires Pending(times, ws, dur, i, j) && j < |times| && times[j] < times[i] + dur
    ensures Pending(times, ws, dur, i, j + 1)
  {
    hide Advanced;
  }

  lemma PendingNext(times: seq<int>, ws: seq<Window>, dur: int, i: nat, j: nat, i': nat)
    requires ws != [] && ws[|ws| - 1].start == i && ws[|ws| - 1].end == j && Advanced(times, dur, i, j, i', true)
    ensures Pending(times, ws, dur, i', j + 1)
  {
  }

  lemma FoundAt(times: seq<int>, ws: seq<Window>, dur: int, i: nat, hi: int, added: bool, j: nat)
    requires Going(times, ws, dur, i, hi, added, j) && j < |times|
    ensures i < |times| && hi == times[i]
  {
  }

  /** A positive dur: the state of the loop before histogram j. */
  ghost predicate Going(times: seq<int>, ws: seq<Window>, dur: int, i: nat, hi: int, added: bool, j: nat) {
    && Chaining(times, ws, dur, i, j)
    && (times != [] ==> i < |times| && hi == times[i])
    && (added <==> ws != [] && ws[|ws| - 1].end == j - 1)
  }

  lemma GoingOn(times: seq<int>, ws: seq<Window>, dur: int, i: nat, hi: int, added: bool, j: nat)
    requires Going(times, ws, dur, i, hi, added, j) && j < |times|
    ensures Going(times, ws, dur, i, hi, false, j + 1)
  {
  }

  lemma TwentiethIsShorter(dur: int)
    requires dur > 0
    ensures 0 <= Truncated(dur, 20) < dur
  {
  }

  lemma GoingWrites(times: seq<int>, ws: seq<Window>, dur: int, i: nat, hi: int, added: bool, j: nat, i': nat, found: bool)
    requires Going(times, ws, dur, i, hi, added, j) && j < |times| && dur > 0 && times[j] >= hi + dur
    requires Advanced(times, dur, i, j, i', found)
    ensures found && Going(times, ws + [Window(i, j, times[j])], dur, i', times[i'], true, j + 1)
  {
    hide Chained, Truncated;
    TwentiethIsShorter(dur);
    ChainSnoc(times, ws, dur, i, j);
    assert found;
    assert times[i'] > times[i];
  }

  lemma GoingEnds(times: seq<int>, ws: seq<Window>, dur: int, i: nat, hi: int, added: bool)
    requires Going(times, ws, dur, i, hi, added, |times|)
    ensures times != [] ==> i < |times|
    ensures added || times == [] ==> Covers(times, ws, dur)
    ensures !added && times != [] ==> Covers(times, ws + [Window(i, |times| - 1, times[|times| - 1])], dur)
  {
    if !added && times != [] {
      forall k | 0 <= k < |ws| ensures ws[k].end < |times| - 1 {
        EndsIncrease(ws, k, |ws| - 1);
      }
      ChainSnoc(times, ws, dur, i, |times| - 1);
    }
  }

  lemma {:induction false} EndsIncrease(ws: seq<Window>, a: nat, b: nat)
    requires Chained(ws) && a <= b < |ws|
    ensures ws[a].end <= ws[b].end
    decreases b
  {
    if a < b {
      EndsIncrease(ws, a, b - 1);
      assert Follows(ws[b - 1], ws[b]);
    }
  }

  /** Otherwise the first two windows start at the same histogram. */
  ghost predicate Stuck(times: seq<int>, ws: seq<Window>, i: nat, hi: int, added: bool, j: nat) {
    if j <= 1 then i == 0 && (times != [] ==> hi == times[0]) && |ws| == j && (added <==> j > 0) && (j == 1 ==> ws[0].start == 0 && ws[0].end == 0)
    else |ws| >= 2 && ws[0].start == 0 && ws[1].start == 0
  }

  lemma StuckDoesNotCover(times: seq<int>, ws: seq<Window>, dur: int)
    requires |ws| >= 2 && ws[0].start == 0 && ws[1].start == 0
    ensures !Covers(times, ws, dur)
  {
    assert !Follows(ws[0], ws[1]);
  }

  /** Percentiles, as the windows it merges; for sorted times they are right exactly when dur is positive. */
  method Windows(times: seq<int>, dur: int) returns (ws: seq<Window>)
    ensures InRange(ws, |times|)
    ensures dur > 0 ==> Covers(times, ws, dur) && Prompt(times, ws, dur)
    ensures Sorted(times) ==> (Covers(times, ws, dur) <==> dur > 0 || |times| <= 1)
    ensures forall k :: 0 <= k < |ws| ==> ws[k].end < |times| && ws[k].time == times[ws[k].end]
    ensures Sorted(times) && dur <= 0 && |times| >= 2 ==> |ws| >= 2 && ws[0].start == ws[1].start == 0
  {
    hide Going, Covers, Advanced, Prompt, Pending;
    var i := 0;
    var hi := if |times| > 0 then times[0] else 0;
    var added := false;
    ws := [];
    GoingStarts(times, dur, hi);
    PendingStarts(times, dur);
    for j := 0 to |times|
      invariant i <= j && InRange(ws, j)
      invariant forall k :: 0 <= k < |ws| ==> ws[k].time == times[ws[k].end]
      invariant dur > 0 ==> Going(times, ws, dur, i, hi, added, j) && Prompt(times, ws, dur)
      invariant dur > 0 && times != [] ==> Pending(times, ws, dur, i, j)
      invariant dur <= 0 && Sorted(times) ==> Stuck(times, ws, i, hi, added, j)
    {
      if times[j] < hi + dur {
        if dur > 0 {
          FoundAt(times, ws, dur, i, hi, added, j);
          GoingOn(times, ws, dur, i, hi, added, j);
          PendingGoesOn(times, ws, dur, i, j);
        }
        added := false;
        continue;
      }
      ghost var was, wasAt := ws, i;
      ws := ws + [Window(i, j, times[j])];
      var next, found := Advance(times, dur, i, j);
      if dur > 0 {
        GoingWrites(times, was, dur, i, hi, added, j, next, found);
        PromptSnoc(times, was, dur, i, j, ws[|ws| - 1]);
        PendingNext(times, ws, dur, i, j, next);
      } else {
        StartStays(times, dur, i, j, next, found);
      }
      i := next;
      if found {
        hi := times[i];
        added := true;
      }
      if !added {
        i := j;
        hi := times[j];
        added := true;
      }
    }
    if dur > 0 {
      GoingEnds(times, ws, dur, i, hi, added);
    }
    if !added && i < |times| {
      if dur > 0 {
        PendingEnds(times, ws, dur, i);
      }
      ws := ws + [Window(i, |times| - 1, times[|times| - 1])];
    }
    if |times| <= 1 && dur <= 0 && Sorted(times) {
      OneWindow(times, ws, dur);
    }
    if |times| >= 2 && dur <= 0 && Sorted(times) {
      StuckDoesNotCover(times, ws, dur);
    }
  }

  lemma PendingEnds(times: seq<int>, ws: seq<Window>, dur: int, i: nat)
    requires times != [] && Prompt(times, ws, dur) && Pending(times, ws, dur, i, |times|)
    ensures Prompt(times, ws + [Window(i, |times| - 1, times[|times| - 1])], dur)
  {
    hide Advanced, Prompt;
    PromptSnoc(times, ws, dur, i, |times| - 1, Window(i, |times| - 1, times[|times| - 1]));
  }

  lemma GoingStarts(times: seq<int>, dur: int, hi: int)
    requires times != [] ==> hi == times[0]
    ensures Going(times, [], dur, 0, hi, false, 0)
  {
  }

  /** At the first histogram the start does not move unless dur is positive. */
  lemma StartStays(times: seq<int>, dur: int, from: nat, j: nat, i: nat, found: bool)
    requires dur <= 0 && Advanced(times, dur, from, j, i, found)
    ensures j == 0 ==> (found ==> i == 0)
  {
  }

  lemma OneWindow(times: seq<int>, ws: seq<Window>, dur: int)
    requires |times| == |ws| <= 1 && (ws != [] ==> ws[0].start == 0 && ws[0].end == 0)
    ensures Covers(times, ws, dur)
  {
  }

  /** Two histograms and no duration: the windows overlap from the first histogram on. */
  method ZeroDurationFails() returns (ws: seq<Window>)
    ensures |ws| >= 2 && ws[0].start == ws[1].start == 0
    ensures !Covers([0, 1], ws, 0)
  {
    ws := Windows([0, 1], 0);
  }
}
