/**
 The ring of 2^64 host ids of which one arc is downgraded. The arc starts at start_ and covers
 round(frac * 2^32) chunks of 2^32 ids; start_ wraps as an unsigned 64-bit integer, and ends of
 ranges are computed in unsigned 128-bit integers.
 */
module HashRings {
  import opened Selection

  const TWO32 := 0x1_0000_0000
  const TWO64 := 0x1_0000_0000_0000_0000
  const TWO128 := 0x1_0000_0000_0000_0000_0000_0000_0000_0000
  const MAX_ID := TWO64 - 1

  const NO_IDS := IdRange(1, 0)

  datatype RingRanges = RingRanges(a: IdRange, b: IdRange) {
    predicate Contains(id: nat) {
      a.Contains(id) || b.Contains(id)
    }
  }

  datatype RangeDiff = Add(diff: RingRanges) | Del(diff: RingRanges)

  const NO_DIFF := Add(RingRanges(NO_IDS, NO_IDS))

  /** round(): to the nearest integer, halves away from zero; here only for x >= 0. */
  function Round(x: real): (n: int)
    requires x >= 0.0
    ensures n >= 0 && n as real - 0.5 <= x < n as real + 0.5
  {
    (x + 0.5).Floor
  }

  predicate IsFrac(f: real) {
    0.0 <= f <= 1.0
  }

  function Chunks(frac: real): (n: nat)
    requires IsFrac(frac)
    ensures n <= TWO32
  {
    Round(frac * TWO32 as real)
  }

  function FracToRing(frac: real): (len: nat)
    requires IsFrac(frac)
    ensures len <= TWO64
  {
    Chunks(frac) * TWO32
  }

  /** The fraction in chunks, to the nearest one. */
  lemma ChunksAreNearest(frac: real)
    requires IsFrac(frac)
    ensures Chunks(frac) as real - 0.5 <= frac * TWO32 as real < Chunks(frac) as real + 0.5
    ensures FracToRing(frac) == Chunks(frac) * TWO32
  {
  }

  /** An unsigned 128-bit subtraction of one. */
  function Minus1(x: nat): nat {
    if x == 0 then TWO128 - 1 else x - 1
  }

  function Low64(x: nat): (r: nat)
    ensures r < TWO64
  {
    x % TWO64
  }

  function High64(x: nat): nat {
    x / TWO64
  }

  function ComputeRangeDiff(oldStart: nat, oldFrac: real, newStart: nat, newFrac: real): RangeDiff
    requires IsFrac(oldFrac) && IsFrac(newFrac) && oldStart < TWO64 && newStart < TWO64
  {
    if oldFrac == newFrac then NO_DIFF
    else
      var oldEndP1 := oldStart + FracToRing(oldFrac);
      var newEnd := Minus1(newStart + FracToRing(newFrac));
      if oldFrac < newFrac then
        if High64(newEnd) != 0 && High64(oldEndP1) == 0
        then Add(RingRanges(IdRange(0, Low64(newEnd)), IdRange(Low64(oldEndP1), MAX_ID)))
        else Add(RingRanges(IdRange(Low64(oldEndP1), Low64(newEnd)), NO_IDS))
      else if oldStart < newStart then Del(RingRanges(IdRange(oldStart, newStart - 1), NO_IDS))
      else if newStart == 0 then Del(RingRanges(IdRange(oldStart, MAX_ID), NO_IDS))
      else Del(RingRanges(IdRange(0, newStart - 1), IdRange(oldStart, MAX_ID)))
  }

  function Matching(start: nat, frac: real): RingRanges
    requires IsFrac(frac) && start < TWO64
  {
    if frac == 0.0 then RingRanges(NO_IDS, NO_IDS)
    else
      var end := Minus1(start + FracToRing(frac));
      if High64(end) != 0 then RingRanges(IdRange(0, Low64(end)), IdRange(start, MAX_ID))
      else RingRanges(IdRange(start, Low64(end)), NO_IDS)
  }

  // ---- The arc that the ring stands for ----

  /** id lies within len steps from start, going round the ring. */
  ghost predicate InArc(start: nat, len: nat, id: nat) {
    (id + TWO64 - start) % TWO64 < len
  }

  lemma ArcCases(start: nat, len: nat, id: nat)
    requires start < TWO64 && len <= TWO64 && id < TWO64
    ensures InArc(start, len, id) <==>
            if start + len <= TWO64 then start <= id < start + len else start <= id || id < start + len - TWO64
  {
  }

  /** A positive fraction below half a chunk, at start 0: the end of the arc underflows. */
  predicate Underflows(start: nat, frac: real)
    requires IsFrac(frac)
  {
    frac > 0.0 && Chunks(frac) == 0 && start == 0
  }

  /** MatchingRanges is the arc, except that it is the whole ring when the end underflows. */
  lemma MatchingIsArc(start: nat, frac: real, id: nat)
    requires IsFrac(frac) && start < TWO64 && id < TWO64
    ensures Matching(start, frac).Contains(id) <==> Underflows(start, frac) || InArc(start, FracToRing(frac), id)
  {
    ArcCases(start, FracToRing(frac), id);
  }

  // ---- UpdateFrac ----

  function Clamp(frac: real): (f: real)
    ensures IsFrac(f)
  {
    if frac < 0.0 then 0.0 else if frac > 1.0 then 1.0 else frac
  }

  function NewStart(start: nat, oldFrac: real, newFrac: real): (s: nat)
    requires IsFrac(oldFrac) && IsFrac(newFrac) && start < TWO64
    ensures s < TWO64
  {
    if oldFrac > newFrac then (start + Low64(FracToRing(oldFrac - newFrac))) % TWO64 else start
  }

  /** What a caller that holds the old state and applies the diff believes about id. */
  ghost predicate Applied(d: RangeDiff, before: bool, id: nat) {
    match d
    case Add(r) => before || r.Contains(id)
    case Del(r) => before && !r.Contains(id)
  }

  /** When the diff turns the old ranges into the new ones; known before the call. */
  predicate DiffIsExact(start: nat, oldFrac: real, newFrac: real)
    requires IsFrac(oldFrac) && IsFrac(newFrac) && start < TWO64
  {
    var o, n := FracToRing(oldFrac), FracToRing(newFrac);
    if oldFrac == newFrac then true
    else if oldFrac < newFrac then
      && !(o == n && start > 0 && start + n == TWO64)
      && !(Underflows(start, oldFrac) && 0 < n < TWO64)
    else
      var d := FracToRing(oldFrac - newFrac);
      && !Underflows(NewStart(start, oldFrac, newFrac), newFrac)
      && (if d > 0 then o == d + n else n == 0)
  }

  lemma ChunksMonotone(f: real, g: real)
    requires IsFrac(f) && IsFrac(g) && f <= g
    ensures Chunks(f) <= Chunks(g) && FracToRing(f) <= FracToRing(g)
  {
    assert f * TWO32 as real <= g * TWO32 as real;
  }

  /** A step along the ring. */
  lemma NewStartCases(start: nat, oldFrac: real, newFrac: real)
    requires IsFrac(oldFrac) && IsFrac(newFrac) && start < TWO64 && oldFrac > newFrac
    ensures var d := FracToRing(oldFrac - newFrac);
            NewStart(start, oldFrac, newFrac) == if start + d < TWO64 then start + d else start + d - TWO64
  {
  }

  /** What ComputeRangeDiff reports when the fraction shrinks: the first d ids of the arc, or the whole ring. */
  lemma DelIsArc(start: nat, oldFrac: real, newFrac: real, id: nat)
    requires IsFrac(oldFrac) && IsFrac(newFrac) && start < TWO64 && id < TWO64 && oldFrac > newFrac
    ensures var d := FracToRing(oldFrac - newFrac);
            var diff := ComputeRangeDiff(start, oldFrac, NewStart(start, oldFrac, newFrac), newFrac);
            diff.Del? && (diff.diff.Contains(id) <==> d == 0 || InArc(start, d, id))
  {
    NewStartCases(start, oldFrac, newFrac);
    ArcCases(start, FracToRing(oldFrac - newFrac), id);
  }

  ghost predicate DiffWorksFor(start: nat, oldFrac: real, newFrac: real, id: nat)
    requires IsFrac(oldFrac) && IsFrac(newFrac) && start < TWO64
  {
    var s := NewStart(start, oldFrac, newFrac);
    Matching(s, newFrac).Contains(id) <==>
    Applied(ComputeRangeDiff(start, oldFrac, s, newFrac), Matching(start, oldFrac).Contains(id), id)
  }

  lemma GrowWorks(start: nat, oldFrac: real, newFrac: real, id: nat)
    requires IsFrac(oldFrac) && IsFrac(newFrac) && start < TWO64 && id < TWO64 && oldFrac < newFrac
    requires DiffIsExact(start, oldFrac, newFrac)
    ensures DiffWorksFor(start, oldFrac, newFrac, id)
  {
    hide Matching, InArc, Chunks, FracToRing, ComputeRangeDiff;
    ChunksMonotone(oldFrac, newFrac);
    MatchingIsArc(start, oldFrac, id);
    MatchingIsArc(start, newFrac, id);
    AddCases(start, oldFrac, newFrac, id);
    NoChunks(oldFrac);
    NoChunks(newFrac);
    ArcCases(start, FracToRing(oldFrac), id);
    ArcCases(start, FracToRing(newFrac), id);
  }

  lemma NoChunks(frac: real)
    requires IsFrac(frac)
    ensures FracToRing(frac) == 0 <==> Chunks(frac) == 0
  {
  }

  /** What ComputeRangeDiff reports when the fraction grows, case by case. */
  lemma AddCases(start: nat, oldFrac: real, newFrac: real, id: nat)
    requires IsFrac(oldFrac) && IsFrac(newFrac) && start < TWO64 && id < TWO64 && oldFrac < newFrac
    ensures var o, n := start + FracToRing(oldFrac), start + FracToRing(newFrac);
            var diff := ComputeRangeDiff(start, oldFrac, start, newFrac);
            && diff.Add?
            && (diff.diff.Contains(id) <==>
                  if n == 0 then true
                  else if n <= TWO64 then (if o < TWO64 then o <= id < n else id < n)
                  else if o < TWO64 then id < n - TWO64 || o <= id
                  else o - TWO64 <= id < n - TWO64)
  {
    hide Chunks, FracToRing;
    ChunksMonotone(oldFrac, newFrac);
  }

  lemma ShrinkWorks(start: nat, oldFrac: real, newFrac: real, id: nat)
    requires IsFrac(oldFrac) && IsFrac(newFrac) && start < TWO64 && id < TWO64 && oldFrac > newFrac
    requires DiffIsExact(start, oldFrac, newFrac)
    ensures DiffWorksFor(start, oldFrac, newFrac, id)
  {
    var s, d := NewStart(start, oldFrac, newFrac), FracToRing(oldFrac - newFrac);
    ChunksMonotone(oldFrac - newFrac, oldFrac);
    MatchingIsArc(start, oldFrac, id);
    MatchingIsArc(s, newFrac, id);
    DelIsArc(start, oldFrac, newFrac, id);
    NewStartCases(start, oldFrac, newFrac);
    ArcCases(start, FracToRing(oldFrac), id);
    ArcCases(start, d, id);
    ArcCases(s, FracToRing(newFrac), id);
    hide Matching, InArc, Chunks, FracToRing, ComputeRangeDiff, NewStart;
  }

  /** The id k steps from start. */
  function At(start: nat, k: nat): (id: nat)
    requires start < TWO64 && k < TWO64
    ensures id < TWO64
  {
    if start + k < TWO64 then start + k else start + k - TWO64
  }

  lemma AtInArc(start: nat, len: nat, k: nat)
    requires start < TWO64 && k < TWO64 && len <= TWO64
    ensures InArc(start, len, At(start, k)) <==> k < len
  {
    ArcCases(start, len, At(start, k));
  }

  /** Otherwise some id ends up wrong. */
  lemma GrowFails(start: nat, oldFrac: real, newFrac: real) returns (id: nat)
    requires IsFrac(oldFrac) && IsFrac(newFrac) && start < TWO64 && oldFrac < newFrac
    requires !DiffIsExact(start, oldFrac, newFrac)
    ensures id < TWO64 && !DiffWorksFor(start, oldFrac, newFrac, id)
  {
    var n := FracToRing(newFrac);
    id := if start > 0 then 0 else n;
    MatchingIsArc(start, oldFrac, id);
    MatchingIsArc(start, newFrac, id);
    ArcCases(start, FracToRing(oldFrac), id);
    ArcCases(start, n, id);
  }

  /** Arcs of different lengths differ somewhere. */
  lemma WrongLength(start: nat, s: nat, o: nat, n: nat, d: nat) returns (id: nat)
    requires start < TWO64 && s < TWO64 && 0 < d <= o <= TWO64 && n <= TWO64 && o != d + n
    requires s == if start + d < TWO64 then start + d else start + d - TWO64
    ensures id < TWO64 && (InArc(s, n, id) <==> !(InArc(start, o, id) && !InArc(start, d, id)))
  {
    id := At(start, if o > d + n then d + n else if o < TWO64 then o else 0);
    ArcCases(start, o, id);
    ArcCases(start, d, id);
    ArcCases(s, n, id);
    hide InArc;
  }

  lemma ShrinkFails(start: nat, oldFrac: real, newFrac: real) returns (id: nat)
    requires IsFrac(oldFrac) && IsFrac(newFrac) && start < TWO64 && oldFrac > newFrac
    requires !DiffIsExact(start, oldFrac, newFrac)
    ensures id < TWO64 && !DiffWorksFor(start, oldFrac, newFrac, id)
  {
    var s := NewStart(start, oldFrac, newFrac);
    var o, n, d := FracToRing(oldFrac), FracToRing(newFrac), FracToRing(oldFrac - newFrac);
    ChunksMonotone(oldFrac - newFrac, oldFrac);
    NewStartCases(start, oldFrac, newFrac);
    if d == 0 || Underflows(s, newFrac) {
      id := start;
      AtInArc(start, d, 0);
      AtInArc(start, n, 0);
    } else {
      id := WrongLength(start, s, o, n, d);
    }
    MatchingIsArc(start, oldFrac, id);
    MatchingIsArc(s, newFrac, id);
    DelIsArc(start, oldFrac, newFrac, id);
    hide Matching, InArc, Chunks, FracToRing, ComputeRangeDiff, NewStart;
  }

  /** The diff is right for every id if and only if DiffIsExact holds. */
  lemma DiffWorksIffExact(start: nat, oldFrac: real, newFrac: real)
    requires IsFrac(oldFrac) && IsFrac(newFrac) && start < TWO64
    ensures (forall id: nat :: id < TWO64 ==> DiffWorksFor(start, oldFrac, newFrac, id)) <==>
            DiffIsExact(start, oldFrac, newFrac)
  {
    hide DiffIsExact, DiffWorksFor;
    if DiffIsExact(start, oldFrac, newFrac) {
      forall id: nat | id < TWO64 ensures DiffWorksFor(start, oldFrac, newFrac, id) {
        ExactWorks(start, oldFrac, newFrac, id);
      }
    } else {
      var id := InexactFails(start, oldFrac, newFrac);
    }
  }

  lemma ExactWorks(start: nat, oldFrac: real, newFrac: real, id: nat)
    requires IsFrac(oldFrac) && IsFrac(newFrac) && start < TWO64 && id < TWO64
    requires DiffIsExact(start, oldFrac, newFrac)
    ensures DiffWorksFor(start, oldFrac, newFrac, id)
  {
    if oldFrac < newFrac {
      GrowWorks(start, oldFrac, newFrac, id);
    } else if oldFrac > newFrac {
      ShrinkWorks(start, oldFrac, newFrac, id);
    }
  }

  lemma InexactFails(start: nat, oldFrac: real, newFrac: real) returns (id: nat)
    requires IsFrac(oldFrac) && IsFrac(newFrac) && start < TWO64
    requires !DiffIsExact(start, oldFrac, newFrac)
    ensures id < TWO64 && !DiffWorksFor(start, oldFrac, newFrac, id)
  {
    if oldFrac < newFrac {
      id := GrowFails(start, oldFrac, newFrac);
    } else {
      id := ShrinkFails(start, oldFrac, newFrac);
    }
  }

  /** The smallest decrease from a full ring reports every id as upgraded, yet all stay downgraded. */
  lemma TinyDecreaseDropsAll(id: nat)
    requires id < TWO64
    ensures var f := 1.0 - 1.0 / (0x1000_0000_0000 as real);
            && Matching(NewStart(0, 1.0, f), f).Contains(id)
            && ComputeRangeDiff(0, 1.0, NewStart(0, 1.0, f), f) == Del(RingRanges(IdRange(0, MAX_ID), NO_IDS))
  {
  }

  /** A whole number of chunks. */
  ghost predicate WholeChunks(f: real, n: nat) {
    f * TWO32 as real == n as real
  }

  lemma WholeIsExact(f: real, n: nat)
    requires IsFrac(f) && WholeChunks(f, n)
    ensures Chunks(f) == n
  {
  }

  /** Fractions that are whole numbers of chunks always give exact diffs. */
  lemma WholeChunksAreExact(start: nat, oldFrac: real, newFrac: real, o: nat, n: nat)
    requires IsFrac(oldFrac) && IsFrac(newFrac) && start < TWO64 && WholeChunks(oldFrac, o) && WholeChunks(newFrac, n)
    ensures DiffIsExact(start, oldFrac, newFrac)
  {
    WholeIsExact(oldFrac, o);
    WholeIsExact(newFrac, n);
    assert oldFrac < newFrac ==> o < n;
    if oldFrac > newFrac {
      assert (oldFrac - newFrac) * TWO32 as real == (o - n) as real;
      WholeIsExact(oldFrac - newFrac, o - n);
    }
  }

  class HashRing {
    var start: nat
    var frac: real

    constructor ()
      ensures Valid() && start == 0 && frac == 0.0
    {
      start, frac := 0, 0.0;
    }

    ghost predicate Valid()
      reads this
    {
      start < TWO64 && IsFrac(frac)
    }

    function MatchingRanges(): RingRanges
      requires Valid()
      reads this
    {
      Matching(start, frac)
    }

    method UpdateFrac(newFrac: real) returns (diff: RangeDiff)
      requires Valid()
      modifies this
      ensures Valid() && frac == Clamp(newFrac) && start == NewStart(old(start), old(frac), frac)
      ensures diff == ComputeRangeDiff(old(start), old(frac), start, frac)
      ensures (forall id: nat :: id < TWO64 ==>
                (MatchingRanges().Contains(id) <==> Applied(diff, old(MatchingRanges()).Contains(id), id)))
              <==> DiffIsExact(old(start), old(frac), frac)
    {
      var f := if newFrac < 0.0 then 0.0 else if newFrac > 1.0 then 1.0 else newFrac;
      var oldStart, oldFrac := start, frac;
      if frac > f {
        start := (start + Low64(FracToRing(frac - f))) % TWO64;
      }
      frac := f;
      diff := ComputeRangeDiff(oldStart, oldFrac, start, frac);
      DiffWorksIffExact(oldStart, oldFrac, frac);
      assert forall id: nat :: DiffWorksFor(oldStart, oldFrac, frac, id) <==>
        (MatchingRanges().Contains(id) <==> Applied(diff, old(MatchingRanges()).Contains(id), id));
    }
  }
}
