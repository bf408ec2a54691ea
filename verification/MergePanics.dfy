/**
 When a merge over readers that fill their slices panics, said of the streams alone: some
 stretch of 64 samples that one reader hands out together rounds to a single time, and every
 stream still has a sample later than all that this stream shows before that time.
 */
module MergePanics {
  import opened Sequences
  import opened TimeSeries
  import opened TsReaders
  import opened SeriesJoin

  ghost function StuckTime(stream: seq<Entry>, m: nat, p: int): int
    requires Stuck(stream, m, p)
  {
    Round(stream[63 * m].time, p)
  }

  /** The stream shows, at u or later, another time before it gets stuck. */
  ghost predicate Before(stream: seq<Entry>, m: nat, p: int, u: int)
    requires Stuck(stream, m, p)
  {
    exists q :: 0 <= q < |stream| && u <= Round(stream[q].time, p) < StuckTime(stream, m, p)
  }

  ghost predicate EndsBefore(stream: seq<Entry>, m: nat, p: int, other: seq<Entry>)
    requires Stuck(stream, m, p)
  {
    other == [] || Before(stream, m, p, Round(other[|other| - 1].time, p))
  }

  /** The merge gets as far as stretch m of stream k. */
  ghost predicate Reached(streams: seq<seq<Entry>>, k: nat, m: nat, p: int) {
    && k < |streams| && Stuck(streams[k], m, p)
    && forall j :: 0 <= j < |streams| ==> !EndsBefore(streams[k], m, p, streams[j])
  }

  ghost predicate WillPanic(streams: seq<seq<Entry>>, p: int) {
    exists k: nat, m: nat :: Reached(streams, k, m, p)
  }

  ghost predicate InOrder(streams: seq<seq<Entry>>) {
    forall k :: 0 <= k < |streams| ==> NonDecreasing(streams[k])
  }

  /** Everything passed so far lies before every stuck stretch. */
  ghost predicate NotYet(streams: seq<seq<Entry>>, p: int, cols: Columns, pos: seq<nat>)
    requires Cursors(cols, pos)
  {
    forall k: nat, m: nat, u: int ::
      k < |streams| && Stuck(streams[k], m, p) && Passed(cols, pos, u) ==> Before(streams[k], m, p, u)
  }

  // ---- One column ----

  lemma RoundOrdered(stream: seq<Entry>, p: int, a: nat, b: nat)
    requires NonDecreasing(stream) && a <= b < |stream|
    ensures Round(stream[a].time, p) <= Round(stream[b].time, p)
  {
    RoundMonotone(stream[a].time, stream[b].time, p);
  }

  /** Every sample's time is a time of the series. */
  lemma {:induction false} DedupKeepsTimes(s: seq<Entry>, q: nat) returns (j: nat)
    requires q < |s|
    ensures j < |Dedup(s)| && Dedup(s)[j].time == s[q].time
  {
    hide Dedup, Push;
    var x, f := s[..|s| - 1], s[|s| - 1];
    SplitLast(s);
    DedupSnoc(x, f);
    if q == |s| - 1 {
      j := |Dedup(s)| - 1;
    } else {
      j := DedupKeepsTimes(x, q);
      PushKeepsTime(Dedup(x), f, j);
    }
  }

  lemma PushKeepsTime(d: seq<Entry>, f: Entry, j: nat)
    requires j < |d|
    ensures j < |Push(d, f)| && Push(d, f)[j].time == d[j].time
  {
  }

  lemma SeriesShows(stream: seq<Entry>, p: int, q: nat) returns (j: nat)
    requires q < |stream|
    ensures j < |Series(stream, p)| && Series(stream, p)[j].time == Round(stream[q].time, p)
  {
    hide Dedup;
    j := DedupKeepsTimes(RoundAll(stream, p), q);
  }

  lemma SeriesFrom(stream: seq<Entry>, p: int, j: nat) returns (q: nat)
    requires j < |Series(stream, p)|
    ensures q < |stream| && Round(stream[q].time, p) == Series(stream, p)[j].time
  {
    hide Dedup;
    var x := RoundAll(stream, p);
    DedupSelects(x);
    var e := Dedup(x)[j];
    assert e in x;
    q :| 0 <= q < |x| && x[q] == e;
  }

  /** The last sample's time is the last of the series. */
  lemma SeriesEnds(stream: seq<Entry>, p: int)
    requires stream != []
    ensures var s := Series(stream, p);
            s != [] && s[|s| - 1].time == Round(stream[|stream| - 1].time, p)
  {
  }

  /** With two times pending, the head of a clean column lies before every stuck stretch. */
  lemma HeadIsBefore(stream: seq<Entry>, m: nat, p: int, pending: seq<Entry>, c: nat, pos: nat)
    requires NonDecreasing(stream) && Stuck(stream, m, p)
    requires CleanUpTo(stream, c, p) && Aligned(c) && 0 < c <= |stream|
    requires Dedup(pending) == pending && |pending| > 1
    requires pending[|pending| - 1].time == Round(stream[c - 1].time, p)
    requires pos <= |Series(stream, p)|
    requires Dedup(pending + RoundAll(stream[c..], p)) == Series(stream, p)[pos..]
    ensures pos < |Series(stream, p)| && Before(stream, m, p, Series(stream, p)[pos].time)
  {
    hide Dedup, OneTime, Stuck, Series, RoundAll, Round, Aligned;
    SeriesOrders(stream, p);
    HeadIsFirst(pending, RoundAll(stream[c..], p), Series(stream, p), pos);
    var q := SeriesFrom(stream, p, pos);
    StuckFits(stream, m, p);
    AlignedGap(c, m);
    RoundOrdered(stream, p, c - 1, 63 * m);
  }

  /** A clean stretch of the stream holds no stuck one. */
  lemma CleanHasNone(stream: seq<Entry>, m: nat, p: int)
    requires Stuck(stream, m, p)
    ensures !CleanUpTo(stream, |stream|, p)
  {
  }

  lemma StuckIsNotClean(stream: seq<Entry>, m: nat, p: int)
    requires Stuck(stream, m, p)
    ensures !Clean(stream, p)
  {
  }

  lemma StuckFits(stream: seq<Entry>, m: nat, p: int)
    requires Stuck(stream, m, p)
    ensures 63 * m + 64 <= |stream|
  {
  }

  lemma AlignedGap(c: nat, m: nat)
    requires Aligned(c) && c < 63 * m + 64
    ensures c <= 63 * m + 1
  {
    if c > 0 {
      var n := (c - 64) / 63;
      assert c == 63 * n + 64;
    }
  }

  /** The first of several pending entries is older than the last of them. */
  lemma HeadIsFirst(pending: seq<Entry>, rest: seq<Entry>, col: seq<Entry>, pos: nat)
    requires Dedup(pending) == pending && |pending| > 1
    requires StrictlyIncreasing(col) && pos <= |col| && Dedup(pending + rest) == col[pos..]
    ensures pos < |col| && col[pos] == pending[0] && col[pos].time < pending[|pending| - 1].time
  {
    hide Dedup;
    DropHead(pending, rest);
    DedupDrop(pending);
    DedupCons(pending[0], pending[1..] + rest);
    var tail := pending[1..] + rest;
    var j := DedupKeepsTimes(tail, |pending| - 2);
    assert tail[|pending| - 2] == pending[|pending| - 1];
    assert col[pos..][j + 1] == Dedup(tail)[j];
  }

  lemma {:induction false} DedupStarts(s: seq<Entry>)
    requires s != []
    ensures Dedup(s)[0].time == s[0].time
  {
    hide Dedup, Push;
    var x, f := s[..|s| - 1], s[|s| - 1];
    SplitLast(s);
    if x == [] {
      assert s == [f];
      DedupOne(f);
    } else {
      DedupSnoc(x, f);
      DedupStarts(x);
      PushKeepsTime(Dedup(x), f, 0);
    }
  }

  /** A column that has just got stuck shows the time it is stuck at. */
  lemma StarvedIsStuck(stream: seq<Entry>, p: int, held: Entry, c: nat, pos: nat) returns (m: nat)
    requires Aligned(c) && StuckAt(stream, c, p)
    requires held.time == Round(stream[c - 1].time, p)
    requires pos <= |Series(stream, p)|
    requires Dedup([held] + RoundAll(stream[c..], p)) == Series(stream, p)[pos..]
    ensures Stuck(stream, m, p)
    ensures pos < |Series(stream, p)| && Series(stream, p)[pos].time == StuckTime(stream, m, p)
  {
    hide Dedup;
    m := (c - 64) / 63;
    assert c == 63 * m + 64;
    var w := RoundAll(stream[c - 64..c], p);
    assert w[0].time == w[63].time;
    DedupStarts([held] + RoundAll(stream[c..], p));
  }

  // ---- All columns ----

  /** A column that gets stuck while no column has ended was to be reached. */
  lemma StuckIsReached(streams: seq<seq<Entry>>, p: int, cols: Columns, pos: seq<nat>, k: nat, m: nat)
    requires InOrder(streams) && |streams| == |cols| && Cursors(cols, pos) && Cut(cols, pos)
    requires forall j :: 0 <= j < |cols| ==> cols[j] == Series(streams[j], p) && pos[j] < |cols[j]|
    requires k < |cols| && Stuck(streams[k], m, p) && cols[k][pos[k]].time == StuckTime(streams[k], m, p)
    ensures WillPanic(streams, p)
  {
    hide Stuck, Series;
    forall j | 0 <= j < |streams| ensures !EndsBefore(streams[k], m, p, streams[j]) {
      NonEmptyStream(streams[j], p);
      SeriesEnds(streams[j], p);
      var end := cols[j][|cols[j]| - 1].time;
      forall q | 0 <= q < |streams[k]| && Round(streams[k][q].time, p) < StuckTime(streams[k], m, p)
        ensures Round(streams[k][q].time, p) < end
      {
        var i := SeriesShows(streams[k], p, q);
        SeriesOrders(streams[k], p);
        SeriesOrders(streams[j], p);
        assert i < pos[k];
        assert cols[k][i].time < cols[j][|cols[j]| - 1].time;
      }
    }
    assert Reached(streams, k, m, p);
  }

  lemma NonEmptyStream(stream: seq<Entry>, p: int)
    requires Series(stream, p) != []
    ensures stream != []
  {
  }

  /** A column that has ended before any got stuck rules every stuck stretch out. */
  lemma EndIsNotReached(streams: seq<seq<Entry>>, p: int, cols: Columns, pos: seq<nat>, used: nat)
    requires |streams| == |cols| && Cursors(cols, pos) && NotYet(streams, p, cols, pos)
    requires used < |cols| && pos[used] == |cols[used]| && cols[used] == Series(streams[used], p)
    ensures !WillPanic(streams, p)
  {
    hide Stuck, Series, Before;
    forall k: nat, m: nat | k < |streams| && Stuck(streams[k], m, p)
      ensures EndsBefore(streams[k], m, p, streams[used])
    {
      if streams[used] != [] {
        SeriesEnds(streams[used], p);
        var end := cols[used][|cols[used]| - 1].time;
        assert Passed(cols, pos, end);
      }
    }
  }

  /** One round over heads that all lie before the stuck stretches. */
  lemma StepStaysBefore(streams: seq<seq<Entry>>, p: int, cols: Columns, pos: seq<nat>, pos': seq<nat>, t: int)
    requires |streams| == |cols| && Cursors(cols, pos) && Cursors(cols, pos') && NotYet(streams, p, cols, pos)
    requires IsEarliest(cols, pos, t)
    requires forall u :: Passed(cols, pos', u) ==> Passed(cols, pos, u) || u == t
    requires forall k: nat, m: nat :: k < |streams| && Stuck(streams[k], m, p) ==>
               Before(streams[k], m, p, cols[k][pos[k]].time)
    ensures NotYet(streams, p, cols, pos')
  {
    hide Stuck, Passed;
    forall k: nat, m: nat, u: int | k < |streams| && Stuck(streams[k], m, p) && Passed(cols, pos', u)
      ensures Before(streams[k], m, p, u)
    {
      if !Passed(cols, pos, u) {
        var q :| 0 <= q < |streams[k]|
          && cols[k][pos[k]].time <= Round(streams[k][q].time, p) < StuckTime(streams[k], m, p);
      }
    }
  }

  // ---- One stream alone ----

  /** A single stream in time order panics exactly when it has a stuck stretch. */
  lemma SingleStream(stream: seq<Entry>, p: int)
    requires NonDecreasing(stream)
    ensures WillPanic([stream], p) <==> !Clean(stream, p)
  {
    hide Stuck;
    if m: nat :| Stuck(stream, m, p) {
      StuckFits(stream, m, p);
      forall q | 0 <= q < |stream| ensures Round(stream[q].time, p) <= Round(stream[|stream| - 1].time, p) {
        RoundOrdered(stream, p, q, |stream| - 1);
      }
      RoundOrdered(stream, p, 63 * m, |stream| - 1);
      assert Reached([stream], 0, m, p);
    }
  }

  /** Sixty-four samples within one period of a thousand, then a later one. */
  function Burst(): (s: seq<Entry>)
    ensures |s| == 65 && s[64].time == 5000 && forall k :: 0 <= k < 64 ==> s[k].time == k
  {
    seq(64, k => Entry(k, Record(k))) + [Entry(5000, Record(64))]
  }

  lemma RoundsToZero(t: int)
    requires 0 <= t < 64
    ensures Round(t, 1000) == 0
  {
  }

  lemma BurstIsStuck()
    ensures Stuck(Burst(), 0, 1000)
  {
    hide Burst, Round;
    var w := RoundAll(Burst()[0..64], 1000);
    forall k | 0 <= k < 64 ensures w[k].time == 0 {
      RoundsToZero(k);
    }
    assert 63 * 0 == 0 && 63 * 0 + 64 == 64;
    assert OneTime(w);
  }

  lemma BurstPanics()
    ensures NonDecreasing(Burst()) && WillPanic([Burst()], 1000)
  {
    hide Burst, Round, WillPanic, Stuck;
    BurstIsStuck();
    SingleStream(Burst(), 1000);
  }
}
