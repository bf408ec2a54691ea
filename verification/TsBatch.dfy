/**
 The 64-slot buffer between a reader and the merger (`tsBatch`): it reads chunks, rounds and
 deduplicates them in place, and holds back its last entry until it knows that no newer
 sample shares its timestamp. The parallel arrays of times and data are one array of entries.
 */
module TsBatching {
  import opened Sequences
  import opened TimeSeries
  import opened TsReaders

  method RoundInPlace(buf: array<Entry>, num: nat, precision: int)
    requires num <= buf.Length
    modifies buf
    ensures buf[..num] == RoundAll(old(buf[..num]), precision)
    ensures forall k :: 0 <= k < num ==>
      IsRounded(buf[k].time, old(buf[k].time), precision) && buf[k].data == old(buf[k].data)
    ensures forall k :: num <= k < buf.Length ==> buf[k] == old(buf[k])
  {
    hide IsRounded;
    ghost var s := buf[..num];
    for i := 0 to num
      invariant forall k :: 0 <= k < i ==> buf[k] == Entry(Round(s[k].time, precision), s[k].data)
      invariant forall k :: i <= k < buf.Length ==> buf[k] == old(buf[k])
      invariant forall k :: 0 <= k < i ==>
        IsRounded(buf[k].time, old(buf[k].time), precision) && buf[k].data == old(buf[k].data)
    {
      RoundIsNearest(buf[i].time, precision);
      buf[i] := Entry(Round(buf[i].time, precision), buf[i].data);
    }
  }

  /** Squeezes superseded entries out of the first num, in place. */
  method DedupInPlace(buf: array<Entry>, num: nat) returns (count: nat)
    requires num <= buf.Length
    modifies buf
    ensures count <= num
    ensures buf[..count] == Dedup(old(buf[..num]))
  {
    hide Dedup, Push;
    ghost var s := buf[..num];
    ghost var kept: seq<Entry> := [];
    var last := -1;
    for i := 0 to num
      invariant -1 <= last < i && |kept| == last + 1
      invariant i > 0 ==> last >= 0
      invariant forall k :: i <= k < num ==> buf[k] == s[k]
      invariant forall k :: 0 <= k <= last ==> buf[k] == kept[k]
      invariant kept == Kept(s, i)
    {
      if last < 0 || buf[last].time != buf[i].time {
        last := last + 1;
      }
      buf[last] := buf[i];
      PushAt(kept, s[i]);
      kept := Push(kept, s[i]);
    }
    KeptIsDedup(s, num);
    assert s[..num] == s;
    count := last + 1;
    assert buf[..count] == kept;
  }

  /** Rounds and deduplicates what has been read. */
  method Settle(buf: array<Entry>, num: nat, precision: int) returns (count: nat)
    requires num <= buf.Length
    modifies buf
    ensures count <= num && buf[..count] == Series(old(buf[..num]), precision)
  {
    hide Dedup, RoundAll;
    RoundInPlace(buf, num, precision);
    count := DedupInPlace(buf, num);
  }

  lemma PushAt(d: seq<Entry>, e: Entry)
    ensures |Push(d, e)| == if d != [] && d[|d| - 1].time == e.time then |d| else |d| + 1
    ensures forall k :: 0 <= k < |Push(d, e)| - 1 ==> Push(d, e)[k] == d[k]
  {
  }

  /** What the scan has kept after i entries. */
  ghost function Kept(s: seq<Entry>, i: nat): seq<Entry>
    requires i <= |s|
  {
    if i == 0 then [] else Push(Kept(s, i - 1), s[i - 1])
  }

  lemma {:induction false} KeptIsDedup(s: seq<Entry>, i: nat)
    requires i <= |s|
    ensures Kept(s, i) == Dedup(s[..i])
  {
    if i > 0 {
      KeptIsDedup(s, i - 1);
      TakeSnoc(s, i - 1);
      DedupSnoc(s[..i - 1], s[i - 1]);
    }
  }

  /** A buffer content that needs no further rounding or deduplication. */
  ghost predicate Settled(s: seq<Entry>, precision: int) {
    Dedup(s) == s && RoundAll(s, precision) == s
  }

  class TsBatch {
    const buf: array<Entry>
    var i: nat
    var num: nat
    var sawEof: bool

    var last: Datum
    var hasLast: bool

    constructor ()
      ensures fresh(buf) && buf.Length == CAPACITY
      ensures i == num == 0 && !sawEof && !hasLast
    {
      buf := new Entry[CAPACITY](_ => Entry(0, Nil));
      i, num, sawEof := 0, 0, false;
      last, hasLast := Nil, false;
    }

    /** Entries buffered and not yet passed. */
    ghost function Pending(): seq<Entry>
      requires i <= num <= buf.Length
      reads this, buf
    {
      buf[i..num]
    }

    ghost predicate Valid(r: TsReader, precision: int)
      reads this, buf, r
    {
      && r.Valid()
      && i <= num <= buf.Length == CAPACITY
      && Settled(Pending(), precision)
      && (sawEof ==> r.unread == [])
      && (!sawEof ==> i < num || i == num == 0)
      && (r.policy.FillsSlice? && !sawEof ==> Sliced(r, precision))
    }

    /** Behind a reader that fills its slice, every read ends at a known place in the stream. */
    ghost predicate Sliced(r: TsReader, precision: int)
      requires r.Valid() && num <= buf.Length
      reads this, buf, r
    {
      && Aligned(r.Consumed())
      && (num == 0 <==> r.Consumed() == 0)
      && (num > 0 ==> buf[num - 1].time == Round(r.stream[r.Consumed() - 1].time, precision))
    }

    /** The part of the reader's series that has not been passed yet. */
    ghost function Remaining(r: TsReader, precision: int): seq<Entry>
      requires i <= num <= buf.Length
      reads this, buf, r
    {
      Dedup(Pending() + RoundAll(r.unread, precision))
    }

    /** A successful read that still leaves no entry safe to hand out. */
    ghost predicate Starved()
      reads this
    {
      !sawEof && i == 0 && num < 2
    }

    predicate Done()
      reads this
    {
      i >= num && sawEof
    }

    /** `checkIndex` passes: the current entry may be handed out. */
    predicate IndexOk()
      reads this
    {
      i + 1 < num || (i + 1 == num && sawEof)
    }

    method ReadIfNeeded(r: TsReader, precision: int) returns (failed: bool)
      requires Valid(r, precision)
      modifies this`i, this`num, this`sawEof, buf, r
      ensures !failed ==> Valid(r, precision) && Remaining(r, precision) == old(Remaining(r, precision))
      ensures !failed ==> IndexOk() || Done() || Starved()
      ensures |r.unread| <= |old(r.unread)| && r.Valid()
      ensures !failed && !sawEof ==>
                (Starved() <==> OneTime(old(Pending()) + RoundAll(r.stream[old(r.Consumed())..r.Consumed()], precision)))
      ensures !failed && r.policy == TwoTimes(precision) ==> !Starved()
      ensures !failed && r.policy.FillsSlice? ==>
                (CleanUpTo(r.stream, r.Consumed(), precision) <==>
                  old(CleanUpTo(r.stream, r.Consumed(), precision)) && !Starved())
      ensures !failed && r.policy.FillsSlice? && Starved() ==> StuckAt(r.stream, r.Consumed(), precision)
      ensures r.broken == (old(r.broken) || failed)
    {
      hide Dedup, OneTime, CleanUpTo, StuckAt, Aligned, Series, RoundAll, Sliced;
      failed := false;
      if i + 1 < num {
        TwoTimesPending(Pending(), r.stream, r.Consumed(), precision);
        return;
      }
      if i + 1 >= num && sawEof {
        return;
      }
      ghost var carried, c := Pending(), r.Consumed();
      CarriedSlice(r, precision);
      failed := Refill(r, precision);
      if !failed {
        RoundAllAppends(carried, r.stream[c..r.Consumed()], precision);
        FilledIsShort(r, carried, c, precision);
        if r.policy.FillsSlice? {
          RefilledSlice(r, carried, c, precision);
        }
        RefilledSeries(r, carried, c, precision);
      }
    }

    lemma CarriedSlice(r: TsReader, precision: int)
      requires Valid(r, precision) && i + 1 >= num && !sawEof
      ensures r.policy.FillsSlice? ==> CarriedFrom(Pending(), r.stream, r.Consumed(), precision)
    {
    }

    /** What a refill leaves in the buffer, given what was carried over. */
    ghost predicate FilledFrom(r: TsReader, carried: seq<Entry>, c: nat, precision: int)
      reads this, buf, r
    {
      && r.Valid() && i == 0 && num <= buf.Length == CAPACITY && c <= r.Consumed()
      && (sawEof ==> r.unread == [])
      && Pending() == Series(carried + r.stream[c..r.Consumed()], precision)
    }

    lemma FilledIsShort(r: TsReader, carried: seq<Entry>, c: nat, precision: int)
      requires FilledFrom(r, carried, c, precision) && RoundAll(carried, precision) == carried
      ensures num < 2 <==> OneTime(carried + RoundAll(r.stream[c..r.Consumed()], precision))
    {
      hide Dedup, OneTime, Series, RoundAll, Settled;
      RefillKeepsSeries(carried, r.stream, c, r.Consumed(), precision);
    }

    /** After a refill the buffer stands for the same series. */
    lemma RefilledSeries(r: TsReader, carried: seq<Entry>, c: nat, precision: int)
      requires FilledFrom(r, carried, c, precision) && RoundAll(carried, precision) == carried
      requires r.policy.FillsSlice? && !sawEof ==> Sliced(r, precision)
      ensures Valid(r, precision)
      ensures Remaining(r, precision) == Dedup(carried + RoundAll(r.stream[c..], precision))
    {
      hide Dedup, OneTime, Series, RoundAll, Settled, Sliced;
      RefillKeepsSeries(carried, r.stream, c, r.Consumed(), precision);
    }

    /** After a refill by a reader that fills its slice. */
    lemma RefilledSlice(r: TsReader, carried: seq<Entry>, c: nat, precision: int)
      requires FilledFrom(r, carried, c, precision) && CarriedFrom(carried, r.stream, c, precision)
      requires var filled := |carried| + r.Consumed() - c;
               filled <= CAPACITY && (!sawEof <==> filled == CAPACITY)
      requires num < 2 <==> OneTime(carried + RoundAll(r.stream[c..r.Consumed()], precision))
      ensures !sawEof ==> Sliced(r, precision)
      ensures CleanUpTo(r.stream, r.Consumed(), precision) <==> CleanUpTo(r.stream, c, precision) && !Starved()
      ensures Starved() ==> StuckAt(r.stream, r.Consumed(), precision)
    {
      hide Dedup, OneTime, CleanUpTo, StuckAt, Aligned, Series, RoundAll, CarriedFrom, Round;
      SliceRead(carried, r.stream, c, r.Consumed(), sawEof, precision);
      assert num > 0 ==> Pending()[num - 1] == buf[num - 1];
    }

    /** Moves the one entry still held, if any, to the front of the buffer. */
    method CarryOver() returns (start: nat)
      requires i <= num <= buf.Length && i + 1 >= num && (i < num || num == 0)
      modifies buf
      ensures start <= 1 && start <= buf.Length && buf[..start] == old(Pending())
    {
      start := 0;
      if num > 0 {
        assert num - 1 == i;  // the "impossible state" panic
        buf[0] := buf[i];
        start := 1;
      }
    }

    method Refill(r: TsReader, precision: int) returns (failed: bool)
      requires Valid(r, precision) && i + 1 >= num && !sawEof
      modifies this`i, this`num, this`sawEof, buf, r
      ensures r.Valid() && |r.unread| <= |old(r.unread)| && r.broken == (old(r.broken) || failed)
      ensures !failed ==> FilledFrom(r, old(Pending()), old(r.Consumed()), precision)
      ensures !failed ==>
                var filled := old(Pending()) + r.stream[old(r.Consumed())..r.Consumed()];
                && (r.policy == TwoTimes(precision) && !sawEof ==> !OneTime(RoundAll(filled, precision)))
                && (r.policy.FillsSlice? ==>
                      |filled| <= CAPACITY && (!sawEof <==> |filled| == CAPACITY))
    {
      hide Dedup, OneTime, Settled, Sliced, RoundAll, Series;
      var start := CarryOver();
      ghost var c := r.Consumed();
      var n, status := r.Read(buf, start);
      DropTwice(r.stream, c, n);
      failed := status.ReadFailed?;
      if !failed {
        sawEof := status.ReadEof?;
        num := Settle(buf, start + n, precision);
        i := 0;
      }
    }

    /** `checkIndex`: false where the source panics. */
    method CheckIndex() returns (ok: bool)
      ensures ok == IndexOk()
    {
      if i >= num - 1 {
        if i == num - 1 {
          if !sawEof {
            return false;
          }
        } else {
          return false;
        }
      }
      return true;
    }

    /** The time at the head of what remains of the series. */
    method CurTime(ghost r: TsReader, ghost precision: int) returns (ok: bool, t: int)
      requires Valid(r, precision)
      ensures ok <==> IndexOk()
      ensures ok ==> Remaining(r, precision) != [] && t == Remaining(r, precision)[0].time
      ensures !ok && sawEof ==> Remaining(r, precision) == []
    {
      hide Dedup, Settled, RoundAll, Sliced;
      t := 0;
      ok := CheckIndex();
      if ok {
        HeadOfRemaining(Pending(), r.unread, precision);
        t := buf[i].time;
      } else if sawEof {
        NothingRemains(Pending(), r.unread, precision);
      }
    }

    /** The sample at the head of what remains of the series. */
    method CurData(ghost r: TsReader, ghost precision: int) returns (ok: bool, d: Datum)
      requires Valid(r, precision)
      ensures ok <==> IndexOk()
      ensures ok ==> Remaining(r, precision) != [] && d == Remaining(r, precision)[0].data
      ensures !ok && sawEof ==> Remaining(r, precision) == []
    {
      hide Dedup, Settled, RoundAll, Sliced;
      d := Nil;
      ok := CheckIndex();
      if ok {
        HeadOfRemaining(Pending(), r.unread, precision);
        d := buf[i].data;
      } else if sawEof {
        NothingRemains(Pending(), r.unread, precision);
      }
    }

    method Advance(ghost r: TsReader, ghost precision: int)
      requires Valid(r, precision) && IndexOk()
      modifies this`i
      ensures i == old(i) + 1
      ensures Valid(r, precision)
      ensures Remaining(r, precision) == old(Remaining(r, precision))[1..]
    {
      hide Dedup;
      HeadOfRemaining(Pending(), r.unread, precision);
      ghost var pending := Pending();
      i := i + 1;
      assert Pending() == pending[1..];
    }

    /** Shows the current entry to the merger, remembers it for later rows, and moves on. */
    method Take(ghost r: TsReader, ghost precision: int) returns (d: Datum)
      requires Valid(r, precision) && IndexOk()
      modifies this`i, this`last, this`hasLast
      ensures Valid(r, precision)
      ensures old(Remaining(r, precision)) != [] && d == last == old(Remaining(r, precision))[0].data
      ensures hasLast && !Starved()
      ensures Remaining(r, precision) == old(Remaining(r, precision))[1..]
    {
      hide Dedup, Settled, RoundAll;
      var _, shown := CurData(r, precision);
      d := shown;
      last := d;
      hasLast := true;
      Advance(r, precision);
    }
  }

  /** The entry handed out is the head of the remaining series, and passing it leaves the rest. */
  lemma HeadOfRemaining(pending: seq<Entry>, unread: seq<Entry>, p: int)
    requires Settled(pending, p)
    requires |pending| > 1 || (|pending| == 1 && unread == [])
    ensures var remaining := Dedup(pending + RoundAll(unread, p));
            && remaining != [] && remaining[0] == pending[0]
            && remaining[1..] == Dedup(pending[1..] + RoundAll(unread, p))
    ensures Settled(pending[1..], p)
  {
    hide Dedup;
    var rest := RoundAll(unread, p);
    DedupDrop(pending);
    DropHead(pending, rest);
    if |pending| > 1 {
      DedupCons(pending[0], pending[1..] + rest);
    }
    forall k | 0 <= k < |pending[1..]| ensures RoundAll(pending[1..], p)[k] == pending[1..][k] {
      assert RoundAll(pending, p)[k + 1] == pending[k + 1];
    }
  }

  lemma NothingRemains(pending: seq<Entry>, unread: seq<Entry>, p: int)
    requires pending == [] && unread == []
    ensures Dedup(pending + RoundAll(unread, p)) == []
  {
  }

  /** One read by a reader that fills its slice: where it ends, and what it adds. */
  lemma SliceRead(carried: seq<Entry>, stream: seq<Entry>, c: nat, d: nat, eof: bool, p: int)
    requires CarriedFrom(carried, stream, c, p) && c <= d <= |stream|
    requires |carried| + d - c <= CAPACITY && (!eof <==> |carried| + d - c == CAPACITY)
    requires eof ==> d == |stream|
    ensures !eof ==> d > 0 && Aligned(d)
    ensures var buffer := Series(carried + stream[c..d], p);
            !eof ==> buffer != [] && buffer[|buffer| - 1].time == Round(stream[d - 1].time, p)
    ensures CleanUpTo(stream, d, p) <==>
              CleanUpTo(stream, c, p) && (eof || !OneTime(carried + RoundAll(stream[c..d], p)))
    ensures !eof ==> (OneTime(carried + RoundAll(stream[c..d], p)) <==> StuckAt(stream, d, p))
  {
    hide OneTime, CleanUpTo, Dedup, RoundAll, StuckAt;
    if eof {
      CleanEnd(stream, c, p);
    } else {
      NextIsAligned(c);
      CleanStep(stream, c, p);
      CarriedWindow(carried, stream, c, p);
      SliceEnds(carried, stream, c, d, p);
    }
  }

  /** The newest entry of a refilled buffer carries the time of the last sample read. */
  lemma SliceEnds(carried: seq<Entry>, stream: seq<Entry>, c: nat, d: nat, p: int)
    requires c < d <= |stream|
    ensures var buffer := Series(carried + stream[c..d], p);
            buffer != [] && buffer[|buffer| - 1].time == Round(stream[d - 1].time, p)
  {
    var filled := carried + stream[c..d];
    assert filled[|filled| - 1] == stream[d - 1];
  }

  lemma TwoTimesPending(pending: seq<Entry>, stream: seq<Entry>, c: nat, p: int)
    requires Settled(pending, p) && |pending| > 1 && c <= |stream|
    ensures !OneTime(pending + RoundAll(stream[c..c], p))
  {
    hide Dedup;
    DedupDrop(pending);
    assert pending + RoundAll(stream[c..c], p) == pending;
  }

  /** One refill: carry-over plus chunk, rounded and deduplicated, stands for the same series. */
  lemma RefillKeepsSeries(carried: seq<Entry>, stream: seq<Entry>, c: nat, d: nat, p: int)
    requires c <= d <= |stream|
    requires RoundAll(carried, p) == carried
    ensures var buffer := Series(carried + stream[c..d], p);
            && Settled(buffer, p)
            && Dedup(buffer + RoundAll(stream[d..], p)) == Dedup(carried + RoundAll(stream[c..], p))
            && (|buffer| < 2 <==> OneTime(carried + RoundAll(stream[c..d], p)))
  {
    hide Dedup, OneTime;
    var filled := carried + stream[c..d];
    var x := RoundAll(filled, p);
    RoundAllAppends(carried, stream[c..d], p);
    DedupIdempotent(x);
    SeriesIsRounded(filled, p);
    DedupIsShortIffOneTime(x);
    var rest := RoundAll(stream[d..], p);
    DedupAbsorbsPrefix(x, rest);
    Regroup(carried, RoundAll(stream[c..d], p), rest);
    RoundAllAppends(stream[c..d], stream[d..], p);
    assert stream[c..d] + stream[d..] == stream[c..];
  }

  lemma RoundAllAppends(a: seq<Entry>, b: seq<Entry>, p: int)
    ensures RoundAll(a + b, p) == RoundAll(a, p) + RoundAll(b, p)
  {
  }

  lemma SeriesIsRounded(s: seq<Entry>, p: int)
    ensures RoundAll(Series(s, p), p) == Series(s, p)
  {
    hide Dedup;
    var x := RoundAll(s, p);
    DedupSelects(x);
    forall k | 0 <= k < |Dedup(x)| ensures Round(Dedup(x)[k].time, p) == Dedup(x)[k].time {
      assert Dedup(x)[k] in x;
      var j :| 0 <= j < |x| && x[j] == Dedup(x)[k];
      RoundIdempotent(s[j].time, p);
    }
  }
}
