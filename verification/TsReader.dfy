/**
 The readers behind a `tsBatch`, what each kind of them promises about its chunks, and the
 stretches of a stream that a reader which always fills its slice hands out together.
 */
module TsReaders {
  import opened Sequences
  import opened TimeSeries

  const CAPACITY := 64

  datatype ReadStatus = ReadOk | ReadEof | ReadFailed

  /**
   AnyChunks: chunks of any size, any failure.
   TwoTimes: a read without an error leaves two distinct rounded times in the buffer.
   FillsSlice: InfoBundleReader, which fills the slice it is given or reports the end.
   */
  datatype Policy = AnyChunks | TwoTimes(precision: int) | FillsSlice

  class TsReader {
    const policy: Policy
    const ends: ReadStatus         // what a reader that fills its slice reports at the end
    ghost const stream: seq<Entry>
    var unread: seq<Entry>
    ghost var broken: bool         // some read has reported an error other than the end

    constructor (stream: seq<Entry>, policy: Policy, ends: ReadStatus)
      requires !ends.ReadOk?
      ensures this.policy == policy && this.ends == ends && this.stream == unread == stream && !broken
    {
      this.policy, this.ends, this.stream, unread, broken := policy, ends, stream, stream, false;
    }

    ghost predicate Valid()
      reads this
    {
      && !ends.ReadOk? && |unread| <= |stream| && unread == stream[Consumed()..]
      && (broken && policy.FillsSlice? ==> ends.ReadFailed?)
    }

    /** How much of the stream has been handed out. */
    ghost function Consumed(): nat
      requires |unread| <= |stream|
      reads this
    {
      |stream| - |unread|
    }

    /** Hands out the next n entries. */
    method Deliver(buf: array<Entry>, start: nat, n: nat)
      requires Valid() && start + n <= buf.Length && n <= |unread|
      modifies this`unread, buf
      ensures Valid() && unread == old(unread)[n..]
      ensures buf[..start + n] == old(buf[..start]) + old(unread)[..n]
    {
      for k := 0 to n
        invariant unread == old(unread)
        invariant buf[..start] == old(buf[..start])
        invariant forall j :: 0 <= j < k ==> buf[start + j] == unread[j]
      {
        buf[start + k] := unread[k];
      }
      unread := unread[n..];
    }

    /** InfoBundleReader.Read: one entry for each slot, until the stream ends. */
    method FillSlice(buf: array<Entry>, start: nat) returns (n: nat, status: ReadStatus)
      requires Valid() && start <= buf.Length
      modifies this`unread, buf
      ensures Valid() && start + n <= buf.Length && n <= |old(unread)| && unread == old(unread)[n..]
      ensures buf[..start + n] == old(buf[..start]) + old(unread)[..n]
      ensures n == (if |old(unread)| < buf.Length - start then |old(unread)| else buf.Length - start)
      ensures status == if start + n == buf.Length then ReadOk else ends
    {
      n := 0;
      while start + n < buf.Length
        invariant start + n <= buf.Length && n <= |old(unread)| && unread == old(unread)[n..]
        invariant Valid() && buf[..start] == old(buf[..start])
        invariant forall j :: 0 <= j < n ==> buf[start + j] == old(unread)[j]
      {
        if unread == [] {
          status := ends;
          return;
        }
        DropOneMore(old(unread), n);
        DropOneMore(stream, Consumed());
        buf[start + n] := unread[0];
        unread := unread[1..];
        n := n + 1;
      }
      status := ReadOk;
    }

    /** Any TSBatchReader: some number of the next entries, and EOF only when none is left. */
    method Read(buf: array<Entry>, start: nat) returns (n: nat, status: ReadStatus)
      requires Valid() && start <= buf.Length
      modifies this, buf
      ensures Valid() && n <= buf.Length - start && n <= |old(unread)|
      ensures unread == old(unread)[n..]
      ensures buf[..start + n] == old(buf[..start]) + old(unread)[..n]
      ensures status.ReadEof? ==> unread == []
      ensures policy.TwoTimes? && status.ReadOk? ==> !OneTime(RoundAll(buf[..start + n], policy.precision))
      ensures policy.FillsSlice? ==> status == if start + n == buf.Length then ReadOk else ends
      ensures policy.FillsSlice? && !status.ReadOk? ==> unread == []
      ensures broken == (old(broken) || status.ReadFailed?)
    {
      hide OneTime;
      if policy.FillsSlice? {
        n, status := FillSlice(buf, start);
      } else {
        n :| 0 <= n <= |unread| && n <= buf.Length - start;
        Deliver(buf, start, n);
        var ok := *;
        status := if ok then ReadOk else if unread == [] then ReadEof else ReadFailed;
        if ok && policy.TwoTimes? {
          var one := SameTimes(buf, start + n, policy.precision);
          if one {
            status := ReadFailed;
          }
        }
      }
      broken := broken || status.ReadFailed?;
    }

    method SameTimes(buf: array<Entry>, num: nat, precision: int) returns (one: bool)
      requires num <= buf.Length
      ensures one <==> OneTime(RoundAll(buf[..num], precision))
    {
      for k := 0 to num
        invariant forall j :: 0 <= j < k ==> Round(buf[j].time, precision) == Round(buf[0].time, precision)
      {
        if Round(buf[k].time, precision) != Round(buf[0].time, precision) {
          assert RoundAll(buf[..num], precision)[k].time != RoundAll(buf[..num], precision)[0].time;
          return false;
        }
      }
      one := true;
    }
  }

  // ---- The stretches a slice-filling reader hands out ----

  /** Sixty-four samples that round to one time, at a place where they end up in one buffer. */
  ghost predicate Stuck(stream: seq<Entry>, m: nat, p: int) {
    63 * m + 64 <= |stream| && OneTime(RoundAll(stream[63 * m..63 * m + 64], p))
  }

  /** The last 64 of the first c samples round to one time. */
  ghost predicate StuckAt(stream: seq<Entry>, c: nat, p: int) {
    64 <= c <= |stream| && OneTime(RoundAll(stream[c - 64..c], p))
  }

  /** None among the first c samples. */
  ghost predicate CleanUpTo(stream: seq<Entry>, c: nat, p: int) {
    forall m: nat :: 63 * m + 64 <= c ==> !Stuck(stream, m, p)
  }

  ghost predicate Clean(stream: seq<Entry>, p: int) {
    forall m: nat :: !Stuck(stream, m, p)
  }

  /** Where one read ends and the next begins: 0, 64, 127, 190, ... */
  ghost predicate Aligned(c: nat) {
    c == 0 || (c >= 64 && (c - 64) % 63 == 0)
  }

  ghost function NextCut(c: nat): nat {
    if c == 0 then 64 else c + 63
  }

  lemma NextIsAligned(c: nat)
    requires Aligned(c)
    ensures Aligned(NextCut(c))
  {
  }

  /** One more read adds one more stretch. */
  lemma CleanStep(stream: seq<Entry>, c: nat, p: int)
    requires Aligned(c) && NextCut(c) <= |stream|
    ensures var n := NextCut(c);
            CleanUpTo(stream, n, p) <==> CleanUpTo(stream, c, p) && !StuckAt(stream, n, p)
  {
    hide OneTime;
    var n := NextCut(c);
    var last := (n - 64) / 63;
    assert n == 63 * last + 64;
    assert Stuck(stream, last, p) <==> StuckAt(stream, n, p);
    if CleanUpTo(stream, c, p) && !Stuck(stream, last, p) {
      forall m: nat | 63 * m + 64 <= n ensures !Stuck(stream, m, p) {
        assert m == last || 63 * m + 64 <= c;
      }
    }
  }

  /** A last, short read adds none. */
  lemma CleanEnd(stream: seq<Entry>, c: nat, p: int)
    requires Aligned(c) && c <= |stream| < NextCut(c)
    ensures CleanUpTo(stream, |stream|, p) <==> CleanUpTo(stream, c, p)
  {
    hide Stuck;
    forall m: nat | 63 * m + 64 <= |stream| ensures 63 * m + 64 <= c {
    }
  }

  /** What a buffer carries over after c samples: nothing at first, then the last one's time. */
  ghost predicate CarriedFrom(carried: seq<Entry>, stream: seq<Entry>, c: nat, p: int) {
    && Aligned(c) && c <= |stream|
    && |carried| == (if c == 0 then 0 else 1)
    && (c > 0 ==> carried[0].time == Round(stream[c - 1].time, p))
  }

  /** The carried entry stands for the last sample of the stretch before. */
  lemma CarriedWindow(carried: seq<Entry>, stream: seq<Entry>, c: nat, p: int)
    requires CarriedFrom(carried, stream, c, p) && NextCut(c) <= |stream|
    ensures var n := NextCut(c);
            OneTime(carried + RoundAll(stream[c..n], p)) <==> StuckAt(stream, n, p)
  {
    var n := NextCut(c);
    var a, b := carried + RoundAll(stream[c..n], p), RoundAll(stream[n - 64..n], p);
    assert |a| == |b| == 64;
    forall k | 0 <= k < 64 ensures a[k].time == b[k].time {
      if c > 0 && k > 0 {
        assert a[k] == RoundAll(stream[c..n], p)[k - 1];
        assert stream[c..n][k - 1] == stream[n - 64..n][k];
      }
    }
    SameTimesOneTime(a, b);
  }

  lemma SameTimesOneTime(a: seq<Entry>, b: seq<Entry>)
    requires |a| == |b| && forall k :: 0 <= k < |a| ==> a[k].time == b[k].time
    ensures OneTime(a) <==> OneTime(b)
  {
  }
}
