/**
 `TSMerger`: repeated calls of Next sweep the sample-and-hold join of all readers, whatever
 chunks the readers deliver.
 */
module TsMerging {
  import opened Sequences
  import opened TimeSeries
  import opened TsReaders
  import opened TsBatching
  import opened SeriesJoin
  import opened MergePanics

  /** What a call of Next does: a row, the end (or an error), or one of the checkIndex panics. */
  datatype NextResult = NextRow | NextEnd | NextPanic

  /** What one round of its loop does: decides the call, or passes a time that has no row. */
  datatype RoundResult = Finished(result: NextResult) | Again

  ghost function TotalLeft(cols: Columns, pos: seq<nat>): nat
    requires Cursors(cols, pos)
  {
    if cols == [] then 0 else |cols[0]| - pos[0] + TotalLeft(cols[1..], pos[1..])
  }

  lemma {:induction false} StepUsesUp(cols: Columns, pos: seq<nat>, pos': seq<nat>, t: int)
    requires Cursors(cols, pos) && Cursors(cols, pos') && Stepped(cols, pos, pos', t)
    ensures TotalLeft(cols, pos') <= TotalLeft(cols, pos)
    ensures (exists k :: 0 <= k < |cols| && pos'[k] > pos[k]) ==> TotalLeft(cols, pos') < TotalLeft(cols, pos)
  {
    if cols != [] {
      StepUsesUp(cols[1..], pos[1..], pos'[1..], t);
      if k :| 0 <= k < |cols| && pos'[k] > pos[k] {
        assert k > 0 ==> pos'[1..][k - 1] > pos[1..][k - 1];
      }
    }
  }

  /** The series that the readers' streams stand for. */
  ghost function AllSeries(streams: seq<seq<Entry>>, p: int): (cols: Columns)
    ensures |cols| == |streams|
    ensures forall k :: 0 <= k < |cols| ==> cols[k] == Series(streams[k], p)
  {
    seq(|streams|, k requires 0 <= k < |streams| => Series(streams[k], p))
  }

  lemma OrderedSeries(streams: seq<seq<Entry>>, p: int)
    requires InOrder(streams)
    ensures Ordered(AllSeries(streams, p))
  {
    forall k | 0 <= k < |streams| ensures StrictlyIncreasing(AllSeries(streams, p)[k]) {
      SeriesOrders(streams[k], p);
    }
  }

  lemma NothingSettled(p: int)
    ensures Settled([], p)
  {
  }

  ghost predicate FreshBatch(b: TsBatch)
    reads b
  {
    b.buf.Length == CAPACITY && b.i == b.num == 0 && !b.sawEof && !b.hasLast
  }

  method MakeBatches(n: nat) returns (batches: seq<TsBatch>)
    ensures |batches| == n && fresh(batches)
    ensures forall k :: 0 <= k < n ==> FreshBatch(batches[k]) && fresh(batches[k].buf)
    ensures forall j, k :: 0 <= j < k < n ==> batches[j] != batches[k] && batches[j].buf != batches[k].buf
  {
    batches := [];
    for i := 0 to n
      invariant |batches| == i && fresh(batches)
      invariant forall k :: 0 <= k < i ==> FreshBatch(batches[k]) && fresh(batches[k].buf)
      invariant forall j, k :: 0 <= j < k < i ==> batches[j] != batches[k] && batches[j].buf != batches[k].buf
    {
      var b := new TsBatch();
      batches := batches + [b];
    }
  }

  class TsMerger {
    const precision: int
    const readers: seq<TsReader>
    const cur: seq<TsBatch>
    var failed: bool

    ghost const streams: seq<seq<Entry>>
    ghost const cols: Columns      // the series the readers stand for
    ghost var pos: seq<nat>        // how much of each has been passed
    ghost var rows: seq<Row>       // the rows returned so far

    /** NewTSMerger, over readers that nobody has read from yet. */
    constructor (precision: int, readers: seq<TsReader>)
      requires forall k :: 0 <= k < |readers| ==> readers[k].Valid() && readers[k].Consumed() == 0 && !readers[k].broken
      requires forall j, k :: 0 <= j < k < |readers| ==> readers[j] != readers[k]
      ensures Valid() && Calm() && !failed && rows == []
      ensures this.precision == precision && this.readers == readers && fresh(cur) && fresh(Buffers())
      ensures |streams| == |readers| && forall k :: 0 <= k < |readers| ==> streams[k] == readers[k].stream
      ensures cols == AllSeries(streams, precision)
      ensures InOrder(streams) ==> Ordered(cols)
    {
      hide Series, Dedup, InOrder, Ordered, ColumnAt, RoundAll, Cut, Partial, NotYet, CleanUpTo;
      var batches := MakeBatches(|readers|);
      this.precision, this.readers, cur, failed := precision, readers, batches, false;
      streams := seq(|readers|, k requires 0 <= k < |readers| => readers[k].stream);
      cols := AllSeries(seq(|readers|, k requires 0 <= k < |readers| => readers[k].stream), precision);
      pos, rows := seq(|readers|, _ => 0), [];
      new;
      if InOrder(streams) {
        OrderedSeries(streams, precision);
      }
      NothingPassed(cols, pos, streams, precision);
      forall k | 0 <= k < |cur| ensures ColumnAt(k, pos[k]) {
        FreshColumn(k);
      }
    }

    lemma FreshColumn(k: nat)
      requires Separate() && Named() && k < |cur| && FreshBatch(cur[k])
      requires readers[k].Valid() && readers[k].Consumed() == 0
      ensures ColumnAt(k, 0)
    {
      hide RoundAll, Dedup;
      var stream := readers[k].stream;
      assert stream[0..] == stream && cols[k][0..] == cols[k];
      assert cur[k].Pending() == [];
      assert [] + RoundAll(stream, precision) == RoundAll(stream, precision);
      NothingSettled(precision);
    }

    ghost function Buffers(): set<object> {
      set k | 0 <= k < |cur| :: cur[k].buf
    }

    /** The streams are the readers', and the columns are their series. */
    ghost predicate Named() {
      && |readers| == |cols| == |streams|
      && (forall k :: 0 <= k < |readers| ==> streams[k] == readers[k].stream)
      && (forall k :: 0 <= k < |readers| ==> cols[k] == Series(streams[k], precision))
    }

    ghost predicate Separate() {
      && |readers| == |cur| == |cols| == |streams|
      && (forall j, k :: 0 <= j < k < |cur| ==> cur[j] != cur[k] && cur[j].buf != cur[k].buf)
      && (forall j, k :: 0 <= j < k < |readers| ==> readers[j] != readers[k])
    }

    /** Column k: its batch and reader still hold exactly what lies ahead of the cursor. */
    ghost predicate ColumnAt(k: nat, p: nat)
      requires Separate() && k < |cur|
      reads cur[k], cur[k].buf, readers[k]
    {
      && p <= |cols[k]|
      && cur[k].Valid(readers[k], precision)
      && cur[k].Remaining(readers[k], precision) == cols[k][p..]
      && cur[k].hasLast == (p > 0)
      && (p > 0 ==> cur[k].last == cols[k][p - 1].data)
    }

    /** The merge has failed exactly if some reader has; one that ends properly never does. */
    ghost predicate Blamed()
      reads this`failed, readers
    {
      && (failed <==> exists k :: 0 <= k < |readers| && readers[k].broken)
      && (forall k :: 0 <= k < |readers| && readers[k].broken && readers[k].policy.FillsSlice? ==> readers[k].ends.ReadFailed?)
    }

    ghost predicate AllEndProperly() {
      forall k :: 0 <= k < |readers| ==> readers[k].policy.FillsSlice? && readers[k].ends.ReadEof?
    }

    /** The buffers agree with the cursors. */
    ghost predicate Linked()
      reads this`pos, this`failed, readers, cur, Buffers()
    {
      && Separate()
      && |pos| == |cur| && Blamed()
      && (!failed ==> forall k :: 0 <= k < |cur| ==> ColumnAt(k, pos[k]))
    }

    /** Column k has been through ReadIfNeeded. */
    ghost predicate Fed(k: nat)
      requires k < |cur|
      reads cur[k]
    {
      cur[k].Done() || cur[k].IndexOk() || cur[k].Starved()
    }

    /** What reader k has handed out holds no stretch that leaves its buffer with one time. */
    ghost predicate CleanAt(k: nat)
      requires k < |readers|
      reads readers[k]
    {
      readers[k].policy.FillsSlice? ==>
        readers[k].Valid() && CleanUpTo(readers[k].stream, readers[k].Consumed(), precision)
    }

    method FillOne(i: nat)
      requires Linked() && !failed && i < |cur|
      modifies this`failed, readers[i], cur[i], cur[i].buf
      ensures Linked()
      ensures !failed ==> Fed(i)
      ensures !failed && old(CleanAt(i)) ==> Served(i)
      ensures !failed && readers[i].policy == TwoTimes(precision) ==> !cur[i].Starved()
    {
      hide Dedup, Settled, OneTime, RoundAll, CleanUpTo, Series;
      assert ColumnAt(i, pos[i]);
      failed := cur[i].ReadIfNeeded(readers[i], precision);
      assert Blamed() by {
        assert failed ==> readers[i].broken;
        assert forall k :: 0 <= k < |readers| && k != i ==> readers[k].broken == old(readers[k].broken);
      }
      if !failed {
        assert ColumnAt(i, pos[i]);
        forall k | 0 <= k < |cur| ensures ColumnAt(k, pos[k]) {
          if k != i {
            assert old(ColumnAt(k, pos[k]));
          }
        }
      }
    }

    /** What a column's kind of reader makes of a read: whether the column can show an entry. */
    ghost predicate Served(k: nat)
      requires k < |readers| == |cur|
      reads cur[k], readers[k]
    {
      && (readers[k].policy == TwoTimes(precision) ==> !cur[k].Starved())
      && (readers[k].policy.FillsSlice? ==> (CleanAt(k) <==> !cur[k].Starved()))
      && (readers[k].policy.FillsSlice? && cur[k].Starved() ==>
            readers[k].Valid() && StuckAt(readers[k].stream, readers[k].Consumed(), precision))
    }

    ghost function CleanFlags(): (clean: seq<bool>)
      reads readers
      ensures |clean| == |readers| && forall k :: 0 <= k < |readers| ==> clean[k] == CleanAt(k)
    {
      seq(|readers|, k requires 0 <= k < |readers| reads readers => CleanAt(k))
    }

    /** Column k after its read, given whether its reader was clean before. */
    ghost predicate Filled(k: nat, wasClean: bool)
      requires k < |readers| == |cur|
      reads cur[k], readers[k]
    {
      && Fed(k) && !cur[k].Done()
      && (wasClean ==> Served(k))
      && (readers[k].policy == TwoTimes(precision) ==> !cur[k].Starved())
    }

    /** The first loop of Next: stops at the first reader that fails or is done. */
    method FillAll(ghost clean: seq<bool>) returns (filled: bool, ghost used: nat)
      requires Linked() && |clean| == |cur| && forall k :: 0 <= k < |cur| ==> clean[k] == CleanAt(k)
      modifies this`failed, readers, cur, Buffers()
      ensures Linked()
      ensures filled ==> |cur| > 0 ==> !failed
      ensures filled ==> forall k :: 0 <= k < |cur| ==> Filled(k, clean[k])
      ensures !filled && !failed ==> used < |cur| && cur[used].Done()
    {
      hide ColumnAt, CleanAt;
      filled, used := true, 0;
      for i := 0 to |cur|
        invariant Linked()
        invariant failed == old(failed)
        invariant i > 0 ==> !failed
        invariant forall k :: 0 <= k < i ==> Filled(k, clean[k])
        invariant forall k :: i <= k < |cur| ==> CleanAt(k) == clean[k]
      {
        if !failed {
          FillOne(i);
        }
        if failed || cur[i].Done() {
          filled, used := false, i;
          return;
        }
      }
    }

    /** A column that can show an entry has one ahead of its cursor. */
    lemma CurrentEntry(k: nat)
      requires Linked() && !failed && k < |cur| && cur[k].IndexOk()
      ensures pos[k] < |cols[k]|
    {
      hide Dedup, Settled, RoundAll, Series;
      assert ColumnAt(k, pos[k]);
      HeadOfRemaining(cur[k].Pending(), readers[k].unread, precision);
    }

    lemma DoneIsExhausted(k: nat)
      requires Linked() && !failed && k < |cur| && cur[k].Done()
      ensures pos[k] == |cols[k]|
    {
      assert ColumnAt(k, pos[k]);
      assert cur[k].Pending() + RoundAll(readers[k].unread, precision) == [];
    }

    /** Column k's current time, or a panic. */
    method ColumnTime(k: nat) returns (ok: bool, t: int)
      requires Linked() && !failed && k < |cur|
      ensures ok <==> cur[k].IndexOk()
      ensures ok ==> pos[k] < |cols[k]| && t == cols[k][pos[k]].time
    {
      hide Dedup, Settled, RoundAll, Series;
      assert ColumnAt(k, pos[k]);
      ok, t := cur[k].CurTime(readers[k], precision);
    }

    /** The minimum over all current times, or a panic if some column cannot show one. */
    method FindMin() returns (ok: bool, minTime: int)
      requires Linked() && !failed && |cur| > 0
      ensures ok <==> forall k :: 0 <= k < |cur| ==> cur[k].IndexOk()
      ensures ok ==> Cursors(cols, pos) && IsEarliest(cols, pos, minTime)
    {
      hide ColumnAt, Series;
      ok, minTime := ColumnTime(0);
      if !ok {
        return;
      }
      ghost var at := 0;
      for i := 0 to |cur|
        invariant forall k :: 0 <= k < i ==>
                    cur[k].IndexOk() && pos[k] < |cols[k]| && minTime <= cols[k][pos[k]].time
        invariant at < |cur| && pos[at] < |cols[at]| && minTime == cols[at][pos[at]].time
      {
        var t;
        ok, t := ColumnTime(i);
        if !ok {
          return;
        }
        if t < minTime {
          minTime, at := t, i;
        }
      }
    }

    /** Column i, at cursor p, either shows its entry for minTime or holds its last one. */
    method ShowColumn(i: nat, minTime: int, ghost p: nat) returns (missing: bool, d: Datum)
      requires Separate() && i < |cur| && ColumnAt(i, p) && cur[i].IndexOk()
      modifies cur[i]
      ensures ColumnAt(i, Step(cols[i], p, minTime)) && !cur[i].Starved()
      ensures missing <==> Step(cols[i], p, minTime) == 0
      ensures !missing ==> d == cols[i][Step(cols[i], p, minTime) - 1].data
    {
      hide Dedup, Settled, RoundAll, Series;
      var b := cur[i];
      var _, t := b.CurTime(readers[i], precision);
      missing, d := false, Nil;
      if t == minTime {
        d := b.Take(readers[i], precision);
        DropOneMore(cols[i], p);
      } else if b.hasLast {
        d := b.last;
      } else {
        missing := true;
      }
    }

    /** The last loop's body. */
    method StepOne(i: nat, minTime: int, data: array<Datum>) returns (missing: bool)
      requires Linked() && !failed && i < |cur| == data.Length && cur[i].IndexOk()
      modifies this`pos, cur[i], data
      ensures Linked()
      ensures pos == old(pos)[i := Step(cols[i], old(pos[i]), minTime)]
      ensures missing <==> pos[i] == 0
      ensures !missing ==> pos[i] <= |cols[i]| && data[i] == cols[i][pos[i] - 1].data
      ensures forall k :: 0 <= k < |cur| && k != i ==> data[k] == old(data[k])
      ensures !cur[i].Starved()
    {
      hide ColumnAt;
      CurrentEntry(i);
      var d;
      missing, d := ShowColumn(i, minTime, pos[i]);
      if !missing {
        data[i] := d;
      }
      pos := pos[i := Step(cols[i], pos[i], minTime)];
    }

    /** The last loop of Next. */
    method StepAll(minTime: int, data: array<Datum>) returns (missing: bool, ghost absent: nat)
      requires Linked() && !failed && |cur| == data.Length
      requires forall k :: 0 <= k < |cur| ==> cur[k].IndexOk()
      modifies this`pos, cur, data
      ensures Linked() && (forall k :: 0 <= k < |cur| ==> !cur[k].Starved())
      ensures Stepped(cols, old(pos), pos, minTime)
      ensures missing ==> absent < |cur| && pos[absent] == 0
      ensures !missing ==> forall k :: 0 <= k < |cur| ==>
                0 < pos[k] <= |cols[k]| && data[k] == cols[k][pos[k] - 1].data
    {
      hide ColumnAt;
      missing, absent := false, 0;
      ghost var start := pos;
      for i := 0 to |cur|
        invariant Linked() && |start| == |pos|
        invariant forall k :: i <= k < |cur| ==> cur[k].IndexOk() && pos[k] == start[k]
        invariant forall k :: 0 <= k < i ==> pos[k] == Step(cols[k], start[k], minTime)
        invariant forall k :: 0 <= k < i ==> !cur[k].Starved()
        invariant missing ==> absent < i && pos[absent] == 0
        invariant !missing ==> forall k :: 0 <= k < i ==>
                    0 < pos[k] <= |cols[k]| && data[k] == cols[k][pos[k] - 1].data
      {
        var m := StepOne(i, minTime, data);
        if m {
          missing, absent := true, i;
        }
      }
    }

    /** On streams in time order, the rows returned so far are the join up to the times passed. */
    ghost predicate Swept()
      reads this
    {
      && Named() && |cols| == |cur| == |streams| == |readers| && Cursors(cols, pos)
      && (InOrder(streams) ==> Ordered(cols))
      && (Ordered(cols) ==> Cut(cols, pos) && Partial(cols, pos, rows))
    }

    ghost predicate Valid()
      reads this, readers, cur, Buffers()
    {
      Linked() && Swept()
    }

    lemma FailureHasCause()
      requires Valid()
      ensures failed <==> exists k :: 0 <= k < |readers| && readers[k].broken
      ensures AllEndProperly() ==> !failed && AllFill()
      ensures InOrder(streams) ==> Ordered(cols)
    {
      hide ColumnAt, InOrder, Ordered;
    }

    ghost predicate AllFill() {
      forall k :: 0 <= k < |readers| ==> readers[k].policy.FillsSlice?
    }

    /** Nothing read or passed so far touches a stuck stretch. */
    ghost predicate Calm()
      requires Swept()
      reads this, readers
    {
      && (forall k :: 0 <= k < |readers| ==> CleanAt(k))
      && (AllFill() && InOrder(streams) ==> NotYet(streams, precision, cols, pos))
    }

    ghost predicate SomeStuck() {
      exists k :: 0 <= k < |streams| && !Clean(streams[k], precision)
    }

    lemma LinkedCursors()
      requires Linked() && !failed
      ensures Cursors(cols, pos)
    {
      hide Series, Dedup;
      forall k | 0 <= k < |cols| ensures pos[k] <= |cols[k]| {
        assert ColumnAt(k, pos[k]);
      }
    }

    /** Where a column can show its entry, that entry lies before every stuck stretch of its stream. */
    lemma HeadBefore(k: nat, m: nat)
      requires Linked() && Named() && !failed && k < |cur| && cur[k].IndexOk() && readers[k].policy.FillsSlice?
      requires CleanAt(k) && NonDecreasing(streams[k]) && Stuck(streams[k], m, precision)
      ensures pos[k] < |cols[k]| && Before(streams[k], m, precision, cols[k][pos[k]].time)
    {
      hide Dedup, RoundAll, Stuck, CleanUpTo, Aligned, Before, NonDecreasing;
      assert ColumnAt(k, pos[k]);
      var b, r := cur[k], readers[k];
      CleanHasNone(r.stream, m, precision);
      HeadIsBefore(r.stream, m, precision, b.Pending(), r.Consumed(), pos[k]);
    }

    lemma HeadsBefore()
      requires Valid() && !failed && Calm() && AllFill() && InOrder(streams)
      requires forall k :: 0 <= k < |cur| ==> cur[k].IndexOk()
      ensures forall k: nat, m: nat :: k < |streams| && Stuck(streams[k], m, precision) ==>
                pos[k] < |cols[k]| && Before(streams[k], m, precision, cols[k][pos[k]].time)
    {
      hide Stuck, ColumnAt, Before, NonDecreasing, CleanAt, Series;
      forall k: nat, m: nat | k < |streams| && Stuck(streams[k], m, precision)
        ensures pos[k] < |cols[k]| && Before(streams[k], m, precision, cols[k][pos[k]].time)
      {
        HeadBefore(k, m);
      }
    }

    /** A starved column behind a reader that fills its slice stands at a stuck stretch. */
    lemma StuckColumn(k: nat) returns (m: nat)
      requires Linked() && Named() && !failed && k < |cur| && readers[k].policy.FillsSlice?
      requires cur[k].Starved() && Served(k)
      ensures Stuck(streams[k], m, precision)
      ensures pos[k] < |cols[k]| && cols[k][pos[k]].time == StuckTime(streams[k], m, precision)
    {
      hide Dedup, RoundAll, Settled, CleanUpTo, Aligned, OneTime, CleanAt;
      assert ColumnAt(k, pos[k]);
      var b, r := cur[k], readers[k];
      assert b.Pending() == [b.buf[0]];
      m := StarvedIsStuck(r.stream, precision, b.buf[0], r.Consumed(), pos[k]);
    }

    /** A column that cannot show its time, while none has ended, is stuck where the streams say so. */
    lemma PanicIsForeseen(k: nat, clean: seq<bool>)
      requires Valid() && !failed && AllFill() && InOrder(streams) && |clean| == |cur|
      requires forall j :: 0 <= j < |cur| ==> clean[j] && Filled(j, clean[j])
      requires k < |cur| && cur[k].Starved()
      ensures WillPanic(streams, precision)
    {
      hide ColumnAt, NonDecreasing, Served, Series, Stuck, Ordered, Partial;
      forall j | 0 <= j < |cur| ensures pos[j] < |cols[j]| && Served(j) {
        assert Filled(j, clean[j]);
        if cur[j].IndexOk() {
          CurrentEntry(j);
        } else {
          var _ := StuckColumn(j);
        }
      }
      var m := StuckColumn(k);
      StuckIsReached(streams, precision, cols, pos, k, m);
    }

    /** A column that has ended completes the join, and no stuck stretch was reached. */
    lemma Ending(used: nat, foreseen: bool)
      requires Valid() && !failed && used < |cur| && cur[used].Done()
      requires foreseen ==> NotYet(streams, precision, cols, pos)
      ensures Ordered(cols) ==> IsJoin(cols, rows)
      ensures foreseen ==> !WillPanic(streams, precision)
    {
      hide ColumnAt, Ordered, Cut, Partial, NotYet, Series, WillPanic, IsJoin;
      DoneIsExhausted(used);
      if Ordered(cols) {
        ExhaustedIsComplete(cols, pos, rows, used);
      }
      if foreseen {
        EndIsNotReached(streams, precision, cols, pos, used);
      }
    }

    /** The rows of one round: what the cursors now stand behind. */
    ghost predicate Shows(data: seq<Datum>)
      reads this
    {
      && |pos| == |data| == |cols|
      && forall k :: 0 <= k < |cols| ==> 0 < pos[k] <= |cols[k]| && data[k] == cols[k][pos[k] - 1].data
    }

    ghost method Record(row: Row)
      requires Linked()
      modifies this`rows
      ensures Linked() && rows == old(rows) + [row]
    {
      hide ColumnAt;
      rows := rows + [row];
    }

    /** One round of the outer loop, after the buffers are filled. */
    method TakeTime(minTime: int, data: array<Datum>) returns (complete: bool)
      requires Valid() && !failed && |cur| == data.Length
      requires forall k :: 0 <= k < |cur| ==> cur[k].IndexOk()
      requires IsEarliest(cols, pos, minTime)
      modifies this`pos, this`rows, cur, data
      ensures Valid() && (forall k :: 0 <= k < |cur| ==> !cur[k].Starved())
      ensures complete ==> rows == old(rows) + [Row(minTime, data[..])] && Shows(data[..])
      ensures !complete ==> rows == old(rows)
      ensures TotalLeft(cols, pos) < TotalLeft(cols, old(pos))
      ensures Ordered(cols) ==> forall u :: Passed(cols, pos, u) ==> Passed(cols, old(pos), u) || u == minTime
    {
      hide Linked, Ordered, Cut, Partial, InOrder, Named, Passed;
      ghost var start := pos;
      var missing, absent := StepAll(minTime, data);
      complete := !missing;
      LinkedCursors();
      StepUsesUp(cols, start, pos, minTime);
      if Ordered(cols) {
        SweepRound(cols, start, pos, minTime, rows, data[..], missing, absent);
      }
      if complete {
        Record(Row(minTime, data[..]));
      }
    }

    /** Such a round stays before every stuck stretch. */
    method TakeCalmly(minTime: int, data: array<Datum>) returns (complete: bool)
      requires Valid() && !failed && |cur| == data.Length
      requires forall k :: 0 <= k < |cur| ==> cur[k].IndexOk()
      requires IsEarliest(cols, pos, minTime)
      modifies this`pos, this`rows, cur, data
      ensures Valid() && (forall k :: 0 <= k < |cur| ==> !cur[k].Starved())
      ensures complete ==> rows == old(rows) + [Row(minTime, data[..])] && Shows(data[..])
      ensures !complete ==> rows == old(rows)
      ensures TotalLeft(cols, pos) < TotalLeft(cols, old(pos))
      ensures old(Calm()) ==> Calm()
    {
      hide Linked, Shows, Ordered, Cut, Partial, InOrder, NotYet, CleanAt, Named, Stuck, Before, Passed;
      ghost var start, calm := pos, Calm() && AllFill() && InOrder(streams);
      if calm {
        HeadsBefore();
      }
      complete := TakeTime(minTime, data);
      if calm {
        StepStaysBefore(streams, precision, cols, start, pos, minTime);
      }
    }

    lemma StarvedIsSomewhere(k: nat, clean: seq<bool>)
      requires Valid() && !failed && AllFill() && k < |cur| == |clean|
      requires clean[k] && Filled(k, clean[k]) && cur[k].Starved()
      ensures SomeStuck()
    {
      hide ColumnAt, Ordered, Cut, Partial, InOrder, CleanUpTo, Stuck, Clean;
      var m := StuckColumn(k);
      StuckIsNotClean(streams[k], m, precision);
    }

    lemma StaysCalm(clean: seq<bool>)
      requires Swept() && |clean| == |cur|
      requires forall k :: 0 <= k < |cur| ==> clean[k] && Filled(k, clean[k]) && cur[k].IndexOk()
      requires AllFill() && InOrder(streams) ==> NotYet(streams, precision, cols, pos)
      ensures Calm()
    {
      hide Ordered, Cut, Partial, InOrder, NotYet, CleanUpTo, Named;
      forall k | 0 <= k < |readers| ensures CleanAt(k) {
        assert Filled(k, clean[k]);
      }
    }

    /** Fills the buffers and finds the least current time, unless the call ends here. */
    method Prepare() returns (result: NextResult, minTime: int)
      requires Valid() && |cur| > 0
      modifies this`failed, readers, cur, Buffers()
      ensures Valid()
      ensures result.NextRow? ==> !failed && IsEarliest(cols, pos, minTime)
      ensures result.NextRow? ==> forall k :: 0 <= k < |cur| ==> cur[k].IndexOk()
      ensures result.NextEnd? && !failed ==> Ordered(cols) ==> IsJoin(cols, rows)
      ensures result.NextEnd? && !failed ==> exists k :: 0 <= k < |cur| && cur[k].Done()
      ensures result.NextPanic? ==>
                && !failed && (forall k :: 0 <= k < |cur| ==> !cur[k].Done())
                && exists k :: 0 <= k < |cur| && cur[k].Starved() && readers[k].policy != TwoTimes(precision)
      ensures old(Calm()) && result.NextRow? ==> Calm()
      ensures old(Calm()) && AllFill() && result.NextPanic? ==> SomeStuck()
      ensures old(Calm()) && AllFill() && InOrder(streams) && !failed ==>
                && (result.NextPanic? ==> WillPanic(streams, precision))
                && (result.NextEnd? ==> !WillPanic(streams, precision))
    {
      hide Linked, Ordered, Cut, Partial, InOrder, NotYet, CleanAt, Named, WillPanic, IsJoin, IsEarliest, Served, SomeStuck;
      ghost var calm := Calm();
      ghost var clean := CleanFlags();
      var filled, used := FillAll(clean);
      if !filled {
        if !failed {
          Ending(used, calm && AllFill() && InOrder(streams));
        }
        return NextEnd, 0;
      }
      var ok;
      ok, minTime := FindMin();
      if !ok {
        ghost var k :| 0 <= k < |cur| && !cur[k].IndexOk();
        forall j | 0 <= j < |cur| ensures !cur[j].Done() {
          assert Filled(j, clean[j]);
        }
        assert Filled(k, clean[k]) && cur[k].Starved();
        if calm && AllFill() {
          StarvedIsSomewhere(k, clean);
          if InOrder(streams) {
            PanicIsForeseen(k, clean);
          }
        }
        return NextPanic, 0;
      }
      if calm {
        StaysCalm(clean);
      }
      result := NextRow;
    }

    /** One round of the outer loop. */
    method Round(data: array<Datum>) returns (result: RoundResult, minTime: int)
      requires Valid() && |cur| == data.Length > 0
      modifies this`failed, this`pos, this`rows, readers, cur, Buffers(), data
      ensures Valid()
      ensures result.Again? ==> !failed && TotalLeft(cols, pos) < TotalLeft(cols, old(pos))
      ensures result == Finished(NextRow) ==>
                && !failed && TotalLeft(cols, pos) < TotalLeft(cols, old(pos))
                && rows == old(rows) + [Row(minTime, data[..])] && Shows(data[..])
                && (forall k :: 0 <= k < |cur| ==> !cur[k].Starved())
      ensures result != Finished(NextRow) ==> rows == old(rows)
      ensures result == Finished(NextEnd) && !failed ==> Ordered(cols) ==> IsJoin(cols, rows)
      ensures result == Finished(NextEnd) && !failed ==> exists k :: 0 <= k < |cur| && cur[k].Done()
      ensures result == Finished(NextPanic) ==>
                && !failed && (forall k :: 0 <= k < |cur| ==> !cur[k].Done())
                && exists k :: 0 <= k < |cur| && cur[k].Starved() && readers[k].policy != TwoTimes(precision)
      ensures old(Calm()) && (result.Again? || result.result.NextRow?) ==> Calm()
      ensures old(Calm()) && AllFill() && result == Finished(NextPanic) ==> SomeStuck()
      ensures old(Calm()) && AllFill() && InOrder(streams) && !failed ==>
                && (result == Finished(NextPanic) ==> WillPanic(streams, precision))
                && (result == Finished(NextEnd) ==> !WillPanic(streams, precision))
    {
      hide Linked, Ordered, Cut, Partial, InOrder, NotYet, CleanAt, Named, WillPanic, IsJoin, IsEarliest, Shows, SomeStuck;
      var r;
      r, minTime := Prepare();
      if !r.NextRow? {
        return Finished(r), 0;
      }
      var complete := TakeCalmly(minTime, data);
      result := if complete then Finished(NextRow) else Again;
    }

    /**
     A call of Next. It returns the next row of the join, or reports that the join is complete,
     or that a reader failed. It panics when some column cannot show an entry: never if every
     read without an error leaves two distinct times; and over readers that fill their slices,
     only where the streams themselves decide it.
     */
    method Next(data: array<Datum>) returns (result: NextResult, gotTime: int)
      requires Valid() && |cur| == data.Length
      modifies this`failed, this`pos, this`rows, readers, cur, Buffers(), data
      ensures Valid()
      ensures result.NextRow? ==> rows == old(rows) + [Row(gotTime, data[..])] && Shows(data[..])
      ensures !result.NextRow? ==> rows == old(rows)
      ensures Ordered(cols) ==> BeginsJoin(cols, rows)
      ensures result.NextEnd? && !failed && Ordered(cols) ==> IsJoin(cols, rows)
      ensures result.NextPanic? <==>
                !failed && (forall k :: 0 <= k < |cur| ==> !cur[k].Done()) && (exists k :: 0 <= k < |cur| && cur[k].Starved())
      ensures (forall k :: 0 <= k < |readers| ==> readers[k].policy == TwoTimes(precision)) ==> !result.NextPanic?
      ensures result.NextRow? ==> TotalLeft(cols, pos) < TotalLeft(cols, old(pos))
      ensures result.NextRow? && old(Calm()) ==> Calm()
      ensures result.NextPanic? && old(Calm()) && AllFill() ==> SomeStuck()
      ensures old(Calm()) && AllFill() && InOrder(streams) && !failed ==>
                (result.NextPanic? ==> WillPanic(streams, precision)) &&
                (result.NextEnd? ==> !WillPanic(streams, precision))
    {
      hide Linked, Ordered, Cut, Partial, InOrder, NotYet, CleanAt, Named, WillPanic, BeginsJoin, IsJoin, Shows, SomeStuck;
      if |cur| < 1 {
        NoColumns(cols, pos, rows, streams, precision);
        return NextEnd, 0;
      }
      ghost var calm := Calm();
      while true
        invariant Valid() && rows == old(rows)
        invariant calm ==> Calm()
        invariant TotalLeft(cols, pos) <= TotalLeft(cols, old(pos))
        decreases TotalLeft(cols, pos)
      {
        var r, minTime := Round(data);
        if r.Finished? {
          result, gotTime := r.result, minTime;
          break;
        }
      }
      if Ordered(cols) {
        RowsArePrefix(cols, pos, rows);
      }
    }
  }

  /** One round over ordered columns: a row, or a time that some column has not reached. */
  lemma SweepRound(cols: Columns, pos: seq<nat>, pos': seq<nat>, t: int, rows: seq<Row>, data: seq<Datum>,
                   missing: bool, absent: nat)
    requires Ordered(cols) && Cursors(cols, pos) && Cut(cols, pos) && Partial(cols, pos, rows)
    requires IsEarliest(cols, pos, t) && Stepped(cols, pos, pos', t) && Cursors(cols, pos')
    requires missing ==> absent < |cols| && pos'[absent] == 0
    requires !missing ==> |data| == |cols| && forall k :: 0 <= k < |cols| ==>
               0 < pos'[k] && data[k] == cols[k][pos'[k] - 1].data
    ensures Cut(cols, pos')
    ensures Partial(cols, pos', if missing then rows else rows + [Row(t, data)])
    ensures forall u :: Passed(cols, pos', u) ==> Passed(cols, pos, u) || u == t
  {
    hide Ordered, Cut, Partial, Passed, IsEarliest;
    StepCursors(cols, pos, pos', t);
    if missing {
      StepSkipsTime(cols, pos, pos', t, rows, absent);
    } else {
      StepAddsRow(cols, pos, pos', t, rows, data);
    }
  }

  lemma NothingPassed(cols: Columns, pos: seq<nat>, streams: seq<seq<Entry>>, p: int)
    requires |pos| == |cols| && forall k :: 0 <= k < |pos| ==> pos[k] == 0
    ensures Cursors(cols, pos) && Cut(cols, pos) && Partial(cols, pos, []) && NotYet(streams, p, cols, pos)
    ensures forall k :: 0 <= k < |streams| ==> CleanUpTo(streams[k], 0, p)
  {
    hide InJoin, Stuck, Before;
    assert forall t :: !Passed(cols, pos, t);
  }

  lemma NoColumns(cols: Columns, pos: seq<nat>, rows: seq<Row>, streams: seq<seq<Entry>>, p: int)
    requires |cols| == 0 && Cursors(cols, pos) && |streams| == 0 && (Ordered(cols) ==> Partial(cols, pos, rows))
    ensures IsJoin(cols, rows) && BeginsJoin(cols, rows)
    ensures !WillPanic(streams, p)
  {
    assert rows != [] ==> Passed(cols, pos, rows[0].time);
  }

  /**
   A whole merge: rows until the end, an error or a panic. On streams in time order the rows
   are the join, and over readers that fill their slices it panics exactly when the streams
   say so.
   */
  method MergeAll(m: TsMerger, data: array<Datum>) returns (panicked: bool)
    requires m.Valid() && m.Calm() && !m.failed && |m.cur| == data.Length
    modifies m, m.readers, m.cur, m.Buffers(), data
    ensures m.Valid()
    ensures !m.failed && !panicked && Ordered(m.cols) ==> IsJoin(m.cols, m.rows)
    ensures (forall k :: 0 <= k < |m.readers| ==> m.readers[k].policy == TwoTimes(m.precision)) ==> !panicked
    ensures m.AllFill() && (forall k :: 0 <= k < |m.streams| ==> Clean(m.streams[k], m.precision)) ==> !panicked
    ensures !m.failed && m.AllFill() && InOrder(m.streams) ==> (panicked <==> WillPanic(m.streams, m.precision))
    ensures m.failed <==> exists k :: 0 <= k < |m.readers| && m.readers[k].broken
    ensures m.AllEndProperly() && InOrder(m.streams) ==>
              (panicked <==> WillPanic(m.streams, m.precision)) && (!panicked ==> IsJoin(m.cols, m.rows))
  {
    hide Ordered, InOrder, WillPanic, IsJoin, Clean;
    panicked := false;
    while true
      invariant m.Valid() && m.Calm()
      decreases TotalLeft(m.cols, m.pos)
    {
      var result, _ := m.Next(data);
      if !result.NextRow? {
        panicked := result.NextPanic?;
        break;
      }
    }
    m.FailureHasCause();
  }
}
