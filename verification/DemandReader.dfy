/** The fortio demand trace reader: lines are grouped into snapshots with a one-line pushback. */
module DemandReaders {
  import opened Wrappers
  import opened Sequences

  datatype Row = Row(unixSec: real, fg: string, demand: real)

  /** A line: whether it starts with the header fields, and what it parses to as a data line. */
  datatype Line = Line(hasHeader: bool, row: Option<Row>)

  datatype Snapshot = Snapshot(unixSec: real, fgDemand: map<string, real>)

  /** The time of a snapshot that has not begun. */
  const UNSET := -1.0

  // ---- Specification ----

  /** The rows before the first line that does not parse. */
  ghost function Rows(lines: seq<Line>): seq<Row> {
    if lines == [] || lines[0].row.None? then [] else [lines[0].row.value] + Rows(lines[1..])
  }

  ghost predicate AllParse(lines: seq<Line>) {
    forall k :: 0 <= k < |lines| ==> lines[k].row.Some?
  }

  /** How many rows at the front share one time. */
  ghost function RunLength(rows: seq<Row>): (n: nat)
    requires rows != []
    ensures 1 <= n <= |rows|
  {
    if |rows| > 1 && rows[1].unixSec == rows[0].unixSec then 1 + RunLength(rows[1..]) else 1
  }

  /** The rows cut into maximal runs of equal times. */
  ghost function Runs(rows: seq<Row>): seq<seq<Row>> {
    if rows == [] then []
    else
      var n := RunLength(rows);
      [rows[..n]] + Runs(rows[n..])
  }

  ghost function LastWins(run: seq<Row>): map<string, real> {
    if run == [] then map[] else LastWins(run[..|run| - 1])[run[|run| - 1].fg := run[|run| - 1].demand]
  }

  ghost function SnapshotOf(run: seq<Row>): Snapshot
    requires run != []
  {
    Snapshot(run[0].unixSec, LastWins(run))
  }

  /** A snapshot for each run whose time is not the unset one; a failure loses the run in progress. */
  ghost function Emits(rows: seq<Row>, fails: bool): seq<Snapshot> {
    if rows == [] then []
    else
      var n := RunLength(rows);
      (if rows[0].unixSec == UNSET || (fails && n == |rows|) then [] else [SnapshotOf(rows[..n])])
      + Emits(rows[n..], fails)
  }

  ghost predicate Uniform(run: seq<Row>) {
    run != [] && forall k :: 0 <= k < |run| ==> run[k].unixSec == run[0].unixSec
  }

  ghost function Concat(runs: seq<seq<Row>>): seq<Row> {
    if runs == [] then [] else runs[0] + Concat(runs[1..])
  }

  /** A cut of the rows into runs, none of which could be longer. */
  ghost predicate AreRuns(runs: seq<seq<Row>>, rows: seq<Row>) {
    && Concat(runs) == rows
    && (forall k :: 0 <= k < |runs| ==> Uniform(runs[k]))
    && (forall k :: 0 < k < |runs| ==> Changes(runs, k))
  }

  ghost predicate Changes(runs: seq<seq<Row>>, k: int)
    requires 0 < k < |runs|
  {
    runs[k - 1] != [] && runs[k] != [] && runs[k][0].unixSec != runs[k - 1][0].unixSec
  }

  lemma {:induction false} RunLengthIs(rows: seq<Row>, n: nat)
    requires 1 <= n <= |rows| && Uniform(rows[..n])
    requires n < |rows| ==> rows[n].unixSec != rows[0].unixSec
    ensures RunLength(rows) == n
  {
    if n > 1 {
      var r := rows[1..];
      var run, tail := rows[..n], r[..n - 1];
      assert run[1] == rows[1];
      forall k | 0 <= k < n - 1 ensures tail[k].unixSec == r[0].unixSec {
        assert run[k + 1] == tail[k];
      }
      RunLengthIs(r, n - 1);
    }
  }

  lemma {:induction false} RunIsUniform(rows: seq<Row>)
    requires rows != []
    ensures var n := RunLength(rows); Uniform(rows[..n]) && (n < |rows| ==> rows[n].unixSec != rows[0].unixSec)
  {
    if |rows| > 1 && rows[1].unixSec == rows[0].unixSec {
      var r := rows[1..];
      var n := RunLength(r);
      RunIsUniform(r);
      var run, tail := rows[..n + 1], r[..n];
      forall k | 0 <= k < n + 1 ensures run[k].unixSec == rows[0].unixSec {
        assert k > 0 ==> run[k] == tail[k - 1];
      }
    }
  }

  /** The runs are all there is: every row is in exactly one of them. */
  lemma {:induction false} RunsAreRuns(rows: seq<Row>)
    ensures AreRuns(Runs(rows), rows)
    ensures rows != [] ==> Runs(rows) != [] && Runs(rows)[0] == rows[..RunLength(rows)]
  {
    if rows != [] {
      var n := RunLength(rows);
      var rest := Runs(rows[n..]);
      RunIsUniform(rows);
      RunsAreRuns(rows[n..]);
      var all := [rows[..n]] + rest;
      assert all[1..] == rest;
      SplitAt(rows, n);
      forall k | 0 < k < |all| ensures Changes(all, k) {
        assert all[k] == rest[k - 1];
        if k == 1 {
          assert rest[0] == rows[n..][..RunLength(rows[n..])];
        } else {
          assert all[k - 1] == rest[k - 2] && Changes(rest, k - 1);
        }
      }
    }
  }

  lemma {:induction false} ConcatOf(runs: seq<seq<Row>>, rows: seq<Row>)
    requires AreRuns(runs, rows) && runs != []
    ensures |runs[0]| <= |rows| && rows[..|runs[0]|] == runs[0] && AreRuns(runs[1..], rows[|runs[0]|..])
    ensures rows != [] && RunLength(rows) == |runs[0]|
  {
    var n := |runs[0]|;
    TakeAppend(runs[0], Concat(runs[1..]));
    var rest: seq<seq<Row>> := runs[1..];
    forall k | 0 < k < |rest| ensures Changes(rest, k) {
      assert Changes(runs, k + 1) && rest[k] == runs[k + 1] && rest[k - 1] == runs[k];
    }
    if n < |rows| {
      assert rest != [] && rows[n..] == rest[0] + Concat(rest[1..]);
      assert rest[0] == runs[1] && Changes(runs, 1);
      assert rows[n] == rows[n..][0] == runs[1][0];
    }
    RunLengthIs(rows, n);
  }

  /** There is one way to cut the rows into maximal runs. */
  lemma {:induction false} RunsAreUnique(runs: seq<seq<Row>>, rows: seq<Row>)
    requires AreRuns(runs, rows)
    ensures runs == Runs(rows)
    decreases |runs|
  {
    if runs == [] {
    } else {
      ConcatOf(runs, rows);
      RunsAreUnique(runs[1..], rows[|runs[0]|..]);
    }
  }

  /** The snapshots, from the runs: all of them, or all but the last one when reading fails. */
  ghost function SnapshotsOf(runs: seq<seq<Row>>): seq<Snapshot>
    requires forall k :: 0 <= k < |runs| ==> runs[k] != []
  {
    if runs == [] then []
    else (if runs[0][0].unixSec == UNSET then [] else [SnapshotOf(runs[0])]) + SnapshotsOf(runs[1..])
  }

  lemma {:induction false} EmitsAreRuns(rows: seq<Row>, fails: bool)
    ensures forall k :: 0 <= k < |Runs(rows)| ==> Runs(rows)[k] != []
    ensures Emits(rows, fails) ==
            SnapshotsOf(if fails && rows != [] then Runs(rows)[..|Runs(rows)| - 1] else Runs(rows))
  {
    RunsAreRuns(rows);
    if rows != [] {
      var n := RunLength(rows);
      var rest := rows[n..];
      EmitsAreRuns(rest, fails);
      RunsAreRuns(rest);
      var runs := Runs(rows);
      assert runs == [rows[..n]] + Runs(rest) && runs[1..] == Runs(rest);
      if fails && rest != [] {
        assert runs[..|runs| - 1][1..] == Runs(rest)[..|Runs(rest)| - 1];
      } else if fails {
        assert runs[..|runs| - 1] == [];
      }
    }
  }

  lemma SkipUnset(rows: seq<Row>, fails: bool)
    requires rows != [] && rows[0].unixSec == UNSET
    ensures Emits(rows, fails) == Emits(rows[1..], fails)
  {
    var n := RunLength(rows);
    RunIsUniform(rows);
    assert rows[..n][0] == rows[0];
    if n > 1 {
      assert rows[..n][1] == rows[1];
      assert RunLength(rows[1..]) == n - 1;
      assert rows[1..][n - 1..] == rows[n..];
    }
  }

  /** A run that is over is emitted. */
  lemma EmitRun(run: seq<Row>, rest: seq<Row>, fails: bool)
    requires Uniform(run) && run[0].unixSec != UNSET
    requires rest != [] ==> rest[0].unixSec != run[0].unixSec
    ensures Emits(run + rest, fails) ==
            (if fails && rest == [] then [] else [SnapshotOf(run)]) + Emits(rest, fails)
  {
    var rows := run + rest;
    TakeAppend(run, rest);
    RunLengthIs(rows, |run|);
  }

  /** A run in progress: what next holds is what these rows amount to. */
  ghost predicate Holds(next: Snapshot, run: seq<Row>) {
    if run == [] then next.unixSec == UNSET
    else Uniform(run) && run[0].unixSec != UNSET && next == SnapshotOf(run)
  }

  lemma HoldsSnoc(next: Snapshot, run: seq<Row>, row: Row)
    requires Holds(next, run) && row.unixSec != UNSET
    requires run != [] ==> row.unixSec == next.unixSec
    ensures var demand := if run == [] then map[] else next.fgDemand;
            Holds(Snapshot(row.unixSec, demand[row.fg := row.demand]), run + [row])
  {
    hide LastWins;
    LastWinsSnoc(run, row);
    assert LastWins([]) == map[] by { NoneWins(); }
  }

  lemma NoneWins()
    ensures LastWins([]) == map[]
  {
  }

  class TraceReader {
    const lines: seq<Line>
    const scanFails: bool            // what Scanner.Err reports once the lines are used up
    var scanned: nat
    var next: Snapshot
    var failed: bool
    var processCur: bool
    var isHeader: bool

    constructor (lines: seq<Line>, scanFails: bool)
      ensures Valid() && this.lines == lines && this.scanFails == scanFails && isHeader && !failed
    {
      this.lines, this.scanFails := lines, scanFails;
      scanned, failed, processCur, isHeader := 0, false, false, true;
      next := Snapshot(0.0, map[]);
    }

    ghost predicate Valid()
      reads this
    {
      && scanned <= |lines|
      && (isHeader ==> scanned == 0 && !processCur)
      && (processCur ==> scanned > 0 && lines[scanned - 1].row.Some? && !failed)
    }

    /** The rows still to come: the line pushed back, then what has not been scanned. */
    ghost function Rest(): seq<Row>
      requires Valid()
      reads this
    {
      if failed then []
      else if isHeader then if lines != [] && lines[0].hasHeader then Rows(lines[1..]) else []
      else if processCur then Rows(lines[scanned - 1..])
      else Rows(lines[scanned..])
    }

    /** Whether reading on will end in an error. */
    ghost predicate Fails()
      requires Valid()
      reads this
    {
      if failed then true
      else if isHeader then
        if lines == [] then scanFails else !lines[0].hasHeader || !AllParse(lines[1..]) || scanFails
      else !AllParse(lines[scanned..]) || scanFails
    }

    /** processLine on a data line that parses. */
    method ProcessRow(row: Row, ghost run: seq<Row>) returns (finishedSnap: bool)
      requires Holds(next, run)
      modifies this`next, this`processCur
      ensures finishedSnap == (run != [] && row.unixSec != run[0].unixSec)
      ensures finishedSnap ==> processCur && next == old(next)
      ensures !finishedSnap ==> processCur == old(processCur)
      ensures !finishedSnap ==> Holds(next, if row.unixSec == UNSET then [] else run + [row])
    {
      hide LastWins, Uniform;
      if row.unixSec != UNSET && (run != [] ==> row.unixSec == next.unixSec) {
        HoldsSnoc(next, run, row);
      }
      if next.unixSec == UNSET {
        next := Snapshot(row.unixSec, map[]);
      } else if row.unixSec != next.unixSec {
        processCur := true;
        return true;
      }
      next := next.(fgDemand := next.fgDemand[row.fg := row.demand]);
      return false;
    }

    ghost function ToEmit(): seq<Snapshot>
      requires Valid()
      reads this
    {
      Emits(Rest(), Fails())
    }

    /** Everything to come, when run is in progress. */
    ghost function ToEmitAfter(run: seq<Row>): seq<Snapshot>
      requires Valid()
      reads this
    {
      Emits(run + Rest(), Fails())
    }

    /** The line just scanned is about to be processed: nothing is lost or repeated. */
    ghost predicate AtLine(run: seq<Row>, emits: seq<Snapshot>, fails: bool)
      reads this
    {
      && 0 < scanned <= |lines| && !failed && !processCur && Holds(next, run)
      && if isHeader then
           && scanned == 1 && run == []
           && emits == Emits(if lines[0].hasHeader then Rows(lines[1..]) else [], fails)
           && fails == (!lines[0].hasHeader || !AllParse(lines[1..]) || scanFails)
         else
           && emits == Emits(run + Rows(lines[scanned - 1..]), fails)
           && fails == (!AllParse(lines[scanned - 1..]) || scanFails)
    }

    /** Between lines. */
    ghost predicate Between(run: seq<Row>, emits: seq<Snapshot>, fails: bool)
      reads this
    {
      && Valid() && !processCur && Holds(next, run) && (isHeader ==> run == [])
      && ToEmitAfter(run) == emits && Fails() == fails
    }

    method ProcessLine(ghost run: seq<Row>, ghost emits: seq<Snapshot>, ghost fails: bool)
      returns (finishedSnap: bool, ghost run': seq<Row>)
      requires AtLine(run, emits, fails)
      modifies this`next, this`processCur, this`isHeader, this`failed
      ensures Valid() && Fails() == fails && !isHeader
      ensures finishedSnap ==> run != [] && emits == [next] + ToEmit() && next.unixSec != UNSET
      ensures !finishedSnap ==> Between(run', emits, fails)
    {
      hide Holds, Emits;
      run' := run;
      var line := lines[scanned - 1];
      if isHeader {
        isHeader := false;
        if !line.hasHeader {
          failed := true;
        }
        EmptyRun(Rest());
        return false, run;
      }
      RowsCons(lines, scanned - 1);
      if line.row.None? {
        failed := true;
        return false, run;
      }
      ghost var rest := Rows(lines[scanned..]);
      ghost var was := next;
      finishedSnap := ProcessRow(line.row.value, run);
      RowProcessed(run, was, line.row.value, rest, fails);
      if !finishedSnap {
        run' := if line.row.value.unixSec == UNSET then [] else run + [line.row.value];
      }
    }

    method Next() returns (ok: bool)
      requires Valid()
      modifies this
      ensures Valid()
      ensures ok == (old(ToEmit()) != [])
      ensures ok ==> next == old(ToEmit())[0] && ToEmit() == old(ToEmit())[1..] && Fails() == old(Fails())
      ensures !ok ==> failed == old(Fails()) && ToEmit() == []
    {
      hide Holds, Emits, AllParse, Rows;
      ghost var emits, fails := ToEmit(), Fails();
      ghost var run: seq<Row> := [];
      EmptyRun(Rest());
      NothingHeld(UNSET);
      RowsCons(lines, if processCur then scanned - 1 else 0);
      next := Snapshot(UNSET, map[]);
      if processCur {
        processCur := false;
        var finished;
        finished, run := ProcessLine(run, emits, fails);
        assert !finished;            // the panic is unreachable
      }
      while !failed && scanned < |lines|
        invariant Between(run, emits, fails)
      {
        EmptyRun(Rest());
        scanned := scanned + 1;
        var finished;
        finished, run := ProcessLine(run, emits, fails);
        if finished {
          return true;
        }
      }
      RowsCons(lines, |lines|);
      assert Rest() == [];
      LastRun(run, next, fails);
      NoneEmitted(fails);
      if !failed {
        failed := scanFails;
      }
      ok := !failed && next.unixSec != UNSET;
    }
  }

  lemma EmptyRun(rest: seq<Row>)
    ensures [] + rest == rest
  {
  }

  lemma NoneEmitted(fails: bool)
    ensures Emits([], fails) == []
  {
  }

  lemma NothingHeld(t: real)
    requires t == UNSET
    ensures Holds(Snapshot(t, map[]), [])
  {
  }

  lemma RowsCons(lines: seq<Line>, k: nat)
    requires k <= |lines|
    ensures k == |lines| ==> Rows(lines[k..]) == [] && AllParse(lines[k..])
    ensures k < |lines| && lines[k].row.None? ==> Rows(lines[k..]) == [] && !AllParse(lines[k..])
    ensures k < |lines| && lines[k].row.Some? ==>
              && Rows(lines[k..]) == [lines[k].row.value] + Rows(lines[k + 1..])
              && (AllParse(lines[k..]) <==> AllParse(lines[k + 1..]))
  {
    if k < |lines| {
      DropOneMore(lines, k);
      var a, b := lines[k..], lines[k + 1..];
      assert forall j :: 0 <= j < |b| ==> b[j] == a[j + 1];
      assert forall j :: 0 < j < |a| ==> a[j] == b[j - 1];
    }
  }

  /** A row joins the run in progress, is dropped, or ends the run. */
  lemma RowProcessed(run: seq<Row>, next: Snapshot, row: Row, rest: seq<Row>, fails: bool)
    requires Holds(next, run)
    ensures run != [] && row.unixSec != run[0].unixSec ==>
              Emits(run + ([row] + rest), fails) == [next] + Emits([row] + rest, fails) && next.unixSec != UNSET
    ensures !(run != [] && row.unixSec != run[0].unixSec) ==>
              Emits(run + ([row] + rest), fails) == Emits((if row.unixSec == UNSET then [] else run + [row]) + rest, fails)
  {
    if run != [] && row.unixSec != run[0].unixSec {
      EmitRun(run, [row] + rest, fails);
    } else if row.unixSec == UNSET {
      SkipUnset([row] + rest, fails);
      EmptyRun(rest);
      EmptyRun([row] + rest);
      assert ([row] + rest)[1..] == rest;
    } else {
      Regroup(run, [row], rest);
    }
  }

  /** At the end of the input the run in progress is emitted, unless reading failed. */
  lemma LastRun(run: seq<Row>, next: Snapshot, fails: bool)
    requires Holds(next, run)
    ensures Emits(run + [], fails) == if fails || next.unixSec == UNSET then [] else [next]
  {
    assert run + [] == run;
    if run != [] {
      EmitRun(run, [], fails);
    }
  }

  /** The caller's loop over Next: exactly the snapshots of the maximal runs, in order. */
  method ReadAll(r: TraceReader) returns (snaps: seq<Snapshot>)
    requires r.Valid()
    modifies r
    ensures snaps == old(r.ToEmit()) && r.failed == old(r.Fails())
  {
    snaps := [];
    var ok := true;
    while ok
      invariant r.Valid()
      invariant ok ==> snaps + r.ToEmit() == old(r.ToEmit()) && r.Fails() == old(r.Fails())
      invariant !ok ==> snaps == old(r.ToEmit()) && r.failed == old(r.Fails())
      decreases ok, |r.ToEmit()|
    {
      ghost var was := r.ToEmit();
      ok := r.Next();
      if ok {
        MoveHead(snaps, was);
        snaps := snaps + [r.next];
      }
    }
  }

  lemma LastWinsSnoc(run: seq<Row>, row: Row)
    ensures LastWins(run + [row]) == LastWins(run)[row.fg := row.demand]
  {
    TakeAppend(run, [row]);
  }
}
