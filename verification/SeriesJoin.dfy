/**
 The sample-and-hold join of several series, stated without any cursor: which times have a
 row, in which order, and what each column of a row holds. A cursor position per column is
 then shown to sweep out exactly this join.
 */
module SeriesJoin {
  import opened Sequences
  import opened TimeSeries

  datatype Row = Row(time: int, data: seq<Datum>)

  type Columns = seq<seq<Entry>>

  ghost predicate Ordered(cols: Columns) {
    forall k :: 0 <= k < |cols| ==> StrictlyIncreasing(cols[k])
  }

  ghost predicate Sampled(cols: Columns, t: int) {
    exists k, j :: 0 <= k < |cols| && 0 <= j < |cols[k]| && cols[k][j].time == t
  }

  /** Every series has started by t and none has ended before t. */
  ghost predicate Covered(cols: Columns, t: int) {
    forall k :: 0 <= k < |cols| ==>
      cols[k] != [] && cols[k][0].time <= t <= cols[k][|cols[k]| - 1].time
  }

  ghost predicate InJoin(cols: Columns, t: int) {
    Sampled(cols, t) && Covered(cols, t)
  }

  /** Entry j is the newest sample of the series at or before t. */
  ghost predicate NewestAt(col: seq<Entry>, j: int, t: int) {
    0 <= j < |col| && col[j].time <= t && (j + 1 < |col| ==> t < col[j + 1].time)
  }

  ghost predicate Holds(col: seq<Entry>, t: int, d: Datum) {
    exists j :: NewestAt(col, j, t) && col[j].data == d
  }

  ghost predicate IsRow(cols: Columns, row: Row) {
    && InJoin(cols, row.time)
    && |row.data| == |cols|
    && forall k :: 0 <= k < |cols| ==> Holds(cols[k], row.time, row.data[k])
  }

  ghost predicate TimesIncrease(rows: seq<Row>) {
    forall a, b :: 0 <= a < b < |rows| ==> rows[a].time < rows[b].time
  }

  ghost predicate HasRow(rows: seq<Row>, t: int) {
    exists a :: 0 <= a < |rows| && rows[a].time == t
  }

  ghost predicate IsJoin(cols: Columns, rows: seq<Row>) {
    && TimesIncrease(rows)
    && (forall a :: 0 <= a < |rows| ==> IsRow(cols, rows[a]))
    && (forall t :: InJoin(cols, t) ==> HasRow(rows, t))
  }

  // ---- Sweeping the join with one cursor per column ----

  ghost predicate Cursors(cols: Columns, pos: seq<nat>) {
    |pos| == |cols| && forall k :: 0 <= k < |cols| ==> pos[k] <= |cols[k]|
  }

  ghost predicate Passed(cols: Columns, pos: seq<nat>, t: int)
    requires Cursors(cols, pos)
  {
    exists k, j :: 0 <= k < |cols| && 0 <= j < pos[k] && cols[k][j].time == t
  }

  /** Everything passed is older than everything ahead, across all columns. */
  ghost predicate Cut(cols: Columns, pos: seq<nat>)
    requires Cursors(cols, pos)
  {
    forall k, j, k', j' ::
      0 <= k < |cols| && 0 <= j < pos[k] && 0 <= k' < |cols| && pos[k'] <= j' < |cols[k']| ==>
        cols[k][j].time < cols[k'][j'].time
  }

  /** The rows are the join, cut off after the times already passed. */
  ghost predicate Partial(cols: Columns, pos: seq<nat>, rows: seq<Row>)
    requires Cursors(cols, pos)
  {
    && TimesIncrease(rows)
    && (forall a :: 0 <= a < |rows| ==> IsRow(cols, rows[a]) && Passed(cols, pos, rows[a].time))
    && (forall t :: InJoin(cols, t) && Passed(cols, pos, t) ==> HasRow(rows, t))
  }

  /** t is the earliest time ahead of the cursors. */
  ghost predicate IsEarliest(cols: Columns, pos: seq<nat>, t: int)
    requires Cursors(cols, pos)
  {
    && (forall k :: 0 <= k < |cols| ==> pos[k] < |cols[k]| && t <= cols[k][pos[k]].time)
    && (exists k :: 0 <= k < |cols| && cols[k][pos[k]].time == t)
  }

  function Step(col: seq<Entry>, p: nat, t: int): nat {
    if p < |col| && col[p].time == t then p + 1 else p
  }

  ghost predicate Stepped(cols: Columns, pos: seq<nat>, pos': seq<nat>, t: int) {
    && |pos| == |pos'| == |cols|
    && forall k :: 0 <= k < |cols| ==> pos'[k] == Step(cols[k], pos[k], t)
  }

  lemma StepCursors(cols: Columns, pos: seq<nat>, pos': seq<nat>, t: int)
    requires Ordered(cols) && Cursors(cols, pos) && Cut(cols, pos)
    requires IsEarliest(cols, pos, t) && Stepped(cols, pos, pos', t)
    ensures Cursors(cols, pos') && Cut(cols, pos')
    ensures forall u :: Passed(cols, pos', u) <==> Passed(cols, pos, u) || u == t
    ensures forall u :: Passed(cols, pos, u) ==> u < t
  {
    forall k, j, k', j' |
      0 <= k < |cols| && 0 <= j < pos'[k] && 0 <= k' < |cols| && pos'[k'] <= j' < |cols[k']|
      ensures cols[k][j].time < cols[k'][j'].time
    {
      AheadIsLater(cols, pos, pos', t, k', j');
      if j == pos[k] {
        assert cols[k][j].time == t;
      } else if j' == pos[k'] {
        assert cols[k][j].time < cols[k'][j'].time;
      }
    }
    var e :| 0 <= e < |cols| && cols[e][pos[e]].time == t;
    assert pos'[e] == pos[e] + 1;
    forall u | Passed(cols, pos', u) ensures Passed(cols, pos, u) || u == t {
      var k, j :| 0 <= k < |cols| && 0 <= j < pos'[k] && cols[k][j].time == u;
      assert j < pos[k] || j == pos[k];
    }
    forall u | Passed(cols, pos, u) ensures Passed(cols, pos', u) && u < t {
      var k, j :| 0 <= k < |cols| && 0 <= j < pos[k] && cols[k][j].time == u;
      assert j < pos'[k];
      assert cols[k][j].time < cols[e][pos[e]].time;
    }
  }

  lemma AheadIsLater(cols: Columns, pos: seq<nat>, pos': seq<nat>, t: int, k: nat, j: nat)
    requires Ordered(cols) && Cursors(cols, pos)
    requires IsEarliest(cols, pos, t) && Stepped(cols, pos, pos', t)
    requires k < |cols| && pos'[k] <= j < |cols[k]|
    ensures t < cols[k][j].time
  {
    assert StrictlyIncreasing(cols[k]);
    assert j > pos[k] ==> cols[k][pos[k]].time < cols[k][j].time;
  }

  /** Where every column has started, the passed entries make up the row for t. */
  lemma StepGivesRow(cols: Columns, pos: seq<nat>, pos': seq<nat>, t: int, data: seq<Datum>)
    requires Ordered(cols) && Cursors(cols, pos) && Cut(cols, pos)
    requires IsEarliest(cols, pos, t) && Stepped(cols, pos, pos', t)
    requires forall k :: 0 <= k < |cols| ==> pos'[k] > 0
    requires |data| == |cols|
    requires forall k :: 0 <= k < |cols| ==> data[k] == cols[k][pos'[k] - 1].data
    ensures IsRow(cols, Row(t, data))
  {
    var e :| 0 <= e < |cols| && cols[e][pos[e]].time == t;
    assert Sampled(cols, t);
    forall k | 0 <= k < |cols|
      ensures cols[k] != [] && cols[k][0].time <= t <= cols[k][|cols[k]| - 1].time
      ensures Holds(cols[k], t, data[k])
    {
      assert StrictlyIncreasing(cols[k]);
      var j := pos'[k] - 1;
      assert j < pos[k] ==> cols[k][j].time < cols[e][pos[e]].time;
      if j + 1 < |cols[k]| {
        AheadIsLater(cols, pos, pos', t, k, j + 1);
      }
      assert NewestAt(cols[k], j, t);
    }
  }

  lemma StepAddsRow(cols: Columns, pos: seq<nat>, pos': seq<nat>, t: int, rows: seq<Row>, data: seq<Datum>)
    requires Ordered(cols) && Cursors(cols, pos) && Cut(cols, pos) && Partial(cols, pos, rows)
    requires IsEarliest(cols, pos, t) && Stepped(cols, pos, pos', t)
    requires forall k :: 0 <= k < |cols| ==> pos'[k] > 0
    requires |data| == |cols|
    requires forall k :: 0 <= k < |cols| ==> data[k] == cols[k][pos'[k] - 1].data
    ensures Cursors(cols, pos') && Partial(cols, pos', rows + [Row(t, data)])
  {
    StepCursors(cols, pos, pos', t);
    StepGivesRow(cols, pos, pos', t, data);
    PartialGrows(cols, pos, pos', rows, Row(t, data));
  }

  lemma PartialGrows(cols: Columns, pos: seq<nat>, pos': seq<nat>, rows: seq<Row>, row: Row)
    requires Cursors(cols, pos) && Partial(cols, pos, rows) && Cursors(cols, pos') && IsRow(cols, row)
    requires forall u :: Passed(cols, pos', u) <==> Passed(cols, pos, u) || u == row.time
    requires forall u :: Passed(cols, pos, u) ==> u < row.time
    ensures Partial(cols, pos', rows + [row])
  {
    hide IsRow, InJoin, Passed, HasRow;
    var rows' := rows + [row];
    assert TimesIncrease(rows') by {
      assert forall a :: 0 <= a < |rows| ==> Passed(cols, pos, rows[a].time);
    }
    forall a | 0 <= a < |rows'| ensures IsRow(cols, rows'[a]) && Passed(cols, pos', rows'[a].time) {
      RowCarriesOver(cols, pos, rows, row, a);
    }
    forall u | InJoin(cols, u) && Passed(cols, pos', u) ensures HasRow(rows', u) {
      RowIsFound(rows, row, u);
    }
  }

  lemma RowCarriesOver(cols: Columns, pos: seq<nat>, rows: seq<Row>, row: Row, a: nat)
    requires Cursors(cols, pos) && Partial(cols, pos, rows) && IsRow(cols, row) && a <= |rows|
    ensures IsRow(cols, (rows + [row])[a])
    ensures Passed(cols, pos, (rows + [row])[a].time) || (rows + [row])[a].time == row.time
  {
    if a < |rows| {
      assert (rows + [row])[a] == rows[a];
    }
  }

  lemma RowIsFound(rows: seq<Row>, row: Row, u: int)
    requires u == row.time || HasRow(rows, u)
    ensures HasRow(rows + [row], u)
  {
    if u == row.time {
      assert (rows + [row])[|rows|].time == u;
    } else {
      var a :| 0 <= a < |rows| && rows[a].time == u;
      assert (rows + [row])[a].time == u;
    }
  }

  /** A time that some series has not reached yet has no row. */
  lemma StepSkipsTime(cols: Columns, pos: seq<nat>, pos': seq<nat>, t: int, rows: seq<Row>, missing: nat)
    requires Ordered(cols) && Cursors(cols, pos) && Cut(cols, pos) && Partial(cols, pos, rows)
    requires IsEarliest(cols, pos, t) && Stepped(cols, pos, pos', t)
    requires missing < |cols| && pos'[missing] == 0
    ensures Cursors(cols, pos') && Partial(cols, pos', rows)
  {
    StepCursors(cols, pos, pos', t);
    AheadIsLater(cols, pos, pos', t, missing, 0);
    assert !Covered(cols, t);
  }

  /** Once a column is used up nothing ahead can still be joined. */
  lemma ExhaustedIsComplete(cols: Columns, pos: seq<nat>, rows: seq<Row>, used: nat)
    requires Cursors(cols, pos) && Cut(cols, pos) && Partial(cols, pos, rows)
    requires used < |cols| && pos[used] == |cols[used]|
    ensures IsJoin(cols, rows)
  {
    forall t | InJoin(cols, t) ensures HasRow(rows, t) {
      var k, j :| 0 <= k < |cols| && 0 <= j < |cols[k]| && cols[k][j].time == t;
      var end := |cols[used]| - 1;
      assert cols[used][end].time >= t;
      assert j < pos[k];
    }
  }

  // ---- The join is unique ----

  lemma NewestIsUnique(col: seq<Entry>, j: nat, j': nat, t: int)
    requires StrictlyIncreasing(col) && NewestAt(col, j, t) && NewestAt(col, j', t)
    ensures j == j'
  {
  }

  lemma HoldsIsUnique(col: seq<Entry>, t: int, d: Datum, d': Datum)
    requires StrictlyIncreasing(col) && Holds(col, t, d) && Holds(col, t, d')
    ensures d == d'
  {
    var j :| NewestAt(col, j, t) && col[j].data == d;
    var j' :| NewestAt(col, j', t) && col[j'].data == d';
    NewestIsUnique(col, j, j', t);
  }

  lemma RowIsUnique(cols: Columns, r: Row, r': Row)
    requires Ordered(cols) && IsRow(cols, r) && IsRow(cols, r') && r.time == r'.time
    ensures r == r'
  {
    forall k | 0 <= k < |cols| ensures r.data[k] == r'.data[k] {
      HoldsIsUnique(cols[k], r.time, r.data[k], r'.data[k]);
    }
  }

  /** Two increasing lists of rows that agree so far agree on the next, or one misses a time. */
  lemma NextTimeAgrees(rows: seq<Row>, all: seq<Row>, m: nat)
    requires TimesIncrease(rows) && TimesIncrease(all)
    requires m < |rows| && m <= |all| && rows[..m] == all[..m]
    requires HasRow(all, rows[m].time)
    ensures m < |all| && all[m].time <= rows[m].time
    ensures all[m].time < rows[m].time ==> !HasRow(rows, all[m].time)
  {
    assert forall i :: 0 <= i < m ==> rows[i] == rows[..m][i] == all[..m][i] == all[i];
    var a :| 0 <= a < |all| && all[a].time == rows[m].time;
    assert a >= m;
    forall b | 0 <= b < |rows| && all[m].time < rows[m].time ensures rows[b].time != all[m].time {
      assert b < m ==> all[b].time < all[m].time;
    }
  }

  /** Rows swept so far are a prefix of the complete join. */
  lemma {:induction false} PartialIsPrefix(cols: Columns, pos: seq<nat>, rows: seq<Row>, all: seq<Row>, n: nat)
    requires Ordered(cols) && Cursors(cols, pos) && Cut(cols, pos) && Partial(cols, pos, rows)
    requires IsJoin(cols, all) && n <= |rows|
    ensures n <= |all| && rows[..n] == all[..n]
  {
    hide Cut, Passed, HasRow, Sampled, Covered, Holds;
    if n > 0 {
      var m := n - 1;
      PartialIsPrefix(cols, pos, rows, all, m);
      assert IsRow(cols, rows[m]) && Passed(cols, pos, rows[m].time);
      NextTimeAgrees(rows, all, m);
      EarlierTimeIsPassed(cols, pos, all[m].time, rows[m].time);
      RowIsUnique(cols, rows[m], all[m]);
      TakeSnoc(rows, m);
      TakeSnoc(all, m);
    }
  }

  /** Every complete join begins with these rows. */
  ghost predicate BeginsJoin(cols: Columns, rows: seq<Row>) {
    forall all :: IsJoin(cols, all) ==> rows <= all
  }

  lemma RowsArePrefix(cols: Columns, pos: seq<nat>, rows: seq<Row>)
    requires Ordered(cols) && Cursors(cols, pos) && Cut(cols, pos) && Partial(cols, pos, rows)
    ensures BeginsJoin(cols, rows)
  {
    hide Ordered, Cut, Partial, IsJoin;
    forall all | IsJoin(cols, all) ensures rows <= all {
      PartialIsPrefix(cols, pos, rows, all, |rows|);
    }
  }

  lemma EarlierTimeIsPassed(cols: Columns, pos: seq<nat>, t: int, u: int)
    requires Cursors(cols, pos) && Cut(cols, pos)
    requires t <= u && Sampled(cols, t) && Passed(cols, pos, u)
    ensures Passed(cols, pos, t)
  {
    var k, j :| 0 <= k < |cols| && 0 <= j < |cols[k]| && cols[k][j].time == t;
    var k', j' :| 0 <= k' < |cols| && 0 <= j' < pos[k'] && cols[k'][j'].time == u;
    assert j < pos[k];
  }

  /** Two complete joins are the same rows. */
  lemma {:induction false} JoinIsUnique(cols: Columns, rows: seq<Row>, all: seq<Row>, n: nat)
    requires Ordered(cols) && IsJoin(cols, rows) && IsJoin(cols, all) && n <= |rows|
    ensures n <= |all| && rows[..n] == all[..n]
    ensures n == |rows| ==> rows == all
  {
    hide HasRow, Sampled, Covered, Holds;
    if n > 0 {
      var m := n - 1;
      JoinIsUnique(cols, rows, all, m);
      NextTimeAgrees(rows, all, m);
      RowIsUnique(cols, rows[m], all[m]);
      TakeSnoc(rows, m);
      TakeSnoc(all, m);
    }
    if n == |rows| {
      SameLength(rows, all);
    }
  }

  lemma SameLength(rows: seq<Row>, all: seq<Row>)
    requires |rows| <= |all| && rows == all[..|rows|] && TimesIncrease(all)
    requires forall a :: 0 <= a < |all| ==> HasRow(rows, all[a].time)
    ensures rows == all
  {
    assert forall b :: 0 <= b < |rows| ==> rows[b] == all[b];
    assert |rows| < |all| ==> HasRow(rows, all[|rows|].time);
  }
}
