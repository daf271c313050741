/**
 The two DataFrame operations the program relies on, as pandas defines them
 for frames with distinct column labels: `DataFrame.insert(0, name, value)`
 and `pd.concat(frames)` along the rows with the default outer join. Row
 index labels and column dtypes are not modelled.
 */
module Frame {
  import opened Wrappers

  /** A cell: text, a number, or the missing value (NaN) that alignment fills in. */
  datatype Cell = Str(s: string) | Number(x: real) | Missing

  type Row = seq<Cell>

  /** A DataFrame: its column labels in order and its rows. */
  datatype Table = Table(columns: seq<string>, rows: seq<Row>)

  datatype FrameError =
    | ColumnExists(name: string)   // `insert` refuses a label the frame already has
    | NoObjectsToConcatenate       // `concat` of an empty list

  predicate Distinct(cols: seq<string>) {
    forall i, j :: 0 <= i < j < |cols| ==> cols[i] != cols[j]
  }

  /** Labels are distinct (as `read_csv` makes them) and every row has one cell per column. */
  predicate WellFormed(t: Table) {
    Distinct(t.columns) && forall j :: 0 <= j < |t.rows| ==> |t.rows[j]| == |t.columns|
  }

  predicate AllWellFormed(ts: seq<Table>) {
    forall i :: 0 <= i < |ts| ==> WellFormed(ts[i])
  }

  /** The position of the first column labelled `c`. */
  function IndexOf(cols: seq<string>, c: string): (i: nat)
    requires c in cols
    ensures i < |cols| && cols[i] == c
    ensures c !in cols[..i]
  {
    if cols[0] == c then 0
    else
      var k := IndexOf(cols[1..], c);
      assert cols[..k + 1] == [cols[0]] + cols[1..][..k];
      k + 1
  }

  /** The cell a row holds under label `c`, or Missing when its frame has no such column. */
  function Lookup(cols: seq<string>, row: Row, c: string): Cell
    requires |row| == |cols|
  {
    if c in cols then row[IndexOf(cols, c)] else Missing
  }

  /** A row of a frame with columns `cols`, reindexed to the columns `target`. */
  function Align(cols: seq<string>, row: Row, target: seq<string>): (r: Row)
    requires |row| == |cols|
    ensures |r| == |target|
  {
    seq(|target|, k requires 0 <= k < |target| => Lookup(cols, row, target[k]))
  }

  /** `t.insert(0, name, value)`: a new first column holding `value` on every row. */
  function InsertColumn(t: Table, name: string, value: Cell): (r: Result<Table, FrameError>)
    requires WellFormed(t)
    ensures r.Success? ==> WellFormed(r.value)
  {
    if name in t.columns then Failure(ColumnExists(name))
    else
      var rows := seq(|t.rows|, j requires 0 <= j < |t.rows| => [value] + t.rows[j]);
      assert forall k :: 0 < k < |t.columns| + 1 ==> ([name] + t.columns)[k] == t.columns[k - 1];
      Success(Table([name] + t.columns, rows))
  }

  /** The first column removed again. */
  function DropFirstColumn(t: Table): Table
    requires |t.columns| > 0
    requires forall j :: 0 <= j < |t.rows| ==> |t.rows[j]| > 0
  {
    Table(t.columns[1..], seq(|t.rows|, j requires 0 <= j < |t.rows| => t.rows[j][1..]))
  }

  /** `acc` followed by the labels of `cols` it lacks, each once, in their order. */
  function AddNew(acc: seq<string>, cols: seq<string>): seq<string>
    decreases |cols|
  {
    if |cols| == 0 then acc
    else if cols[0] in acc then AddNew(acc, cols[1..])
    else AddNew(acc + [cols[0]], cols[1..])
  }

  function UnionFrom(acc: seq<string>, ts: seq<Table>): seq<string>
    decreases |ts|
  {
    if |ts| == 0 then acc else UnionFrom(AddNew(acc, ts[0].columns), ts[1..])
  }

  /** The outer join of the frames' columns, in order of first appearance (`sort=False`). */
  function UnionColumns(ts: seq<Table>): seq<string> {
    UnionFrom([], ts)
  }

  function RowCount(ts: seq<Table>): nat {
    if |ts| == 0 then 0 else |ts[0].rows| + RowCount(ts[1..])
  }

  /** The number of rows before the block of frame `i`. */
  function Offset(ts: seq<Table>, i: nat): nat
    requires i <= |ts|
  {
    RowCount(ts[..i])
  }

  /** The rows of one frame reindexed to `target`. */
  function Block(t: Table, target: seq<string>): seq<Row>
    requires WellFormed(t)
  {
    seq(|t.rows|, j requires 0 <= j < |t.rows| => Align(t.columns, t.rows[j], target))
  }

  /** The blocks of all frames, one after the other. */
  function Stack(ts: seq<Table>, target: seq<string>): seq<Row>
    requires AllWellFormed(ts)
  {
    if |ts| == 0 then [] else Block(ts[0], target) + Stack(ts[1..], target)
  }

  /** `pd.concat(ts)`: refuses an empty list; otherwise the union of the columns and every frame's rows in order. */
  function Concat(ts: seq<Table>): (r: Result<Table, FrameError>)
    requires AllWellFormed(ts)
  {
    if |ts| == 0 then Failure(NoObjectsToConcatenate)
    else
      var cols := UnionColumns(ts);
      Success(Table(cols, Stack(ts, cols)))
  }

  /** Row `j` of frame `i` is at `Offset(ts, i) + j` of `rows`, aligned to `target`. */
  predicate BlocksAt(ts: seq<Table>, rows: seq<Row>, target: seq<string>)
    requires AllWellFormed(ts)
  {
    forall i: nat, j: nat :: i < |ts| && j < |ts[i].rows| ==> BlockRowAt(ts, rows, target, i, j)
  }

  predicate BlockRowAt(ts: seq<Table>, rows: seq<Row>, target: seq<string>, i: nat, j: nat)
    requires AllWellFormed(ts)
    requires i < |ts| && j < |ts[i].rows|
  {
    Offset(ts, i) + j < |rows| && rows[Offset(ts, i) + j] == Align(ts[i].columns, ts[i].rows[j], target)
  }

  /** The rows of all frames, one after the other, untouched. */
  function AllRows(ts: seq<Table>): seq<Row> {
    if |ts| == 0 then [] else ts[0].rows + AllRows(ts[1..])
  }

  // ---------------------------------------------------------------------
  // Columns
  // ---------------------------------------------------------------------

  /** In a list of distinct labels the first position of a label is its only one. */
  lemma IndexOfDistinct(cols: seq<string>, k: nat)
    requires Distinct(cols) && k < |cols|
    ensures IndexOf(cols, cols[k]) == k
  {
    var i := IndexOf(cols, cols[k]);
    assert forall m :: 0 <= m < i ==> cols[..i][m] == cols[m];
  }

  /** A row aligned to its own distinct columns is the row itself. */
  lemma AlignIdentity(cols: seq<string>, row: Row)
    requires Distinct(cols) && |row| == |cols|
    ensures Align(cols, row, cols) == row
  {
    var r := Align(cols, row, cols);
    forall k | 0 <= k < |cols|
      ensures r[k] == row[k]
    {
      IndexOfDistinct(cols, k);
    }
  }

  /** Alignment keeps the value of every column the row has, and fills the others with Missing. */
  lemma AlignCells(cols: seq<string>, row: Row, target: seq<string>, k: nat)
    requires |row| == |cols| && k < |target|
    ensures target[k] in cols ==> Align(cols, row, target)[k] == row[IndexOf(cols, target[k])]
    ensures target[k] !in cols ==> Align(cols, row, target)[k] == Missing
  {
  }

  /**
   Reindexing a row to labels that include all of its own, and back, gives
   the row again: no cell is lost or moved by the union of columns.
   */
  lemma AlignRoundTrip(cols: seq<string>, row: Row, target: seq<string>)
    requires Distinct(cols) && |row| == |cols|
    requires forall c :: c in cols ==> c in target
    ensures Align(target, Align(cols, row, target), cols) == row
  {
    var wide := Align(cols, row, target);
    var back := Align(target, wide, cols);
    forall k | 0 <= k < |cols|
      ensures back[k] == row[k]
    {
      var i := IndexOf(target, cols[k]);
      AlignCells(cols, row, target, i);
      IndexOfDistinct(cols, k);
    }
  }

  /** `acc` is kept as it is, at the front. */
  lemma {:induction false} AddNewExtends(acc: seq<string>, cols: seq<string>)
    ensures |AddNew(acc, cols)| >= |acc|
    ensures AddNew(acc, cols)[..|acc|] == acc
    decreases |cols|
  {
    if |cols| > 0 {
      if cols[0] in acc {
        AddNewExtends(acc, cols[1..]);
      } else {
        AddNewExtends(acc + [cols[0]], cols[1..]);
        assert (acc + [cols[0]])[..|acc|] == acc;
      }
    }
  }

  /** The labels of the union are those of `acc` and of `cols`. */
  lemma {:induction false} AddNewMembers(acc: seq<string>, cols: seq<string>, c: string)
    ensures c in AddNew(acc, cols) <==> c in acc || c in cols
    decreases |cols|
  {
    if |cols| > 0 {
      assert cols == [cols[0]] + cols[1..];
      if cols[0] in acc {
        AddNewMembers(acc, cols[1..], c);
      } else {
        AddNewMembers(acc + [cols[0]], cols[1..], c);
      }
    }
  }

  /** No label is taken twice. */
  lemma {:induction false} AddNewDistinct(acc: seq<string>, cols: seq<string>)
    requires Distinct(acc)
    ensures Distinct(AddNew(acc, cols))
    decreases |cols|
  {
    if |cols| > 0 {
      if cols[0] in acc {
        AddNewDistinct(acc, cols[1..]);
      } else {
        var a := acc + [cols[0]];
        forall i, j | 0 <= i < j < |a|
          ensures a[i] != a[j]
        {
          if j == |acc| {
            assert a[i] in acc;
          }
        }
        AddNewDistinct(a, cols[1..]);
      }
    }
  }

  /** Labels that are all present already add nothing. */
  lemma {:induction false} AddNewPresent(acc: seq<string>, cols: seq<string>)
    requires forall c :: c in cols ==> c in acc
    ensures AddNew(acc, cols) == acc
    decreases |cols|
  {
    if |cols| > 0 {
      assert cols[0] in cols;
      AddNewPresent(acc, cols[1..]);
    }
  }

  /** Distinct labels none of which is present are all appended, in order. */
  lemma {:induction false} AddNewFresh(acc: seq<string>, cols: seq<string>)
    requires Distinct(cols)
    requires forall c :: c in cols ==> c !in acc
    ensures AddNew(acc, cols) == acc + cols
    decreases |cols|
  {
    if |cols| > 0 {
      assert cols[0] in cols;
      var rest := cols[1..];
      forall c | c in rest
        ensures c !in acc + [cols[0]]
      {
        var k :| 0 <= k < |rest| && rest[k] == c;
        assert cols[k + 1] == c;
      }
      assert Distinct(rest) by {
        forall i, j | 0 <= i < j < |rest|
          ensures rest[i] != rest[j]
        {
          assert rest[i] == cols[i + 1] && rest[j] == cols[j + 1];
        }
      }
      AddNewFresh(acc + [cols[0]], rest);
      assert acc + [cols[0]] + rest == acc + cols;
    }
  }

  /** A label the new columns lack can be put in front of the union. */
  lemma {:induction false} AddNewFront(f: string, acc: seq<string>, cols: seq<string>)
    requires f !in cols
    ensures AddNew([f] + acc, cols) == [f] + AddNew(acc, cols)
    decreases |cols|
  {
    if |cols| > 0 {
      assert cols[0] in cols;
      assert cols == [cols[0]] + cols[1..];
      assert cols[0] in [f] + acc <==> cols[0] in acc;
      assert [f] + acc + [cols[0]] == [f] + (acc + [cols[0]]);
      AddNewFront(f, acc, cols[1..]);
      AddNewFront(f, acc + [cols[0]], cols[1..]);
    }
  }

  /** A label is in the union exactly when some frame has it. */
  lemma {:induction false} UnionFromMembers(acc: seq<string>, ts: seq<Table>, c: string)
    ensures c in UnionFrom(acc, ts) <==> c in acc || exists i :: 0 <= i < |ts| && c in ts[i].columns
    decreases |ts|
  {
    if |ts| > 0 {
      AddNewMembers(acc, ts[0].columns, c);
      UnionFromMembers(AddNew(acc, ts[0].columns), ts[1..], c);
      if exists i :: 0 <= i < |ts| && c in ts[i].columns {
        var i :| 0 <= i < |ts| && c in ts[i].columns;
        if i > 0 {
          assert ts[1..][i - 1] == ts[i];
        }
      }
      if exists i :: 0 <= i < |ts[1..]| && c in ts[1..][i].columns {
        var i :| 0 <= i < |ts[1..]| && c in ts[1..][i].columns;
        assert ts[i + 1] == ts[1..][i];
      }
    }
  }

  lemma {:induction false} UnionFromDistinct(acc: seq<string>, ts: seq<Table>)
    requires Distinct(acc)
    ensures Distinct(UnionFrom(acc, ts))
    decreases |ts|
  {
    if |ts| > 0 {
      AddNewDistinct(acc, ts[0].columns);
      UnionFromDistinct(AddNew(acc, ts[0].columns), ts[1..]);
    }
  }

  lemma {:induction false} UnionFromExtends(acc: seq<string>, ts: seq<Table>)
    ensures |UnionFrom(acc, ts)| >= |acc|
    ensures UnionFrom(acc, ts)[..|acc|] == acc
    decreases |ts|
  {
    if |ts| > 0 {
      var next := AddNew(acc, ts[0].columns);
      AddNewExtends(acc, ts[0].columns);
      UnionFromExtends(next, ts[1..]);
      assert UnionFrom(acc, ts)[..|next|][..|acc|] == UnionFrom(acc, ts)[..|acc|];
    }
  }

  /** Frames whose labels are all present already add nothing. */
  lemma {:induction false} UnionFromPresent(acc: seq<string>, ts: seq<Table>)
    requires forall i, c :: 0 <= i < |ts| && c in ts[i].columns ==> c in acc
    ensures UnionFrom(acc, ts) == acc
    decreases |ts|
  {
    if |ts| > 0 {
      AddNewPresent(acc, ts[0].columns);
      forall i, c | 0 <= i < |ts[1..]| && c in ts[1..][i].columns
        ensures c in acc
      {
        assert ts[1..][i] == ts[i + 1];
      }
      UnionFromPresent(acc, ts[1..]);
    }
  }

  /**
   The union of the columns is what `concat` promises: every label of every
   frame, each once, the first frame's labels first and in their order.
   */
  lemma UnionColumnsSpec(ts: seq<Table>)
    requires AllWellFormed(ts)
    ensures Distinct(UnionColumns(ts))
    ensures forall c :: c in UnionColumns(ts) <==> exists i :: 0 <= i < |ts| && c in ts[i].columns
    ensures |ts| > 0 ==> |UnionColumns(ts)| >= |ts[0].columns|
    ensures |ts| > 0 ==> UnionColumns(ts)[..|ts[0].columns|] == ts[0].columns
  {
    UnionFromDistinct([], ts);
    forall c
      ensures c in UnionColumns(ts) <==> exists i :: 0 <= i < |ts| && c in ts[i].columns
    {
      UnionFromMembers([], ts, c);
    }
    if |ts| > 0 {
      var first := ts[0].columns;
      assert WellFormed(ts[0]);
      AddNewFresh([], first);
      assert AddNew([], first) == first;
      UnionFromExtends(first, ts[1..]);
    }
  }

  // ---------------------------------------------------------------------
  // Rows
  // ---------------------------------------------------------------------

  lemma {:induction false} StackLength(ts: seq<Table>, target: seq<string>)
    requires AllWellFormed(ts)
    ensures |Stack(ts, target)| == RowCount(ts)
    decreases |ts|
  {
    if |ts| > 0 {
      StackLength(ts[1..], target);
    }
  }

  lemma OffsetStep(ts: seq<Table>, i: nat)
    requires 0 < i <= |ts|
    ensures Offset(ts, i) == |ts[0].rows| + Offset(ts[1..], i - 1)
  {
    assert ts[..i][1..] == ts[1..][..i - 1];
  }

  /** The last block ends where the rows end. */
  lemma {:induction false} OffsetBound(ts: seq<Table>, i: nat)
    requires i < |ts|
    ensures Offset(ts, i) + |ts[i].rows| <= RowCount(ts)
    decreases i
  {
    if i > 0 {
      OffsetStep(ts, i);
      OffsetBound(ts[1..], i - 1);
    }
  }

  /** Every row of every frame sits in the stack at its frame's offset, aligned. */
  lemma StackBlocksAt(ts: seq<Table>, target: seq<string>)
    requires AllWellFormed(ts)
    ensures BlocksAt(ts, Stack(ts, target), target)
  {
    forall i: nat, j: nat | i < |ts| && j < |ts[i].rows|
      ensures BlockRowAt(ts, Stack(ts, target), target, i, j)
    {
      StackBlock(ts, target, i, j);
    }
  }

  lemma {:induction false} StackBlock(ts: seq<Table>, target: seq<string>, i: nat, j: nat)
    requires AllWellFormed(ts)
    requires i < |ts| && j < |ts[i].rows|
    ensures Offset(ts, i) + j < |Stack(ts, target)|
    ensures Stack(ts, target)[Offset(ts, i) + j] == Align(ts[i].columns, ts[i].rows[j], target)
    decreases i
  {
    StackLength(ts, target);
    OffsetBound(ts, i);
    var head := Block(ts[0], target);
    if i > 0 {
      OffsetStep(ts, i);
      StackBlock(ts[1..], target, i - 1, j);
      assert Stack(ts, target)[Offset(ts, i) + j] == Stack(ts[1..], target)[Offset(ts[1..], i - 1) + j];
    } else {
      assert Stack(ts, target)[j] == head[j];
    }
  }

  /** Every row of the stack comes from some row of some frame. */
  lemma {:induction false} Locate(ts: seq<Table>, n: nat) returns (i: nat, j: nat)
    requires n < RowCount(ts)
    ensures i < |ts| && j < |ts[i].rows|
    ensures n == Offset(ts, i) + j
    decreases |ts|
  {
    if n < |ts[0].rows| {
      i, j := 0, n;
    } else {
      var i', j' := Locate(ts[1..], n - |ts[0].rows|);
      i, j := i' + 1, j';
      OffsetStep(ts, i);
    }
  }

  /** The stack of frames that all have the target's own columns is their rows, untouched. */
  lemma {:induction false} StackSameColumns(ts: seq<Table>, cols: seq<string>)
    requires AllWellFormed(ts)
    requires forall i :: 0 <= i < |ts| ==> ts[i].columns == cols
    ensures Stack(ts, cols) == AllRows(ts)
    decreases |ts|
  {
    if |ts| > 0 {
      var t := ts[0];
      assert WellFormed(t);
      forall j | 0 <= j < |t.rows|
        ensures Block(t, cols)[j] == t.rows[j]
      {
        AlignIdentity(cols, t.rows[j]);
      }
      StackSameColumns(ts[1..], cols);
    }
  }

  // ---------------------------------------------------------------------
  // The operations
  // ---------------------------------------------------------------------

  /**
   `insert` refuses exactly a label the frame already has; otherwise the new
   label comes first, every row starts with the value, and the rest of each
   row is the old row.
   */
  lemma InsertColumnSpec(t: Table, name: string, value: Cell)
    requires WellFormed(t)
    ensures InsertColumn(t, name, value).Failure? <==> name in t.columns
    ensures InsertColumn(t, name, value).Failure? ==> InsertColumn(t, name, value).error == ColumnExists(name)
    ensures InsertColumn(t, name, value).Success? ==>
      var u := InsertColumn(t, name, value).value;
      && |u.columns| > 0 && u.columns[0] == name && u.columns[1..] == t.columns
      && |u.rows| == |t.rows|
      && forall j :: 0 <= j < |u.rows| ==> |u.rows[j]| > 0 && u.rows[j][0] == value && u.rows[j][1..] == t.rows[j]
  {
    if name !in t.columns {
      var u := InsertColumn(t, name, value).value;
      forall j | 0 <= j < |u.rows|
        ensures u.rows[j][1..] == t.rows[j]
      {
        assert u.rows[j] == [value] + t.rows[j];
      }
    }
  }

  /** Dropping the inserted column gives the frame back. */
  lemma InsertDropRoundTrip(t: Table, name: string, value: Cell)
    requires WellFormed(t) && name !in t.columns
    ensures InsertColumn(t, name, value).Success?
    ensures DropFirstColumn(InsertColumn(t, name, value).value) == t
  {
    InsertColumnSpec(t, name, value);
    var u := InsertColumn(t, name, value).value;
    var d := DropFirstColumn(u);
    assert d.rows == t.rows;
  }

  /**
   `concat` refuses exactly the empty list. Otherwise its columns are the
   union of the frames' columns, it has as many rows as they have together,
   and row `j` of frame `i` is at `Offset(ts, i) + j` with each of its values
   under its own label and Missing under the labels its frame lacks.
   */
  lemma ConcatSpec(ts: seq<Table>)
    requires AllWellFormed(ts)
    ensures Concat(ts).Failure? <==> |ts| == 0
    ensures Concat(ts).Failure? ==> Concat(ts).error == NoObjectsToConcatenate
    ensures Concat(ts).Success? ==>
      var r := Concat(ts).value;
      && r.columns == UnionColumns(ts)
      && WellFormed(r)
      && |r.rows| == RowCount(ts)
      && BlocksAt(ts, r.rows, r.columns)
  {
    if |ts| > 0 {
      var r := Concat(ts).value;
      UnionColumnsSpec(ts);
      StackLength(ts, r.columns);
      StackBlocksAt(ts, r.columns);
      forall n | 0 <= n < |r.rows|
        ensures |r.rows[n]| == |r.columns|
      {
        var i, j := Locate(ts, n);
        StackBlock(ts, r.columns, i, j);
      }
    }
  }

  /** A value of frame `i` keeps its label in the concatenation. */
  lemma ConcatKeepsValues(ts: seq<Table>, i: nat, j: nat, c: string)
    requires AllWellFormed(ts)
    requires i < |ts| && j < |ts[i].rows| && c in ts[i].columns
    ensures Concat(ts).Success?
    ensures var r := Concat(ts).value;
      && c in r.columns
      && Offset(ts, i) + j < |r.rows|
      && |r.rows[Offset(ts, i) + j]| == |r.columns|
      && r.rows[Offset(ts, i) + j][IndexOf(r.columns, c)] == ts[i].rows[j][IndexOf(ts[i].columns, c)]
  {
    ConcatSpec(ts);
    UnionColumnsSpec(ts);
    var r := Concat(ts).value;
    assert c in r.columns;
    assert WellFormed(ts[i]);
    assert BlockRowAt(ts, r.rows, r.columns, i, j);
    AlignCells(ts[i].columns, ts[i].rows[j], r.columns, IndexOf(r.columns, c));
  }

  /** Frames with the same columns concatenate to those columns over all their rows in order. */
  lemma ConcatSameColumns(ts: seq<Table>, cols: seq<string>)
    requires AllWellFormed(ts) && |ts| > 0
    requires forall i :: 0 <= i < |ts| ==> ts[i].columns == cols
    ensures Concat(ts) == Success(Table(cols, AllRows(ts)))
  {
    assert WellFormed(ts[0]);
    AddNewFresh([], cols);
    assert AddNew([], ts[0].columns) == cols;
    UnionFromPresent(cols, ts[1..]);
    assert UnionColumns(ts) == cols;
    StackSameColumns(ts, cols);
  }
}
