/**
 `combine_data` (src/chart.py): every frame loaded from one strategy
 directory gets a first column, labelled with the filter name, holding the
 directory's tag on every row; then the frames are concatenated in the order
 the glob listed their files. Listing and reading the files happen before
 this model: it starts from the loaded frames.
 */
module Combine {
  import opened Wrappers
  import opened Frame

  /** Inserts the tag column into each frame in turn; the first frame that already has a column named `filter` stops the loop. */
  function TagAll(loaded: seq<Table>, filter: string, tag: string): (r: Result<seq<Table>, FrameError>)
    requires AllWellFormed(loaded)
    ensures r.Success? ==>
      && |r.value| == |loaded|
      && AllWellFormed(r.value)
      && forall i :: 0 <= i < |loaded| ==> InsertColumn(loaded[i], filter, Str(tag)) == Success(r.value[i])
    ensures r.Failure? ==> r.error == ColumnExists(filter) && exists i :: 0 <= i < |loaded| && filter in loaded[i].columns
    ensures (forall i :: 0 <= i < |loaded| ==> filter !in loaded[i].columns) ==> r.Success?
    decreases |loaded|
  {
    if |loaded| == 0 then Success([])
    else
      var first :- InsertColumn(loaded[0], filter, Str(tag));
      var rest :- TagAll(loaded[1..], filter, tag);
      assert forall i :: 0 < i < |loaded| ==> loaded[i] == loaded[1..][i - 1];
      Success([first] + rest)
  }

  /** `combine_data(this_path, strategy, extra_val, data_filter)` once its files are loaded. */
  function CombineData(loaded: seq<Table>, filter: string, tag: string): Result<Table, FrameError>
    requires AllWellFormed(loaded)
  {
    var tagged :- TagAll(loaded, filter, tag);
    Concat(tagged)
  }

  /** The tagged frames: the filter column first, then each loaded frame's own columns and rows. */
  predicate TaggedFrom(tagged: seq<Table>, loaded: seq<Table>, filter: string, tag: string)
  {
    && |tagged| == |loaded|
    && forall i :: 0 <= i < |loaded| ==>
         && tagged[i].columns == [filter] + loaded[i].columns
         && |tagged[i].rows| == |loaded[i].rows|
         && forall j :: 0 <= j < |loaded[i].rows| ==> tagged[i].rows[j] == [Str(tag)] + loaded[i].rows[j]
  }

  /** Row `j` of frame `i` is at `Offset(loaded, i) + j` of `rows`: the tag, then the row aligned to `target`. */
  predicate TaggedBlocksAt(loaded: seq<Table>, rows: seq<Row>, target: seq<string>, tag: string)
    requires AllWellFormed(loaded)
  {
    forall i: nat, j: nat :: i < |loaded| && j < |loaded[i].rows| ==> TaggedRowAt(loaded, rows, target, tag, i, j)
  }

  predicate TaggedRowAt(loaded: seq<Table>, rows: seq<Row>, target: seq<string>, tag: string, i: nat, j: nat)
    requires AllWellFormed(loaded)
    requires i < |loaded| && j < |loaded[i].rows|
  {
    Offset(loaded, i) + j < |rows| &&
    rows[Offset(loaded, i) + j] == [Str(tag)] + Align(loaded[i].columns, loaded[i].rows[j], target)
  }

  /** No frame has a column named `filter`. */
  predicate FilterFree(loaded: seq<Table>, filter: string) {
    forall i :: 0 <= i < |loaded| ==> filter !in loaded[i].columns
  }

  // ---------------------------------------------------------------------
  // Errors
  // ---------------------------------------------------------------------

  /**
   `combine_data` fails exactly when the glob found no file (concatenating
   nothing) or a loaded frame already has the filter column (`insert`
   refuses it), and says which.
   */
  lemma CombineDataErrors(loaded: seq<Table>, filter: string, tag: string)
    requires AllWellFormed(loaded)
    ensures CombineData(loaded, filter, tag).Failure? <==> |loaded| == 0 || !FilterFree(loaded, filter)
    ensures |loaded| == 0 ==> CombineData(loaded, filter, tag) == Failure(NoObjectsToConcatenate)
    ensures !FilterFree(loaded, filter) ==> CombineData(loaded, filter, tag) == Failure(ColumnExists(filter))
  {
    var t := TagAll(loaded, filter, tag);
    if !FilterFree(loaded, filter) {
      var i :| 0 <= i < |loaded| && filter in loaded[i].columns;
      InsertColumnSpec(loaded[i], filter, Str(tag));
    } else {
      ConcatSpec(t.value);
    }
  }

  // ---------------------------------------------------------------------
  // The combined frame
  // ---------------------------------------------------------------------

  lemma TagAllShape(loaded: seq<Table>, filter: string, tag: string)
    requires AllWellFormed(loaded) && FilterFree(loaded, filter)
    ensures TagAll(loaded, filter, tag).Success?
    ensures TaggedFrom(TagAll(loaded, filter, tag).value, loaded, filter, tag)
  {
    var tagged := TagAll(loaded, filter, tag).value;
    forall i | 0 <= i < |loaded|
      ensures tagged[i].columns == [filter] + loaded[i].columns
      ensures |tagged[i].rows| == |loaded[i].rows|
      ensures forall j :: 0 <= j < |loaded[i].rows| ==> tagged[i].rows[j] == [Str(tag)] + loaded[i].rows[j]
    {
      InsertColumnSpec(loaded[i], filter, Str(tag));
      var u := tagged[i];
      assert u.columns == [u.columns[0]] + u.columns[1..];
      forall j | 0 <= j < |loaded[i].rows|
        ensures u.rows[j] == [Str(tag)] + loaded[i].rows[j]
      {
        assert u.rows[j] == [u.rows[j][0]] + u.rows[j][1..];
      }
    }
  }

  /** Putting `filter` in front of every frame's columns puts it in front of their union. */
  lemma {:induction false} UnionFromTagged(acc: seq<string>, tagged: seq<Table>, loaded: seq<Table>, filter: string, tag: string)
    requires TaggedFrom(tagged, loaded, filter, tag) && FilterFree(loaded, filter)
    requires filter !in acc
    ensures UnionFrom([filter] + acc, tagged) == [filter] + UnionFrom(acc, loaded)
    decreases |loaded|
  {
    if |loaded| > 0 {
      var c := loaded[0].columns;
      assert tagged[0].columns == [filter] + c;
      assert filter in [filter] + acc;
      assert AddNew([filter] + acc, [filter] + c) == AddNew([filter] + acc, c);
      AddNewFront(filter, acc, c);
      var acc' := AddNew(acc, c);
      AddNewMembers(acc, c, filter);
      assert TaggedFrom(tagged[1..], loaded[1..], filter, tag) by {
        forall i | 0 <= i < |loaded[1..]|
          ensures tagged[1..][i] == tagged[i + 1] && loaded[1..][i] == loaded[i + 1]
        {
        }
      }
      assert FilterFree(loaded[1..], filter) by {
        forall i | 0 <= i < |loaded[1..]|
          ensures loaded[1..][i] == loaded[i + 1]
        {
        }
      }
      UnionFromTagged(acc', tagged[1..], loaded[1..], filter, tag);
    }
  }

  lemma UnionTagged(tagged: seq<Table>, loaded: seq<Table>, filter: string, tag: string)
    requires TaggedFrom(tagged, loaded, filter, tag) && FilterFree(loaded, filter)
    requires |loaded| > 0
    ensures UnionColumns(tagged) == [filter] + UnionColumns(loaded)
  {
    var c := loaded[0].columns;
    assert tagged[0].columns == [filter] + c;
    assert ([filter] + c)[1..] == c;
    assert [] + [filter] == [filter];
    assert AddNew([], [filter] + c) == AddNew([filter], c);
    assert AddNew([filter], [filter] + c) == AddNew([filter], c);
    assert [filter] + [] == [filter];
    UnionFromTagged([], tagged, loaded, filter, tag);
  }

  /** Tagging adds no row, so every block starts where it started before. */
  lemma {:induction false} RowCountTagged(tagged: seq<Table>, loaded: seq<Table>, filter: string, tag: string)
    requires TaggedFrom(tagged, loaded, filter, tag)
    ensures RowCount(tagged) == RowCount(loaded)
    ensures forall i :: 0 <= i <= |loaded| ==> Offset(tagged, i) == Offset(loaded, i)
    decreases |loaded|
  {
    if |loaded| > 0 {
      assert TaggedFrom(tagged[1..], loaded[1..], filter, tag) by {
        forall i | 0 <= i < |loaded[1..]|
          ensures tagged[1..][i] == tagged[i + 1] && loaded[1..][i] == loaded[i + 1]
        {
        }
      }
      RowCountTagged(tagged[1..], loaded[1..], filter, tag);
      assert |tagged[0].rows| == |loaded[0].rows|;
      forall i | 0 < i <= |loaded|
        ensures Offset(tagged, i) == Offset(loaded, i)
      {
        OffsetStep(tagged, i);
        OffsetStep(loaded, i);
      }
    }
  }

  /** A tagged row aligned to the tagged union is the tag followed by the row aligned to the plain union. */
  lemma AlignTagged(cols: seq<string>, row: Row, target: seq<string>, filter: string, tag: string)
    requires |row| == |cols| && filter !in cols && filter !in target
    ensures Align([filter] + cols, [Str(tag)] + row, [filter] + target) == [Str(tag)] + Align(cols, row, target)
  {
    var a := Align([filter] + cols, [Str(tag)] + row, [filter] + target);
    var b := [Str(tag)] + Align(cols, row, target);
    assert a[0] == Str(tag);
    forall k | 0 < k < |a|
      ensures a[k] == b[k]
    {
      var c := target[k - 1];
      assert ([filter] + target)[k] == c;
      assert c != filter;
      if c in cols {
        var p := IndexOf(cols, c);
        assert ([filter] + cols)[p + 1] == c;
        assert ([filter] + cols)[..p + 1] == [filter] + cols[..p];
        assert IndexOf([filter] + cols, c) == p + 1;
      } else {
        assert c !in [filter] + cols;
      }
    }
  }

  /**
   What `combine_data` returns for k >= 1 frames none of which has the filter
   column: the filter label first, then the union of the frames' columns;
   as many rows as the frames have together; and row `j` of frame `i`, at
   `Offset(loaded, i) + j`, is the tag followed by that row aligned to the
   union, so every original value stays under its own label.
   */
  lemma CombineDataSpec(loaded: seq<Table>, filter: string, tag: string)
    requires AllWellFormed(loaded) && |loaded| > 0 && FilterFree(loaded, filter)
    ensures CombineData(loaded, filter, tag).Success?
    ensures var r := CombineData(loaded, filter, tag).value;
      && r.columns == [filter] + UnionColumns(loaded)
      && WellFormed(r)
      && |r.rows| == RowCount(loaded)
      && TaggedBlocksAt(loaded, r.rows, UnionColumns(loaded), tag)
  {
    TagAllShape(loaded, filter, tag);
    var tagged := TagAll(loaded, filter, tag).value;
    ConcatSpec(tagged);
    UnionTagged(tagged, loaded, filter, tag);
    RowCountTagged(tagged, loaded, filter, tag);
    var r := Concat(tagged).value;
    var u := UnionColumns(loaded);
    UnionColumnsSpec(loaded);
    assert filter !in u;
    TaggedBlocks(tagged, loaded, filter, tag, r, u);
    assert CombineData(loaded, filter, tag) == Concat(tagged);
  }

  lemma TaggedBlocks(tagged: seq<Table>, loaded: seq<Table>, filter: string, tag: string, r: Table, u: seq<string>)
    requires AllWellFormed(loaded) && AllWellFormed(tagged)
    requires TaggedFrom(tagged, loaded, filter, tag) && FilterFree(loaded, filter)
    requires r.columns == [filter] + u && filter !in u
    requires BlocksAt(tagged, r.rows, r.columns)
    requires forall k :: 0 <= k <= |loaded| ==> Offset(tagged, k) == Offset(loaded, k)
    ensures TaggedBlocksAt(loaded, r.rows, u, tag)
  {
    forall i: nat, j: nat | i < |loaded| && j < |loaded[i].rows|
      ensures TaggedRowAt(loaded, r.rows, u, tag, i, j)
    {
      TaggedRow(tagged, loaded, filter, tag, r, u, i, j);
    }
  }

  lemma TaggedRow(tagged: seq<Table>, loaded: seq<Table>, filter: string, tag: string, r: Table, u: seq<string>, i: nat, j: nat)
    requires AllWellFormed(loaded) && AllWellFormed(tagged)
    requires TaggedFrom(tagged, loaded, filter, tag) && FilterFree(loaded, filter)
    requires r.columns == [filter] + u && filter !in u
    requires BlocksAt(tagged, r.rows, r.columns)
    requires forall k :: 0 <= k <= |loaded| ==> Offset(tagged, k) == Offset(loaded, k)
    requires i < |loaded| && j < |loaded[i].rows|
    ensures Offset(loaded, i) + j < |r.rows|
    ensures r.rows[Offset(loaded, i) + j] == [Str(tag)] + Align(loaded[i].columns, loaded[i].rows[j], u)
  {
    assert Offset(tagged, i) == Offset(loaded, i);
    assert i < |tagged| && j < |tagged[i].rows|;
    var row := tagged[i].rows[j];
    assert row == [Str(tag)] + loaded[i].rows[j];
    assert BlockRowAt(tagged, r.rows, r.columns, i, j);
    assert r.rows[Offset(tagged, i) + j] == Align(tagged[i].columns, row, r.columns);
    assert WellFormed(loaded[i]);
    AlignTagged(loaded[i].columns, loaded[i].rows[j], u, filter, tag);
  }

  /** Every row of the combined frame starts with the tag. */
  lemma CombineDataTagsEveryRow(loaded: seq<Table>, filter: string, tag: string)
    requires AllWellFormed(loaded) && |loaded| > 0 && FilterFree(loaded, filter)
    ensures CombineData(loaded, filter, tag).Success?
    ensures var r := CombineData(loaded, filter, tag).value;
      && |r.columns| > 0 && r.columns[0] == filter
      && forall n :: 0 <= n < |r.rows| ==> |r.rows[n]| > 0 && r.rows[n][0] == Str(tag)
  {
    CombineDataSpec(loaded, filter, tag);
    var r := CombineData(loaded, filter, tag).value;
    forall n | 0 <= n < |r.rows|
      ensures |r.rows[n]| > 0 && r.rows[n][0] == Str(tag)
    {
      var i, j := Locate(loaded, n);
      assert TaggedRowAt(loaded, r.rows, UnionColumns(loaded), tag, i, j);
    }
  }

  /** A value of row `j` of frame `i` under label `c` is found under `c` in the combined frame. */
  lemma CombineDataKeepsValues(loaded: seq<Table>, filter: string, tag: string, i: nat, j: nat, c: string)
    requires AllWellFormed(loaded) && FilterFree(loaded, filter)
    requires i < |loaded| && j < |loaded[i].rows| && c in loaded[i].columns
    ensures CombineData(loaded, filter, tag).Success?
    ensures var r := CombineData(loaded, filter, tag).value;
      && c in r.columns
      && Offset(loaded, i) + j < |r.rows|
      && |r.rows[Offset(loaded, i) + j]| == |r.columns|
      && r.rows[Offset(loaded, i) + j][IndexOf(r.columns, c)] == loaded[i].rows[j][IndexOf(loaded[i].columns, c)]
  {
    CombineDataSpec(loaded, filter, tag);
    var r := CombineData(loaded, filter, tag).value;
    var u := UnionColumns(loaded);
    UnionColumnsSpec(loaded);
    assert TaggedRowAt(loaded, r.rows, u, tag, i, j);
    assert c in u;
    assert c != filter;
    var p := IndexOf(u, c);
    assert r.columns[p + 1] == c;
    assert r.columns[..p + 1] == [filter] + u[..p];
    assert IndexOf(r.columns, c) == p + 1;
    assert WellFormed(loaded[i]);
    AlignCells(loaded[i].columns, loaded[i].rows[j], u, p);
  }
}
