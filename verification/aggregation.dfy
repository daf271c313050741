/**
 `get_infected_plots` (src/chart.py): for every graph and range, list the
 condition directories, sort them by natural key, combine each one's data
 for every allocation into that allocation's slot, then concatenate each
 slot and draw it as a 'percent infected' plot.
 */
module Aggregation {
  import opened Wrappers
  import opened Frame
  import opened Paths
  import opened Disk
  import opened NaturalKey
  import opened KeyOrder
  import opened NaturalSort
  import opened Combine
  import opened Charts

  /** `ds_by_strategy = [[], [], []]`: one slot per allocation, three of them whatever the allocations are. */
  const StrategySlots := 3

  const EmptySlots: seq<seq<Table>> := [[], [], []]

  /** `data_path + "/" + graph + " " + p_range`. */
  function ConditionDir(dataPath: string, graph: string, range: string): string {
    dataPath + "/" + graph + " " + range
  }

  /** The pattern `combine_data` globs: `f"{this_path}/{strategy}/"` followed by `f"/{strategy}Data*.csv"`. */
  function StrategyPattern(path: string, strategy: string): string {
    path + "/" + strategy + "/" + "/" + strategy + "Data*.csv"
  }

  /** The frames of the data files of one allocation in one condition directory, in glob order. */
  function Loaded(fs: Disk, path: string, strategy: string): (r: seq<Table>)
    requires Valid(fs)
    ensures AllWellFormed(r)
  {
    ReadAll(fs, Glob(fs, StrategyPattern(path, strategy)))
  }

  /** `combine_data(path, strategy, path.split('/')[-1], data_filter)`. */
  function CombineAt(fs: Disk, path: string, strategy: string, filter: string): (r: Result<Table, FrameError>)
    requires Valid(fs)
    ensures r.Success? ==> WellFormed(r.value)
  {
    var loaded := Loaded(fs, path, strategy);
    CombineDataErrors(loaded, filter, LastSegment(path));
    if |loaded| > 0 && FilterFree(loaded, filter) then
      CombineDataSpec(loaded, filter, LastSegment(path));
      CombineData(loaded, filter, LastSegment(path))
    else
      CombineData(loaded, filter, LastSegment(path))
  }

  // ---------------------------------------------------------------------
  // The first loop: filling the slots
  // ---------------------------------------------------------------------

  /** What `combine_data` gives for each path (rows) and allocation (columns). */
  function Grid(fs: Disk, paths: seq<string>, allocations: seq<string>, filter: string): (g: seq<seq<Result<Table, FrameError>>>)
    requires Valid(fs)
    ensures |g| == |paths| && forall j :: 0 <= j < |g| ==> |g[j]| == |allocations|
  {
    seq(|paths|, j requires 0 <= j < |paths| =>
      seq(|allocations|, i requires 0 <= i < |allocations| => CombineAt(fs, paths[j], allocations[i], filter)))
  }

  /** Iteration `i` of the inner loop raises: slot `i` does not exist, or `combine_data` raises. */
  predicate StepFails(row: seq<Result<Table, FrameError>>, i: nat)
    requires i < |row|
  {
    i >= StrategySlots || row[i].Failure?
  }

  /** What a raising iteration raises: `ds_by_strategy[i]` is looked up before `combine_data` is called. */
  function StepError(row: seq<Result<Table, FrameError>>, i: nat): ChartError
    requires i < |row| && StepFails(row, i)
  {
    if i >= StrategySlots then SlotMissing(i) else FrameFailed(row[i].error)
  }

  /** The inner loop for one path, from allocation `i` on. */
  function FillPath(row: seq<Result<Table, FrameError>>, i: nat, slots: seq<seq<Table>>): (r: Result<seq<seq<Table>>, ChartError>)
    requires i <= |row| && |slots| == StrategySlots
    ensures r.Success? ==> |r.value| == StrategySlots
    decreases |row| - i
  {
    if i == |row| then Success(slots)
    else if i >= StrategySlots then Failure(SlotMissing(i))
    else match row[i]
      case Failure(e) => Failure(FrameFailed(e))
      case Success(t) => FillPath(row, i + 1, slots[i := slots[i] + [t]])
  }

  /** Slot `t` gained the frame of allocation `t`. */
  predicate SlotAppended(r: seq<seq<Table>>, slots: seq<seq<Table>>, row: seq<Result<Table, FrameError>>, t: nat) {
    t < |r| && t < |slots| && t < |row| && row[t].Success? && r[t] == slots[t] + [row[t].value]
  }

  /** Slot `t` is as it was. */
  predicate SlotKept(r: seq<seq<Table>>, slots: seq<seq<Table>>, t: nat) {
    t < |r| && t < |slots| && r[t] == slots[t]
  }

  /** The outer loop over the sorted paths. */
  function Collect(grid: seq<seq<Result<Table, FrameError>>>, slots: seq<seq<Table>>): (r: Result<seq<seq<Table>>, ChartError>)
    requires |slots| == StrategySlots
    ensures r.Success? ==> |r.value| == StrategySlots
  {
    if |grid| == 0 then Success(slots)
    else
      var next :- FillPath(grid[0], 0, slots);
      Collect(grid[1..], next)
  }

  /** No iteration of the nested loop raises. */
  predicate NoneFails(grid: seq<seq<Result<Table, FrameError>>>) {
    forall j, i :: 0 <= j < |grid| && 0 <= i < |grid[j]| ==> !StepFails(grid[j], i)
  }

  /** Iteration `i` is the first of a path's inner loop, from iteration `from` on, to raise. */
  predicate FirstFailing(row: seq<Result<Table, FrameError>>, from: nat, i: nat) {
    && from <= i < |row|
    && StepFails(row, i)
    && forall i' :: from <= i' < i ==> !StepFails(row, i')
  }

  /** Iteration `i` for path `j` is the first of the nested loop to raise. */
  predicate FirstFailure(grid: seq<seq<Result<Table, FrameError>>>, j: nat, i: nat) {
    && j < |grid|
    && NoneFails(grid[..j])
    && FirstFailing(grid[j], 0, i)
  }

  /** What slot `t` gains in the nested loop: each path's frame for allocation `t`, in path order. */
  function Appended(grid: seq<seq<Result<Table, FrameError>>>, t: nat): seq<Table> {
    if |grid| == 0 then []
    else (if t < |grid[0]| && grid[0][t].Success? then [grid[0][t].value] else []) + Appended(grid[1..], t)
  }

  /** Every frame in the grid is well formed. */
  predicate GridWellFormed(grid: seq<seq<Result<Table, FrameError>>>) {
    forall j, i :: 0 <= j < |grid| && 0 <= i < |grid[j]| && grid[j][i].Success? ==> WellFormed(grid[j][i].value)
  }

  /** Every path's result in column `t` is a frame. */
  predicate ColumnSucceeds(grid: seq<seq<Result<Table, FrameError>>>, t: nat) {
    forall j :: 0 <= j < |grid| ==> t < |grid[j]| && grid[j][t].Success?
  }

  /** The frames of column `t`, in path order. */
  function Column(grid: seq<seq<Result<Table, FrameError>>>, t: nat): (r: seq<Table>)
    requires ColumnSucceeds(grid, t)
    ensures |r| == |grid|
  {
    seq(|grid|, j requires 0 <= j < |grid| => grid[j][t].value)
  }

  /** Every path's `combine_data` for `strategy` succeeds. */
  predicate CombinesAll(fs: Disk, paths: seq<string>, strategy: string, filter: string)
    requires Valid(fs)
  {
    forall j :: 0 <= j < |paths| ==> CombineAt(fs, paths[j], strategy, filter).Success?
  }

  /** The frames `combine_data` gives for one allocation, one per path, in path order. */
  function Blocks(fs: Disk, paths: seq<string>, strategy: string, filter: string): (r: seq<Table>)
    requires Valid(fs) && CombinesAll(fs, paths, strategy, filter)
    ensures |r| == |paths| && AllWellFormed(r)
  {
    seq(|paths|, j requires 0 <= j < |paths| => CombineAt(fs, paths[j], strategy, filter).value)
  }

  // ---------------------------------------------------------------------
  // The second loop: one plot per allocation
  // ---------------------------------------------------------------------

  predicate SlotsWellFormed(slots: seq<seq<Table>>) {
    forall k :: 0 <= k < |slots| ==> AllWellFormed(slots[k])
  }

  /** One iteration of `for allocation in protection_allocation`: concatenate its slot and plot it. */
  function AllocationPlot(s: Settings, range: string, slots: seq<seq<Table>>, allocation: string): Result<Plot, ChartError>
    requires |slots| == StrategySlots && SlotsWellFormed(slots) && allocation in s.allocations
  {
    var k := IndexOf(s.allocations, allocation);
    if k >= StrategySlots then Failure(SlotMissing(k))
    else match Concat(slots[k])
      case Failure(e) => Failure(FrameFailed(e))
      case Success(data) => CreatePlot(s.out, InfectedKind, data, allocation, range, s.filter)
  }

  /** Every directory listing yields paths whose natural keys can be compared. */
  predicate NamedListings(fs: Disk) {
    forall d :: d in fs.dirs ==> AllNamed(DirPaths(d, fs.dirs[d]))
  }

  /** The body of `for graph ... for p_range ...` for one graph and range. */
  function ConditionPlots(fs: Disk, s: Settings, dataPath: string, graph: string, range: string): Run
    requires Valid(fs) && NamedListings(fs)
  {
    var dir := ConditionDir(dataPath, graph, range);
    match ScanDirs(fs, dir)
    case None => Run([], Some(NotFound(dir)))
    case Some(paths) => SortedPlots(fs, s, range, SortPaths(paths))
  }

  /** The two loops of one condition, over its directories once they are sorted. */
  function SortedPlots(fs: Disk, s: Settings, range: string, paths: seq<string>): Run
    requires Valid(fs)
  {
    var grid := Grid(fs, paths, s.allocations, s.filter);
    match Collect(grid, EmptySlots)
    case Failure(e) => Run([], Some(e))
    case Success(slots) =>
      CollectedWellFormed(fs, paths, s.allocations, s.filter);
      RunOf(AllocationPlots(s, range, slots))
  }

  /** The second loop's plots, one per allocation, from the filled slots. */
  function AllocationPlots(s: Settings, range: string, slots: seq<seq<Table>>): (r: seq<Result<Plot, ChartError>>)
    requires |slots| == StrategySlots && SlotsWellFormed(slots)
    ensures |r| == |s.allocations|
  {
    seq(|s.allocations|, k requires 0 <= k < |s.allocations| => AllocationPlot(s, range, slots, s.allocations[k]))
  }

  /** The graphs and ranges, graph-major. */
  function Conditions(graphs: seq<string>, ranges: seq<string>): seq<(string, string)> {
    if |graphs| == 0 then []
    else seq(|ranges|, k requires 0 <= k < |ranges| => (graphs[0], ranges[k])) + Conditions(graphs[1..], ranges)
  }

  /** `get_infected_plots(data_path)`. */
  function GetInfectedPlots(fs: Disk, s: Settings, dataPath: string): Run
    requires Valid(fs) && NamedListings(fs)
  {
    Chain(ConditionRuns(fs, s, dataPath))
  }

  /** The body of the two outer loops, once per graph and range. */
  function ConditionRuns(fs: Disk, s: Settings, dataPath: string): (r: seq<Run>)
    requires Valid(fs) && NamedListings(fs)
    ensures |r| == |Conditions(s.graphs, s.ranges)|
  {
    var cs := Conditions(s.graphs, s.ranges);
    seq(|cs|, i requires 0 <= i < |cs| => ConditionPlots(fs, s, dataPath, cs[i].0, cs[i].1))
  }

  /** The reference: the 'percent infected' plot of one allocation, straight from its `combine_data` frames. */
  function InfectedPlot(fs: Disk, s: Settings, range: string, paths: seq<string>, allocation: string): Result<Plot, ChartError>
    requires Valid(fs) && CombinesAll(fs, paths, allocation, s.filter)
  {
    match Concat(Blocks(fs, paths, allocation, s.filter))
    case Failure(e) => Failure(FrameFailed(e))
    case Success(data) => CreatePlot(s.out, InfectedKind, data, allocation, range, s.filter)
  }

  /** The reference plots of every allocation. */
  function InfectedPlots(fs: Disk, s: Settings, range: string, paths: seq<string>): (r: seq<Result<Plot, ChartError>>)
    requires Valid(fs) && forall k :: 0 <= k < |s.allocations| ==> CombinesAll(fs, paths, s.allocations[k], s.filter)
    ensures |r| == |s.allocations|
  {
    seq(|s.allocations|, k requires 0 <= k < |s.allocations| => InfectedPlot(fs, s, range, paths, s.allocations[k]))
  }

  // ---------------------------------------------------------------------
  // Lemmas: the first loop
  // ---------------------------------------------------------------------

  /**
   The inner loop for one path appends the path's frame for allocation `t`
   to slot `t`, for every allocation from `i` on, and leaves the other
   slots alone; it raises at the first allocation with no slot or whose
   `combine_data` raises.
   */
  lemma {:induction false} FillPathSpec(row: seq<Result<Table, FrameError>>, i: nat, slots: seq<seq<Table>>)
    requires i <= |row| && |slots| == StrategySlots
    ensures var r := FillPath(row, i, slots);
      && (r.Success? <==> forall i' :: i <= i' < |row| ==> !StepFails(row, i'))
      && (r.Success? ==> forall t :: i <= t < |row| ==> SlotAppended(r.value, slots, row, t))
      && (r.Success? ==> forall t :: 0 <= t < StrategySlots && !(i <= t < |row|) ==> SlotKept(r.value, slots, t))
      && (r.Failure? ==> exists i' :: FirstFailing(row, i, i') && r.error == StepError(row, i'))
    decreases |row| - i
  {
    if i < |row| {
      if i >= StrategySlots || row[i].Failure? {
        assert FirstFailing(row, i, i);
      } else {
        var next := slots[i := slots[i] + [row[i].value]];
        FillPathSpec(row, i + 1, next);
        var r := FillPath(row, i, slots);
        assert r == FillPath(row, i + 1, next);
        if r.Success? {
          forall t | i <= t < |row|
            ensures SlotAppended(r.value, slots, row, t)
          {
            if t == i {
              assert SlotKept(r.value, next, i);
            } else {
              assert SlotAppended(r.value, next, row, t);
            }
          }
          forall t | 0 <= t < StrategySlots && !(i <= t < |row|)
            ensures SlotKept(r.value, slots, t)
          {
            assert SlotKept(r.value, next, t);
          }
        } else {
          var i' :| FirstFailing(row, i + 1, i') && r.error == StepError(row, i');
          assert FirstFailing(row, i, i');
        }
      }
    }
  }

  lemma NoneFailsCons(grid: seq<seq<Result<Table, FrameError>>>)
    requires |grid| > 0
    ensures NoneFails(grid) <==> (forall i :: 0 <= i < |grid[0]| ==> !StepFails(grid[0], i)) && NoneFails(grid[1..])
  {
    assert forall j :: 0 < j < |grid| ==> grid[j] == grid[1..][j - 1];
  }

  /**
   The nested loop finishes exactly when no iteration raises, and then
   slot `t` holds, after what it held, every path's frame for allocation
   `t`, in path order; otherwise it raises what the first raising
   iteration raises.
   */
  lemma {:induction false} CollectSpec(grid: seq<seq<Result<Table, FrameError>>>, slots: seq<seq<Table>>)
    requires |slots| == StrategySlots
    ensures var r := Collect(grid, slots);
      && (r.Success? <==> NoneFails(grid))
      && (r.Success? ==> forall t :: 0 <= t < StrategySlots ==> r.value[t] == slots[t] + Appended(grid, t))
      && (r.Failure? ==> exists j: nat, i: nat :: FirstFailure(grid, j, i) && r.error == StepError(grid[j], i))
    decreases |grid|
  {
    var r := Collect(grid, slots);
    if |grid| == 0 {
      assert forall t :: 0 <= t < StrategySlots ==> slots[t] + [] == slots[t];
    } else {
      NoneFailsCons(grid);
      FillPathSpec(grid[0], 0, slots);
      var f := FillPath(grid[0], 0, slots);
      if f.Failure? {
        var i :| FirstFailing(grid[0], 0, i) && f.error == StepError(grid[0], i);
        assert grid[..0] == [];
        assert FirstFailure(grid, 0, i);
      } else {
        CollectSpec(grid[1..], f.value);
        assert r == Collect(grid[1..], f.value);
        if r.Success? {
          forall t | 0 <= t < StrategySlots
            ensures r.value[t] == slots[t] + Appended(grid, t)
          {
            var head := if t < |grid[0]| && grid[0][t].Success? then [grid[0][t].value] else [];
            if t < |grid[0]| {
              assert SlotAppended(f.value, slots, grid[0], t);
            } else {
              assert SlotKept(f.value, slots, t);
            }
            assert f.value[t] == slots[t] + head;
            AppendAssoc(slots[t], head, Appended(grid[1..], t));
          }
        } else {
          var j: nat, i: nat :| FirstFailure(grid[1..], j, i) && r.error == StepError(grid[1..][j], i);
          assert grid[..j + 1][1..] == grid[1..][..j];
          NoneFailsCons(grid[..j + 1]);
          assert FirstFailure(grid, j + 1, i);
        }
      }
    }
  }

  /** The nested loop, fed frames that are well formed, fills its slots with frames that are. */
  lemma {:induction false} AppendedWellFormed(grid: seq<seq<Result<Table, FrameError>>>, t: nat)
    requires GridWellFormed(grid)
    ensures AllWellFormed(Appended(grid, t))
    decreases |grid|
  {
    if |grid| > 0 {
      assert forall j :: 0 < j < |grid| ==> grid[j] == grid[1..][j - 1];
      AppendedWellFormed(grid[1..], t);
      var head := if t < |grid[0]| && grid[0][t].Success? then [grid[0][t].value] else [];
      var rest := Appended(grid[1..], t);
      assert forall m :: 0 <= m < |rest| ==> (head + rest)[|head| + m] == rest[m];
    }
  }

  lemma CollectWellFormed(grid: seq<seq<Result<Table, FrameError>>>, slots: seq<seq<Table>>)
    requires |slots| == StrategySlots && SlotsWellFormed(slots) && GridWellFormed(grid)
    ensures Collect(grid, slots).Success? ==> SlotsWellFormed(Collect(grid, slots).value)
  {
    CollectSpec(grid, slots);
    var r := Collect(grid, slots);
    if r.Success? {
      forall t | 0 <= t < |r.value|
        ensures AllWellFormed(r.value[t])
      {
        AppendedWellFormed(grid, t);
        var b := Appended(grid, t);
        assert r.value[t] == slots[t] + b;
        assert forall m :: 0 <= m < |b| ==> (slots[t] + b)[|slots[t]| + m] == b[m];
      }
    }
  }

  /** The slots the first loop fills from the program's own frames are well formed. */
  lemma CollectedWellFormed(fs: Disk, paths: seq<string>, allocations: seq<string>, filter: string)
    requires Valid(fs)
    ensures var c := Collect(Grid(fs, paths, allocations, filter), EmptySlots);
      c.Success? ==> SlotsWellFormed(c.value)
  {
    assert GridWellFormed(Grid(fs, paths, allocations, filter));
    assert SlotsWellFormed(EmptySlots) by {
      forall k | 0 <= k < |EmptySlots|
        ensures AllWellFormed(EmptySlots[k])
      {
        assert EmptySlots[k] == [];
      }
    }
    CollectWellFormed(Grid(fs, paths, allocations, filter), EmptySlots);
  }

  /** When every path has a frame for allocation `t`, slot `t` gains exactly those frames. */
  lemma {:induction false} AppendedColumn(grid: seq<seq<Result<Table, FrameError>>>, t: nat)
    requires ColumnSucceeds(grid, t)
    ensures Appended(grid, t) == Column(grid, t)
    decreases |grid|
  {
    if |grid| > 0 {
      assert forall j :: 0 < j < |grid| ==> grid[j] == grid[1..][j - 1];
      AppendedColumn(grid[1..], t);
      assert Column(grid, t) == [grid[0][t].value] + Column(grid[1..], t);
    }
  }

  /** Column `t` of the grid holds the frames `combine_data` gives for allocation `t`. */
  lemma GridColumnBlocks(fs: Disk, paths: seq<string>, allocations: seq<string>, filter: string, t: nat)
    requires Valid(fs) && t < |allocations| && CombinesAll(fs, paths, allocations[t], filter)
    ensures ColumnSucceeds(Grid(fs, paths, allocations, filter), t)
    ensures Column(Grid(fs, paths, allocations, filter), t) == Blocks(fs, paths, allocations[t], filter)
  {
    var grid := Grid(fs, paths, allocations, filter);
    forall j | 0 <= j < |grid|
      ensures t < |grid[j]| && grid[j][t] == CombineAt(fs, paths[j], allocations[t], filter)
    {
    }
  }

  /** When no iteration raises, every path's frame for allocation `k` exists, and allocation `k` has a slot unless there are no paths. */
  lemma GridColumn(fs: Disk, paths: seq<string>, allocations: seq<string>, filter: string, k: nat)
    requires Valid(fs) && k < |allocations| && NoneFails(Grid(fs, paths, allocations, filter))
    ensures CombinesAll(fs, paths, allocations[k], filter)
    ensures |paths| > 0 ==> k < StrategySlots
  {
    var grid := Grid(fs, paths, allocations, filter);
    forall j | 0 <= j < |paths|
      ensures CombineAt(fs, paths[j], allocations[k], filter).Success? && k < StrategySlots
    {
      assert grid[j][k] == CombineAt(fs, paths[j], allocations[k], filter);
      assert !StepFails(grid[j], k);
    }
    if |paths| > 0 {
      assert CombineAt(fs, paths[0], allocations[k], filter).Success? && k < StrategySlots;
    }
  }

  /** With more allocations than slots, one condition directory is enough to make the first loop raise. */
  lemma TooManyAllocations(fs: Disk, paths: seq<string>, allocations: seq<string>, filter: string)
    requires Valid(fs) && |paths| > 0 && |allocations| > StrategySlots
    ensures Collect(Grid(fs, paths, allocations, filter), EmptySlots).Failure?
  {
    var grid := Grid(fs, paths, allocations, filter);
    CollectSpec(grid, EmptySlots);
    assert StepFails(grid[0], StrategySlots);
  }

  // ---------------------------------------------------------------------
  // Lemmas: the second loop
  // ---------------------------------------------------------------------

  lemma IndexOfFirst(cols: seq<string>, k: nat)
    requires k < |cols|
    ensures IndexOf(cols, cols[k]) <= k
  {
  }

  /**
   Once the first loop has finished over at least one directory, the plot
   for allocation `k` is the reference plot: every directory's frame for
   that allocation, in path order, concatenated.
   */
  lemma AllocationPlotSpec(fs: Disk, s: Settings, range: string, paths: seq<string>, k: nat)
    requires Valid(fs) && k < |s.allocations| && |paths| > 0
    requires Collect(Grid(fs, paths, s.allocations, s.filter), EmptySlots).Success?
    ensures CombinesAll(fs, paths, s.allocations[k], s.filter)
    ensures var slots := Collect(Grid(fs, paths, s.allocations, s.filter), EmptySlots).value;
      SlotsWellFormed(slots) && AllocationPlot(s, range, slots, s.allocations[k]) == InfectedPlot(fs, s, range, paths, s.allocations[k])
  {
    var grid := Grid(fs, paths, s.allocations, s.filter);
    CollectSpec(grid, EmptySlots);
    CollectedWellFormed(fs, paths, s.allocations, s.filter);
    var slots := Collect(grid, EmptySlots).value;
    var a := s.allocations[k];
    GridColumn(fs, paths, s.allocations, s.filter, k);
    IndexOfFirst(s.allocations, k);
    var t := IndexOf(s.allocations, a);
    GridColumnBlocks(fs, paths, s.allocations, s.filter, t);
    AppendedColumn(grid, t);
    assert slots[t] == [] + Blocks(fs, paths, s.allocations[t], s.filter);
    assert slots[t] == Blocks(fs, paths, a, s.filter);
    assert Concat(slots[t]) == Concat(Blocks(fs, paths, a, s.filter));
  }

  /**
   The frame plotted for an allocation: the filter column first; one block
   per condition directory in path order, each of as many rows as that
   directory's data files for the allocation have together, each row
   tagged with the last segment of its directory's path. It exists
   exactly when there is at least one directory.
   */
  lemma InfectedFrameSpec(fs: Disk, paths: seq<string>, strategy: string, filter: string)
    requires Valid(fs) && CombinesAll(fs, paths, strategy, filter)
    ensures var blocks := Blocks(fs, paths, strategy, filter);
      && (Concat(blocks).Failure? <==> |paths| == 0)
      && (Concat(blocks).Failure? ==> Concat(blocks).error == NoObjectsToConcatenate)
      && (forall j :: 0 <= j < |paths| ==> |blocks[j].rows| == RowCount(Loaded(fs, paths[j], strategy)))
      && (Concat(blocks).Success? ==>
            var data := Concat(blocks).value;
            && |data.columns| > 0 && data.columns[0] == filter
            && |data.rows| == RowCount(blocks)
            && forall j, m :: 0 <= j < |paths| && 0 <= m < |blocks[j].rows| ==> BlockRowTagged(data, blocks, j, m, LastSegment(paths[j])))
  {
    var blocks := Blocks(fs, paths, strategy, filter);
    ConcatSpec(blocks);
    forall j | 0 <= j < |paths|
      ensures |blocks[j].rows| == RowCount(Loaded(fs, paths[j], strategy))
      ensures |blocks[j].columns| > 0 && blocks[j].columns[0] == filter
      ensures forall m :: 0 <= m < |blocks[j].rows| ==> |blocks[j].rows[m]| > 0 && blocks[j].rows[m][0] == Str(LastSegment(paths[j]))
    {
      BlockTagged(fs, paths[j], strategy, filter);
    }
    if |paths| > 0 {
      var data := Concat(blocks).value;
      forall j, m | 0 <= j < |paths| && 0 <= m < |blocks[j].rows|
        ensures BlockRowTagged(data, blocks, j, m, LastSegment(paths[j]))
      {
        ConcatKeepsValues(blocks, j, m, filter);
        IndexOfHead(blocks[j].columns);
        UnionColumnsSpec(blocks);
        IndexOfHead(data.columns);
      }
      UnionColumnsSpec(blocks);
    }
  }

  /** Row `m` of block `j` of the concatenated frame has `tag` in its first column. */
  predicate BlockRowTagged(data: Table, blocks: seq<Table>, j: nat, m: nat, tag: string)
    requires j < |blocks|
  {
    var n := Offset(blocks, j) + m;
    n < |data.rows| && |data.rows[n]| > 0 && data.rows[n][0] == Str(tag)
  }

  lemma IndexOfHead(cols: seq<string>)
    requires |cols| > 0
    ensures IndexOf(cols, cols[0]) == 0
  {
  }

  /** The frame of one directory for one allocation: the filter column first, its files' rows, each tagged with the directory's last segment. */
  lemma BlockTagged(fs: Disk, path: string, strategy: string, filter: string)
    requires Valid(fs) && CombineAt(fs, path, strategy, filter).Success?
    ensures var b := CombineAt(fs, path, strategy, filter).value;
      && |b.rows| == RowCount(Loaded(fs, path, strategy))
      && |b.columns| > 0 && b.columns[0] == filter
      && forall m :: 0 <= m < |b.rows| ==> |b.rows[m]| > 0 && b.rows[m][0] == Str(LastSegment(path))
  {
    var loaded := Loaded(fs, path, strategy);
    CombineDataErrors(loaded, filter, LastSegment(path));
    CombineDataSpec(loaded, filter, LastSegment(path));
    CombineDataTagsEveryRow(loaded, filter, LastSegment(path));
  }

  // ---------------------------------------------------------------------
  // Lemmas: one condition, and all of them
  // ---------------------------------------------------------------------

  /**
   The condition directories are listed and sorted: a permutation of the
   listing, in natural-key order, each path ending in the name of a
   directory entry.
   */
  lemma SortedListing(fs: Disk, dir: string)
    requires Valid(fs) && NamedListings(fs) && dir in fs.dirs
    ensures var listed := DirPaths(dir, fs.dirs[dir]);
      var sorted := SortPaths(listed);
      && multiset(sorted) == multiset(listed)
      && AllNamed(sorted)
      && (forall i, j :: 0 <= i < j < |sorted| ==> KeyLe(NaturalKeys(sorted[i]), NaturalKeys(sorted[j])))
      && forall j :: 0 <= j < |sorted| ==>
           exists k :: 0 <= k < |fs.dirs[dir]| && fs.dirs[dir][k].isDir && LastSegment(sorted[j]) == fs.dirs[dir][k].name
  {
    var listed := DirPaths(dir, fs.dirs[dir]);
    SortPathsCorrect(listed);
    DirPathsTags(dir, fs.dirs[dir]);
    var sorted := SortPaths(listed);
    forall j | 0 <= j < |sorted|
      ensures sorted[j] in listed
    {
      assert sorted[j] in multiset(sorted);
    }
  }

  /** With no condition directories the first allocation's plot raises, as there is nothing to concatenate. */
  lemma SortedPlotsEmpty(fs: Disk, s: Settings, range: string)
    requires Valid(fs)
    ensures SortedPlots(fs, s, range, []) == if |s.allocations| == 0 then Run([], None) else Run([], Some(FrameFailed(NoObjectsToConcatenate)))
  {
    var grid := Grid(fs, [], s.allocations, s.filter);
    assert grid == [];
    assert Collect(grid, EmptySlots) == Success(EmptySlots);
    if |s.allocations| > 0 {
      var x := AllocationPlots(s, range, EmptySlots);
      IndexOfHead(s.allocations);
      assert x[0] == AllocationPlot(s, range, EmptySlots, s.allocations[0]);
      assert x[0] == Failure(FrameFailed(NoObjectsToConcatenate));
    }
  }

  /**
   Once the first loop has finished over at least one directory, each
   allocation in turn gets its reference plot, the frames of the
   directories concatenated, until one raises.
   */
  lemma SortedPlotsSpec(fs: Disk, s: Settings, range: string, paths: seq<string>)
    requires Valid(fs) && |paths| > 0
    requires Collect(Grid(fs, paths, s.allocations, s.filter), EmptySlots).Success?
    ensures forall k :: 0 <= k < |s.allocations| ==> CombinesAll(fs, paths, s.allocations[k], s.filter)
    ensures SortedPlots(fs, s, range, paths) == RunOf(InfectedPlots(fs, s, range, paths))
  {
    var grid := Grid(fs, paths, s.allocations, s.filter);
    var c := Collect(grid, EmptySlots);
    CollectedWellFormed(fs, paths, s.allocations, s.filter);
    var x := AllocationPlots(s, range, c.value);
    forall k | 0 <= k < |s.allocations|
      ensures CombinesAll(fs, paths, s.allocations[k], s.filter)
      ensures x[k] == InfectedPlot(fs, s, range, paths, s.allocations[k])
    {
      AllocationPlotSpec(fs, s, range, paths, k);
    }
    assert x == InfectedPlots(fs, s, range, paths);
  }

  /**
   What the two loops of one condition give over `paths`: with no path, the
   first plot already fails on the empty concatenation; when no iteration
   of the first loop raises, every allocation's frames combine and the
   second loop plots them; when one raises, nothing is saved and the run
   stops with the error of the first iteration that raised.
   */
  ghost predicate LoopsOutcome(fs: Disk, s: Settings, range: string, paths: seq<string>, run: Run)
    requires Valid(fs)
  {
    var grid := Grid(fs, paths, s.allocations, s.filter);
    && (|paths| == 0 ==>
          run == if |s.allocations| == 0 then Run([], None) else Run([], Some(FrameFailed(NoObjectsToConcatenate))))
    && (|paths| > 0 && NoneFails(grid) ==>
          && (forall k :: 0 <= k < |s.allocations| ==> CombinesAll(fs, paths, s.allocations[k], s.filter))
          && run == RunOf(InfectedPlots(fs, s, range, paths)))
    && (!NoneFails(grid) ==>
          && run.saved == []
          && exists j: nat, i: nat :: FirstFailure(grid, j, i) && run.failure == Some(StepError(grid[j], i)))
  }

  lemma SortedPlotsOutcome(fs: Disk, s: Settings, range: string, paths: seq<string>)
    requires Valid(fs)
    ensures LoopsOutcome(fs, s, range, paths, SortedPlots(fs, s, range, paths))
  {
    var grid := Grid(fs, paths, s.allocations, s.filter);
    CollectSpec(grid, EmptySlots);
    if |paths| == 0 {
      SortedPlotsEmpty(fs, s, range);
    } else if NoneFails(grid) {
      SortedPlotsSpec(fs, s, range, paths);
    }
  }

  /**
   One graph and range: a missing directory raises; otherwise the loops run
   over the directory's subdirectories, sorted by natural key, with the
   outcome `LoopsOutcome` describes.
   */
  lemma ConditionPlotsSpec(fs: Disk, s: Settings, dataPath: string, graph: string, range: string)
    requires Valid(fs) && NamedListings(fs)
    ensures var dir := ConditionDir(dataPath, graph, range);
      var run := ConditionPlots(fs, s, dataPath, graph, range);
      && (dir !in fs.dirs ==> run == Run([], Some(NotFound(dir))))
      && (dir in fs.dirs ==>
            var listed := DirPaths(dir, fs.dirs[dir]);
            var sorted := SortPaths(listed);
            && multiset(sorted) == multiset(listed)
            && AllNamed(sorted)
            && (forall i, j :: 0 <= i < j < |sorted| ==> KeyLe(NaturalKeys(sorted[i]), NaturalKeys(sorted[j])))
            && LoopsOutcome(fs, s, range, sorted, run))
  {
    var dir := ConditionDir(dataPath, graph, range);
    if dir in fs.dirs {
      SortedListing(fs, dir);
      SortedPlotsOutcome(fs, s, range, SortPaths(DirPaths(dir, fs.dirs[dir])));
    }
  }

  lemma {:induction false} ConditionsIndex(graphs: seq<string>, ranges: seq<string>, g: nat, k: nat, i: nat)
    requires g < |graphs| && k < |ranges| && i == g * |ranges| + k
    ensures i < |Conditions(graphs, ranges)| && Conditions(graphs, ranges)[i] == (graphs[g], ranges[k])
    decreases g
  {
    var head := seq(|ranges|, k requires 0 <= k < |ranges| => (graphs[0], ranges[k]));
    assert Conditions(graphs, ranges) == head + Conditions(graphs[1..], ranges);
    if g > 0 {
      ConditionsIndex(graphs[1..], ranges, g - 1, k, i - |ranges|);
      assert graphs[1..][g - 1] == graphs[g];
    }
  }

  /**
   `get_infected_plots` works through the graphs and ranges graph-major; it
   finishes exactly when every condition does, having saved each
   condition's plots in turn, and otherwise stops at the first condition
   that raises.
   */
  lemma GetInfectedPlotsSpec(fs: Disk, s: Settings, dataPath: string)
    requires Valid(fs) && NamedListings(fs)
    ensures var runs := ConditionRuns(fs, s, dataPath);
      var all := GetInfectedPlots(fs, s, dataPath);
      && (all.failure.None? <==> forall i :: 0 <= i < |runs| ==> runs[i].failure.None?)
      && (all.failure.None? ==> all.saved == AllSaved(runs))
      && (all.failure.Some? ==> exists j: nat :: FailsFirstAt(runs, j) && all == Run(AllSaved(runs[..j]) + runs[j].saved, runs[j].failure))
  {
    ChainSpec(ConditionRuns(fs, s, dataPath));
  }
}
