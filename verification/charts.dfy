/**
 `create_plot` and `get_win_charts` (src/chart.py) without the drawing: which
 columns a plot reads, where it is saved, and which 'win' plots are made, in
 which order. A plot is recorded as the request it was made for; rendering
 it is outside the model.
 */
module Charts {
  import opened Wrappers
  import opened Frame
  import opened Paths
  import opened Disk

  /** The module-level settings the functions read. */
  datatype Settings = Settings(
    out: string,               // `out`
    allocations: seq<string>,  // `protection_allocation`
    ranges: seq<string>,       // `ranges`
    graphs: seq<string>,       // `graph_types`
    filter: string             // `data_filter`
  )

  /** The settings as the program ships them. */
  const Defaults := Settings("charts", ["Deterministic", "Mixed", "Random"], ["1 - 4"], ["Preferential Attachment"], "MIN DEGREE")

  const WinKind := "win"
  const InfectedKind := "percent infected"

  const WinsColumn := "NUMBER OF WINS"
  const DefenceColumn := "DEFENCE STRATEGY"
  const InfectedColumn := "INFECTED"
  const StrategyColumn := "STRATEGY"

  datatype ChartError =
    | NotFound(path: string)          // `os.scandir` of a directory that does not exist
    | FrameFailed(e: FrameError)      // `insert` or `concat` refused
    | KeyError(column: string)        // a plot reads a column its frame lacks
    | SlotMissing(index: int)         // `ds_by_strategy[i]` past its three slots

  /** A saved chart: what was drawn and where it went. */
  datatype Plot = Plot(kind: string, allocation: string, range: string, data: Table, path: string)

  /** What a loop of plots leaves behind: the charts saved before it stopped, and the exception that stopped it, if any. */
  datatype Run = Run(saved: seq<Plot>, failure: Option<ChartError>)

  // ---------------------------------------------------------------------
  // create_plot
  // ---------------------------------------------------------------------

  /** The folder under `out` that a kind of plot is saved in. */
  function Folder(kind: string): string {
    if kind == WinKind then "winners" else "percent_infected"
  }

  /** `where_to_save`: `out/winners/<range>/<allocation>.jpg`, `out/percent_infected/<range>/<allocation>.jpg`, or `out/` for any other kind. */
  function SavePath(out: string, kind: string, range: string, allocation: string): string {
    if kind == WinKind || kind == InfectedKind then out + "/" + Folder(kind) + "/" + range + "/" + allocation + ".jpg"
    else out + "/"
  }

  /** The columns a plot reads, in the order it reads them: x, y, then hue. */
  function ReadColumns(kind: string, filterBy: string): seq<string> {
    if kind == WinKind then [filterBy, WinsColumn, DefenceColumn]
    else if kind == InfectedKind then [filterBy, InfectedColumn, StrategyColumn]
    else []
  }

  /** The first of `wanted` that `cols` lacks. */
  function FirstMissing(cols: seq<string>, wanted: seq<string>): (r: Option<string>)
    ensures r.None? <==> forall k :: 0 <= k < |wanted| ==> wanted[k] in cols
    ensures r.Some? ==> exists k :: 0 <= k < |wanted| && wanted[k] == r.value && r.value !in cols && forall m :: 0 <= m < k ==> wanted[m] in cols
  {
    if |wanted| == 0 then None
    else if wanted[0] in cols then
      var r := FirstMissing(cols, wanted[1..]);
      assert forall k :: 0 < k < |wanted| ==> wanted[k] == wanted[1..][k - 1];
      if r.Some? then
        var k :| 0 <= k < |wanted[1..]| && wanted[1..][k] == r.value && r.value !in cols && forall m :: 0 <= m < k ==> wanted[1..][m] in cols;
        assert wanted[k + 1] == r.value;
        r
      else r
    else Some(wanted[0])
  }

  /** `create_plot(kind, data, allocation, range, filter_by)`. */
  function CreatePlot(out: string, kind: string, data: Table, allocation: string, range: string, filterBy: string): Result<Plot, ChartError> {
    match FirstMissing(data.columns, ReadColumns(kind, filterBy))
    case Some(c) => Failure(KeyError(c))
    case None => Success(Plot(kind, allocation, range, data, SavePath(out, kind, range, allocation)))
  }

  // ---------------------------------------------------------------------
  // get_win_charts
  // ---------------------------------------------------------------------

  /** `f"{data_path}/{graph} {each_range}/{allocation}Winner.csv"`. */
  function WinFile(dataPath: string, graph: string, range: string, allocation: string): string {
    dataPath + "/" + graph + " " + range + "/" + allocation + "Winner.csv"
  }

  /** One iteration of the nested loop: the graph, allocation and range, and the results file it looks for. */
  datatype Request = Request(graph: string, allocation: string, range: string, file: string)

  function RangeRequests(dataPath: string, graph: string, allocation: string, ranges: seq<string>): seq<Request> {
    seq(|ranges|, k requires 0 <= k < |ranges| => Request(graph, allocation, ranges[k], WinFile(dataPath, graph, ranges[k], allocation)))
  }

  function AllocationRequests(dataPath: string, graph: string, allocations: seq<string>, ranges: seq<string>): seq<Request> {
    if |allocations| == 0 then []
    else RangeRequests(dataPath, graph, allocations[0], ranges) + AllocationRequests(dataPath, graph, allocations[1..], ranges)
  }

  /** Every iteration of the loops over graphs, then allocations, then ranges, in loop order. */
  function WinRequests(dataPath: string, graphs: seq<string>, allocations: seq<string>, ranges: seq<string>): seq<Request> {
    if |graphs| == 0 then []
    else AllocationRequests(dataPath, graphs[0], allocations, ranges) + WinRequests(dataPath, graphs[1..], allocations, ranges)
  }

  /** The iterations whose results file exists, in loop order. */
  function Present(rs: seq<Request>, files: map<string, Table>): (r: seq<Request>)
    ensures forall k :: 0 <= k < |r| ==> r[k].file in files
  {
    if |rs| == 0 then []
    else
      var rest := Present(rs[1..], files);
      assert forall k :: 0 < k < |rest| + 1 ==> ([rs[0]] + rest)[k] == rest[k - 1];
      (if rs[0].file in files then [rs[0]] else []) + rest
  }

  /** The plot for each kept iteration: the frame its results file reads as, drawn as a 'win' plot. */
  function WinPlots(out: string, filterBy: string, rs: seq<Request>, files: map<string, Table>): seq<Result<Plot, ChartError>>
    requires forall k :: 0 <= k < |rs| ==> rs[k].file in files
  {
    seq(|rs|, k requires 0 <= k < |rs| => CreatePlot(out, WinKind, files[rs[k].file], rs[k].allocation, rs[k].range, filterBy))
  }

  /** `get_win_charts(graphs, data_path)`. */
  function GetWinCharts(fs: Disk, s: Settings, graphs: seq<string>, dataPath: string): Run {
    var rs := Present(WinRequests(dataPath, graphs, s.allocations, s.ranges), fs.files);
    RunOf(WinPlots(s.out, s.filter, rs, fs.files))
  }

  // ---------------------------------------------------------------------
  // Runs
  // ---------------------------------------------------------------------

  /** A loop whose iterations each save a plot or raise: the plots saved before the first exception, and that exception. */
  function RunOf(results: seq<Result<Plot, ChartError>>): Run {
    if |results| == 0 then Run([], None)
    else match results[0]
      case Failure(e) => Run([], Some(e))
      case Success(p) =>
        var rest := RunOf(results[1..]);
        Run([p] + rest.saved, rest.failure)
  }

  /** One loop after another: the second runs only when the first finished. */
  function Then(first: Run, next: Run): Run {
    if first.failure.Some? then first else Run(first.saved + next.saved, next.failure)
  }

  /** Several loops in sequence, stopping at the first exception. */
  function Chain(runs: seq<Run>): Run {
    if |runs| == 0 then Run([], None) else Then(runs[0], Chain(runs[1..]))
  }

  /** Everything the loops save when none of them raises. */
  function AllSaved(runs: seq<Run>): seq<Plot> {
    if |runs| == 0 then [] else runs[0].saved + AllSaved(runs[1..])
  }

  // ---------------------------------------------------------------------
  // Save paths
  // ---------------------------------------------------------------------

  lemma PlainJpg(allocation: string)
    requires Plain(allocation)
    ensures Plain(allocation + ".jpg")
  {
    var x := allocation + ".jpg";
    forall i | 0 <= i < |x|
      ensures x[i] != '/'
    {
      if i >= |allocation| {
        assert x[i] == ".jpg"[i - |allocation|];
      }
    }
  }

  lemma FolderPlain(kind: string)
    ensures Plain(Folder(kind))
  {
  }

  /**
   A plot of either kind is saved three levels below `out`: in its kind's
   folder, then in a folder named after the range, as `<allocation>.jpg`.
   */
  lemma SavePathSegments(out: string, kind: string, range: string, allocation: string)
    requires kind == WinKind || kind == InfectedKind
    requires Plain(range) && Plain(allocation)
    ensures Segments(SavePath(out, kind, range, allocation)) == Segments(out) + [Folder(kind), range, allocation + ".jpg"]
  {
    var f, j := Folder(kind), allocation + ".jpg";
    var parts := [f, range, j];
    FolderPlain(kind);
    PlainJpg(allocation);
    assert parts[1..] == [range, j] && parts[1..][1..] == [j];
    assert JoinSegments(parts[1..][1..]) == j;
    assert JoinSegments(parts[1..]) == range + "/" + j;
    assert JoinSegments(parts) == f + "/" + (range + "/" + j);
    AppendAssoc(range + "/", allocation, ".jpg");
    AppendAssoc3(f + "/", range, "/", j);
    assert out + "/" + f + "/" + range + "/" + allocation + ".jpg" == out + "/" + (f + "/" + (range + "/" + j));
    JoinSegmentsRoundTrip(parts);
    SegmentsOfJoin(out, JoinSegments(parts));
  }

  /**
   Two plots of the two kinds that are saved under one `out` go to the same
   file only when they have the same kind, range and allocation.
   */
  lemma SavePathInjective(out: string, k1: string, r1: string, a1: string, k2: string, r2: string, a2: string)
    requires k1 == WinKind || k1 == InfectedKind
    requires k2 == WinKind || k2 == InfectedKind
    requires Plain(r1) && Plain(a1) && Plain(r2) && Plain(a2)
    requires SavePath(out, k1, r1, a1) == SavePath(out, k2, r2, a2)
    ensures k1 == k2 && r1 == r2 && a1 == a2
  {
    SavePathSegments(out, k1, r1, a1);
    SavePathSegments(out, k2, r2, a2);
    var n := |Segments(out)|;
    var x := Segments(out) + [Folder(k1), r1, a1 + ".jpg"];
    var y := Segments(out) + [Folder(k2), r2, a2 + ".jpg"];
    assert x[n] == Folder(k1) && y[n] == Folder(k2);
    assert x[n + 1] == r1 && y[n + 1] == r2;
    assert x[n + 2] == a1 + ".jpg" && y[n + 2] == a2 + ".jpg";
    assert |a1| == |a2|;
    assert a1 == (a1 + ".jpg")[..|a1|];
    assert a2 == (a2 + ".jpg")[..|a2|];
    assert |Folder(WinKind)| != |Folder(InfectedKind)|;
  }
  /**
   Without the condition that ranges and allocations hold no `/`, the save
   path is not injective: moving the `/` from the range into the allocation
   gives another pair with the same file.
   */
  lemma SlashedPathsCollide(out: string, kind: string)
    requires kind == WinKind || kind == InfectedKind
    ensures "a/b" != "a" && "c" != "b/c"
    ensures SavePath(out, kind, "a/b", "c") == SavePath(out, kind, "a", "b/c")
  {
    var f := Folder(kind);
    assert out + "/" + f + "/" + "a/b" + "/" + "c" + ".jpg" == out + "/" + f + "/" + "a" + "/" + "b/c" + ".jpg";
  }


  /** Any other kind of plot goes to `out/` itself. */
  lemma SavePathOtherKind(out: string, kind: string, range: string, allocation: string)
    requires kind != WinKind && kind != InfectedKind
    ensures Segments(SavePath(out, kind, range, allocation)) == Segments(out) + [""]
  {
    assert out + "/" == out + "/" + "";
    SegmentsOfJoin(out, "");
  }

  // ---------------------------------------------------------------------
  // Plots
  // ---------------------------------------------------------------------

  /**
   `create_plot` raises KeyError exactly when its frame lacks one of the
   columns it reads, naming the first in reading order; otherwise it saves
   the frame, unchanged, at its save path.
   */
  lemma CreatePlotSpec(out: string, kind: string, data: Table, allocation: string, range: string, filterBy: string)
    ensures var r := CreatePlot(out, kind, data, allocation, range, filterBy);
      && (r.Failure? <==> exists c :: c in ReadColumns(kind, filterBy) && c !in data.columns)
      && (r.Failure? ==> r.error.KeyError? && r.error.column in ReadColumns(kind, filterBy) && r.error.column !in data.columns)
      && (r.Failure? ==> var wanted := ReadColumns(kind, filterBy);
            exists k :: 0 <= k < |wanted| && wanted[k] == r.error.column && forall m :: 0 <= m < k ==> wanted[m] in data.columns)
      && (r.Success? ==> r.value == Plot(kind, allocation, range, data, SavePath(out, kind, range, allocation)))
  {
    var wanted := ReadColumns(kind, filterBy);
    var m := FirstMissing(data.columns, wanted);
    if m.None? {
      forall c | c in wanted
        ensures c in data.columns
      {
        var k :| 0 <= k < |wanted| && wanted[k] == c;
      }
    }
  }

  /**
   A loop of plots saves, in order, the plot of each iteration up to the
   first that raises, and stops there with that exception; it saves them
   all exactly when none raises.
   */
  lemma {:induction false} RunOfSpec(results: seq<Result<Plot, ChartError>>)
    ensures var run := RunOf(results);
      && |run.saved| <= |results|
      && (forall k :: 0 <= k < |run.saved| ==> results[k] == Success(run.saved[k]))
      && (run.failure.None? <==> |run.saved| == |results|)
      && (run.failure.Some? ==> |run.saved| < |results| && results[|run.saved|] == Failure(run.failure.value))
    decreases |results|
  {
    if |results| > 0 && results[0].Success? {
      RunOfSpec(results[1..]);
      var run := RunOf(results);
      var rest := RunOf(results[1..]);
      assert run.saved == [results[0].value] + rest.saved;
      forall k | 0 < k < |run.saved|
        ensures run.saved[k] == rest.saved[k - 1] && results[k] == results[1..][k - 1]
      {
      }
    }
  }

  /**
   Loops in sequence finish exactly when each of them does, having saved
   everything each saved, in order; otherwise they stop with the first
   exception, having saved what the loops before it saved and what the
   failing loop saved before raising.
   */
  lemma {:induction false} ChainSpec(runs: seq<Run>)
    ensures var c := Chain(runs);
      && (c.failure.None? <==> forall j :: 0 <= j < |runs| ==> runs[j].failure.None?)
      && (c.failure.None? ==> c.saved == AllSaved(runs))
      && (c.failure.Some? ==> exists j :: 0 <= j < |runs| && FailsFirstAt(runs, j) && c == Run(AllSaved(runs[..j]) + runs[j].saved, runs[j].failure))
    decreases |runs|
  {
    if |runs| > 0 {
      var c := Chain(runs);
      if runs[0].failure.Some? {
        assert FailsFirstAt(runs, 0);
        assert runs[..0] == [];
        assert AllSaved(runs[..0]) + runs[0].saved == runs[0].saved;
      } else {
        ChainSpec(runs[1..]);
        var rest := Chain(runs[1..]);
        assert c == Run(runs[0].saved + rest.saved, rest.failure);
        forall j | 0 < j < |runs|
          ensures runs[j] == runs[1..][j - 1]
        {
        }
        if rest.failure.Some? {
          var j :| 0 <= j < |runs[1..]| && FailsFirstAt(runs[1..], j) && rest == Run(AllSaved(runs[1..][..j]) + runs[1..][j].saved, runs[1..][j].failure);
          assert runs[..j + 1][1..] == runs[1..][..j];
          assert AllSaved(runs[..j + 1]) == runs[0].saved + AllSaved(runs[1..][..j]);
          AppendAssoc(runs[0].saved, AllSaved(runs[1..][..j]), runs[j + 1].saved);
          assert FailsFirstAt(runs, j + 1);
        }
      }
    }
  }

  /** The first run that raises is number `j`. */
  predicate FailsFirstAt(runs: seq<Run>, j: nat) {
    && j < |runs|
    && runs[j].failure.Some?
    && forall i :: 0 <= i < j ==> runs[i].failure.None?
  }

  // ---------------------------------------------------------------------
  // Requests
  // ---------------------------------------------------------------------

  lemma RangeRequestsIndex(dataPath: string, graph: string, allocation: string, ranges: seq<string>, k: nat)
    requires k < |ranges|
    ensures |RangeRequests(dataPath, graph, allocation, ranges)| == |ranges|
    ensures RangeRequests(dataPath, graph, allocation, ranges)[k] == Request(graph, allocation, ranges[k], WinFile(dataPath, graph, ranges[k], allocation))
  {
  }

  lemma {:induction false} AllocationRequestsLength(dataPath: string, graph: string, allocations: seq<string>, ranges: seq<string>)
    ensures |AllocationRequests(dataPath, graph, allocations, ranges)| == |allocations| * |ranges|
    decreases |allocations|
  {
    if |allocations| > 0 {
      AllocationRequestsLength(dataPath, graph, allocations[1..], ranges);
      assert |allocations| * |ranges| == |ranges| + (|allocations| - 1) * |ranges|;
    }
  }

  lemma {:induction false} AllocationRequestsIndex(dataPath: string, graph: string, allocations: seq<string>, ranges: seq<string>, a: nat, k: nat)
    requires a < |allocations| && k < |ranges|
    ensures a * |ranges| + k < |AllocationRequests(dataPath, graph, allocations, ranges)|
    ensures AllocationRequests(dataPath, graph, allocations, ranges)[a * |ranges| + k]
      == Request(graph, allocations[a], ranges[k], WinFile(dataPath, graph, ranges[k], allocations[a]))
    decreases a
  {
    AllocationRequestsLength(dataPath, graph, allocations, ranges);
    var head := RangeRequests(dataPath, graph, allocations[0], ranges);
    var tail := AllocationRequests(dataPath, graph, allocations[1..], ranges);
    if a == 0 {
      assert (head + tail)[k] == head[k];
    } else {
      AllocationRequestsIndex(dataPath, graph, allocations[1..], ranges, a - 1, k);
      assert a * |ranges| + k == |ranges| + ((a - 1) * |ranges| + k);
      assert (head + tail)[|ranges| + ((a - 1) * |ranges| + k)] == tail[(a - 1) * |ranges| + k];
      assert allocations[1..][a - 1] == allocations[a];
    }
  }

  lemma {:induction false} WinRequestsLength(dataPath: string, graphs: seq<string>, allocations: seq<string>, ranges: seq<string>)
    ensures |WinRequests(dataPath, graphs, allocations, ranges)| == |graphs| * (|allocations| * |ranges|)
    decreases |graphs|
  {
    if |graphs| > 0 {
      AllocationRequestsLength(dataPath, graphs[0], allocations, ranges);
      WinRequestsLength(dataPath, graphs[1..], allocations, ranges);
      var m := |allocations| * |ranges|;
      assert |graphs| * m == m + (|graphs| - 1) * m;
    }
  }

  /** The requests for graph `g` follow those for the graphs before it. */
  lemma {:induction false} WinRequestsBlock(dataPath: string, graphs: seq<string>, allocations: seq<string>, ranges: seq<string>, g: nat, x: nat)
    requires g < |graphs| && x < |AllocationRequests(dataPath, graphs[g], allocations, ranges)|
    ensures |WinRequests(dataPath, graphs[..g], allocations, ranges)| + x < |WinRequests(dataPath, graphs, allocations, ranges)|
    ensures WinRequests(dataPath, graphs, allocations, ranges)[|WinRequests(dataPath, graphs[..g], allocations, ranges)| + x]
      == AllocationRequests(dataPath, graphs[g], allocations, ranges)[x]
    decreases g
  {
    var head := AllocationRequests(dataPath, graphs[0], allocations, ranges);
    var tail := WinRequests(dataPath, graphs[1..], allocations, ranges);
    assert WinRequests(dataPath, graphs, allocations, ranges) == head + tail;
    if g == 0 {
      assert graphs[..0] == [];
    } else {
      var before := graphs[..g];
      assert before[0] == graphs[0] && before[1..] == graphs[1..][..g - 1];
      assert graphs[1..][g - 1] == graphs[g];
      WinRequestsBlock(dataPath, graphs[1..], allocations, ranges, g - 1, x);
      var n := |WinRequests(dataPath, graphs[1..][..g - 1], allocations, ranges)|;
      assert |WinRequests(dataPath, before, allocations, ranges)| == |head| + n;
      assert (head + tail)[|head| + (n + x)] == tail[n + x];
    }
  }

  /**
   `get_win_charts` looks at one results file per graph, allocation and
   range, graph-major and range-minor: iteration `(g, a, k)` is number
   `g * |allocations| * |ranges| + a * |ranges| + k`.
   */
  lemma WinRequestsIndex(dataPath: string, graphs: seq<string>, allocations: seq<string>, ranges: seq<string>, g: nat, a: nat, k: nat, i: nat)
    requires g < |graphs| && a < |allocations| && k < |ranges|
    requires i == g * (|allocations| * |ranges|) + a * |ranges| + k
    ensures i < |WinRequests(dataPath, graphs, allocations, ranges)|
    ensures WinRequests(dataPath, graphs, allocations, ranges)[i]
      == Request(graphs[g], allocations[a], ranges[k], WinFile(dataPath, graphs[g], ranges[k], allocations[a]))
  {
    WinRequestsLength(dataPath, graphs[..g], allocations, ranges);
    assert |graphs[..g]| == g;
    AllocationRequestsIndex(dataPath, graphs[g], allocations, ranges, a, k);
    WinRequestsBlock(dataPath, graphs, allocations, ranges, g, a * |ranges| + k);
  }

  /** A request is kept exactly when it was made and its results file exists. */
  lemma {:induction false} PresentMembers(rs: seq<Request>, files: map<string, Table>, x: Request)
    ensures x in Present(rs, files) <==> x in rs && x.file in files
    decreases |rs|
  {
    if |rs| > 0 {
      PresentMembers(rs[1..], files, x);
      assert rs == [rs[0]] + rs[1..];
    }
  }

  /** Keeping the present requests commutes with concatenation, so they stay in loop order. */
  lemma {:induction false} PresentAppend(a: seq<Request>, b: seq<Request>, files: map<string, Table>)
    ensures Present(a + b, files) == Present(a, files) + Present(b, files)
    decreases |a|
  {
    if |a| > 0 {
      assert (a + b)[1..] == a[1..] + b;
      PresentAppend(a[1..], b, files);
    } else {
      assert a + b == b;
    }
  }

  /**
   `get_win_charts` saves, in loop order, one 'win' plot per results file
   that exists, skipping the others; each is saved at
   `out/winners/<range>/<allocation>.jpg` and shows the frame its file
   reads as. It stops at the first plot that raises.
   */
  lemma GetWinChartsSpec(fs: Disk, s: Settings, graphs: seq<string>, dataPath: string)
    ensures var rs := Present(WinRequests(dataPath, graphs, s.allocations, s.ranges), fs.files);
      var run := GetWinCharts(fs, s, graphs, dataPath);
      && (forall x :: x in rs <==> x in WinRequests(dataPath, graphs, s.allocations, s.ranges) && x.file in fs.files)
      && |run.saved| <= |rs|
      && (run.failure.None? <==> |run.saved| == |rs|)
      && (run.failure.Some? ==>
            && |run.saved| < |rs|
            && CreatePlot(s.out, WinKind, fs.files[rs[|run.saved|].file], rs[|run.saved|].allocation, rs[|run.saved|].range, s.filter) == Failure(run.failure.value))
      && forall k :: 0 <= k < |run.saved| ==>
           run.saved[k] == Plot(WinKind, rs[k].allocation, rs[k].range, fs.files[rs[k].file], SavePath(s.out, WinKind, rs[k].range, rs[k].allocation))
  {
    var rs := Present(WinRequests(dataPath, graphs, s.allocations, s.ranges), fs.files);
    forall x
      ensures x in rs <==> x in WinRequests(dataPath, graphs, s.allocations, s.ranges) && x.file in fs.files
    {
      PresentMembers(WinRequests(dataPath, graphs, s.allocations, s.ranges), fs.files, x);
    }
    var results := WinPlots(s.out, s.filter, rs, fs.files);
    RunOfSpec(results);
    var run := GetWinCharts(fs, s, graphs, dataPath);
    forall k | 0 <= k < |run.saved|
      ensures run.saved[k] == Plot(WinKind, rs[k].allocation, rs[k].range, fs.files[rs[k].file], SavePath(s.out, WinKind, rs[k].range, rs[k].allocation))
    {
      assert results[k] == Success(run.saved[k]);
      CreatePlotSpec(s.out, WinKind, fs.files[rs[k].file], rs[k].allocation, rs[k].range, s.filter);
    }
  }

  /**
   With the shipped settings a plot for the "1 - 4" range is saved as
   `charts/winners/1 - 4/<allocation>.jpg` ('win') or
   `charts/percent_infected/1 - 4/<allocation>.jpg` ('percent infected').
   */
  lemma DefaultSavePath(kind: string, allocation: string)
    requires kind == WinKind || kind == InfectedKind
    requires Plain(allocation)
    ensures Segments(SavePath(Defaults.out, kind, "1 - 4", allocation))
      == ["charts", if kind == WinKind then "winners" else "percent_infected", "1 - 4", allocation + ".jpg"]
  {
    assert Plain("1 - 4");
    SavePathSegments("charts", kind, "1 - 4", allocation);
    PlainSegments("charts");
  }
}
