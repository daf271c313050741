# Chart generation of graphVisualiser, modelled in Dafny

`src/chart.py` turns the CSV results of the epidemic-on-a-graph simulations into
charts. This project models what it computes, leaving out the drawing:

- `natural_keys` and `atof`, the "human" sort key that orders condition
  directories such as `path2` before `path10`;
- the stable sort of the condition directories by that key;
- `combine_data`, which loads one allocation's data files in one directory,
  tags each frame with the directory's name and concatenates them;
- `get_infected_plots`, which fills the three `ds_by_strategy` slots and
  draws one 'percent infected' plot per protection allocation;
- `get_win_charts`, which draws one 'win' plot per results file that exists;
- `create_plot`, as far as it decides which columns are read and where
  the chart is saved.

The modules follow the program's layers:

| file | module | models |
|---|---|---|
| wrappers.dfy | Wrappers | `Option` and `Result` |
| paths.dfy | Paths | `str.split('/')`, `'/'.join` and the last segment of a path |
| float_syntax.dfy | FloatSyntax | Python's `float(text)` on text whose digits are ASCII, as an exact real |
| natural_key.dfy | NaturalKey | the `re.split` of `natural_keys` (a hand-written leftmost scanner for its pattern), `atof` and `natural_keys` |
| key_order.dfy | KeyOrder | Python's `<` on strings, on floats against strings (which raises), and on lists |
| natural_sort.dfy | NaturalSort | `list.sort(key=natural_keys)` as a stable insertion sort |
| frame.dfy | Frame | `DataFrame.insert(0, …)` and `pd.concat` (outer join of columns, rows stacked in order) |
| combine.dfy | Combine | `combine_data` once its files are loaded |
| disk.dfy | Disk | the file system as a value: directory listings, glob results, and the frame each CSV file reads as |
| charts.dfy | Charts | `create_plot`, `get_win_charts`, and loops that stop at the first exception |
| aggregation.dfy | Aggregation | `get_infected_plots` |

Exceptions are values. A loop of plots returns a `Run`: the charts saved
before it stopped, and the exception that stopped it, if any. A saved chart is
a `Plot` recording its kind, allocation, range, the frame drawn and the path
it was saved at. The module-level constants (`out`, `protection_allocation`,
`ranges`, `graph_types`, `data_filter`) are a `Settings` value;
`Charts.Defaults` holds the shipped values.

## Model

| member | source | states |
|---|---|---|
| FloatSyntax.Strip | src/chart.py:109 | `float` ignores surrounding white space: the stripped text is the slice of the input after its leading white space, everything before and after that slice is white space, it starts and ends with no white space, and it is the input itself when that has none at either end. White space is the ASCII space, `\t` to `\r`, and the Unicode white space above U+007F |
| FloatSyntax.NoDigitIsNotNumber | src/chart.py:107-112 | a text with no ASCII digit is never a number. `atof` therefore returns it as text, as Python's `float` does whenever the text also satisfies `DigitsAscii` |
| FloatSyntax.AcceptedCharacters | src/chart.py:109 | the model's `float` (`ParseFloat`) accepts a text only if it consists of white space and numeral characters: digits, signs, the point, the underscore and the exponent marks. Text holding any other ASCII character, or a non-space character above U+007F, is rejected |
| FloatSyntax.UnsignedInteger | src/chart.py:109 | a run of digits is read as its integer value |
| FloatSyntax.UnsignedDotted | src/chart.py:109 | digits, a point and digits (one side non-empty) are read as the integer part plus the decimal fraction |
| FloatSyntax.NotSpecialByHead | src/chart.py:109 | text starting with neither a sign nor a letter of `inf`/`nan` is not one of the special float words |
| NaturalKey.Atof | src/chart.py:107-112 | `atof` never raises. It is a number exactly when the model's `float` (`ParseFloat`) accepts the text, and then that number is the value `ParseFloat` reads. Otherwise it is the text itself, unchanged. `ParseFloat` agrees with Python's `float` on text that satisfies `DigitsAscii` |
| NaturalKey.GroupEndLongest | src/chart.py:118 | the capture group is greedy: no longer text starting where it starts is a complete decimal run |
| NaturalKey.ScanUnique | src/chart.py:118 | the scanner's matches begin exactly at the leftmost-first positions of the pattern. No match begins inside a text piece or the tail, the pattern matches where each chunk's sign or run begins, and the search resumes where the match ends. Cutting the text around any leftmost-first positions gives exactly the scanner's pieces |
| NaturalKey.Scan | src/chart.py:118 | the matches of the pattern, leftmost first, each a digit-free gap, an optional sign and a complete decimal run; putting gaps, signs, runs and the digit-free tail back together gives the text again |
| NaturalKey.Split | src/chart.py:118 | `re.split` with one capture group gives 2k+1 pieces for the scan's k matches. Piece 2i is the text before match i and piece 2i+1 is its captured run, without the sign. The last piece is the text after the last match. No digit appears at even positions, and every odd position holds a complete decimal run |
| NaturalKey.NaturalKeys | src/chart.py:117-118 | a key alternates text and numbers; it holds the text pieces verbatim and the exact value of every captured run |
| NaturalKey.RunParses | src/chart.py:107-118 | every run the pattern captures is a literal `float` accepts, with the run's exact decimal value |
| NaturalKey.DigitFreeKey | src/chart.py:117-118 | a name without digits is a single text piece, so its key is the one-token list of the name |
| NaturalKey.SignedPairKey | src/chart.py:118 | a sign between two numbers is consumed by the pattern and appears in no piece, so it is dropped from the key |
| NaturalKey.ThreePieceKey | src/chart.py:117-118 | a name split into text, one run, text has the key `[text, value, text]` |
| NaturalKey.FivePieceKey | src/chart.py:117-118 | a name split into two runs has the key `['', value1, '', value2, '']` |
| NaturalKey.IntegerRunValue | src/chart.py:118 | a digit string is a complete run whose value is its integer value |
| NaturalKey.PointedRunValue | src/chart.py:118 | digits, a point and digits form a complete run whose value is the integer part plus the fraction |
| KeyOrder.TokenLt | src/chart.py:82 | comparing a number with a text raises exactly when the two tokens differ in kind |
| KeyOrder.KeyLtDefined | src/chart.py:82 | comparing two lists whose elements agree in kind position by position never raises |
| KeyOrder.NaturalKeysComparable | src/chart.py:82 | any two natural keys can be compared both ways without raising, because both alternate text and numbers |
| KeyOrder.KeyLtIffLessAt | src/chart.py:82 | list `<` holds exactly when, at the first position where the lists differ, the element of the first list is smaller, or the first list is a proper prefix of the second |
| KeyOrder.KeyLtIrreflexive | src/chart.py:82 | no key is smaller than itself |
| KeyOrder.KeyLtTransitive | src/chart.py:82 | key `<` is transitive on keys that agree in kind |
| KeyOrder.KeyLtAsymmetric | src/chart.py:82 | key `<` never holds both ways |
| KeyOrder.KeyLtTrichotomy | src/chart.py:82 | of two keys that agree in kind, one is smaller or they are equal |
| KeyOrder.KeyLeReflexive | src/chart.py:82 | on natural keys, "not greater" (the comparison the sort makes) is reflexive |
| KeyOrder.KeyLeTotal | src/chart.py:82 | any two natural keys are ordered one way or the other |
| KeyOrder.KeyLeTransitive | src/chart.py:82 | "not greater" is transitive on natural keys, so it is a total preorder |
| KeyOrder.KeyLeAntisymmetric | src/chart.py:82 | natural keys that are each not greater than the other are equal |
| KeyOrder.StrLtTrichotomy | src/chart.py:82 | string `<` is a strict total order: one of two strings is smaller or they are equal |
| KeyOrder.NumericOrder | src/chart.py:115-118 | names sharing a prefix and ending in different numbers are ordered by those numbers' values, not their digits |
| KeyOrder.Path2BeforePath10 | src/chart.py:115-118 | "path2" sorts before "path10", although "path10" is the smaller string |
| KeyOrder.DecimalsByValue | src/chart.py:118 | "0.05" sorts before "0.2", and "0.2" before "1.00": decimals compare by exact value |
| KeyOrder.RangeSignDropped | src/chart.py:118 | "25-250" and "25+250" have the same key, which holds 25 and 250 and no negative number |
| NaturalSort.Decorate | src/chart.py:82 | every path is paired with its own natural key, in order |
| NaturalSort.SortCorrect | src/chart.py:82 | the sort is a permutation of its input, in ascending key order, and keeps entries with equal keys in their original order |
| NaturalSort.SortUnique | src/chart.py:82 | any sorted, stable rearrangement of the entries equals the sort's result |
| NaturalSort.SortStable | src/chart.py:82 | the entries with any one key come out in the order they went in |
| NaturalSort.SortPathsCorrect | src/chart.py:82 | `all_paths.sort(key=natural_keys)` rearranges the paths into ascending natural-key order |
| Paths.SegmentsRoundTrip | src/chart.py:87 | `split('/')` yields segments without separators, and joining them gives the text back |
| Paths.JoinSegmentsRoundTrip | src/chart.py:87 | splitting a join of segments without separators gives the segments back |
| Paths.SegmentsOfJoin | src/chart.py:87 | splitting `x + "/" + y` gives the segments of `x` followed by those of `y` |
| Paths.LastSegmentOfChild | src/chart.py:87 | the tag `path.split('/')[-1]` of `dir + "/" + name` is `name` when the name has no separator |
| Frame.IndexOf | src/chart.py:91 | `list.index` returns the first position holding the value |
| Frame.InsertColumnSpec | src/chart.py:102 | `insert(0, name, value)` raises exactly when the frame already has a column `name`; otherwise the new first column holds `value` on every row and the old columns and rows follow unchanged |
| Frame.InsertDropRoundTrip | src/chart.py:102 | dropping the inserted column gives the original frame back |
| Frame.UnionColumnsSpec | src/chart.py:104 | the columns of a concatenation are distinct, are exactly the columns some frame has, and begin with the first frame's columns |
| Frame.AddNewMembers | src/chart.py:104 | a label is in the column union exactly when it was in the accumulated union or in the new frame |
| Frame.AlignIdentity | src/chart.py:104 | a row reindexed to its own distinct labels is unchanged |
| Frame.AlignRoundTrip | src/chart.py:104 | a row reindexed to labels that include all of its own, and back again, is unchanged: the union of columns loses or moves no cell |
| Frame.ConcatSpec | src/chart.py:104 | `concat` raises on an empty list only; otherwise it has the union of columns, as many rows as the frames together, and row `j` of frame `i` at offset `Offset(i) + j`, aligned |
| Frame.ConcatKeepsValues | src/chart.py:104 | every value of every frame is found under its own label in the concatenation |
| Frame.ConcatSameColumns | src/chart.py:104 | frames with the same columns concatenate to those columns over all their rows in order |
| Frame.Locate | src/chart.py:104 | every row of a concatenation comes from some row of some frame |
| Combine.TagAll | src/chart.py:100-103 | the tagging loop succeeds when no frame has the filter column, and raises `ColumnExists` only when some frame has it |
| Combine.CombineDataErrors | src/chart.py:96-104 | `combine_data` raises exactly when the glob found no file or a loaded frame already has the filter column, and says which |
| Combine.CombineDataSpec | src/chart.py:96-104 | otherwise its frame has the filter column first, then the union of the files' columns; the row count is the sum of theirs; each original row is kept, aligned, behind the tag |
| Combine.CombineDataTagsEveryRow | src/chart.py:102-104 | every row of the combined frame starts with the tag |
| Combine.CombineDataKeepsValues | src/chart.py:101-104 | every value of every loaded file stays under its own label in the combined frame |
| Disk.ReadAll | src/chart.py:100-101 | one frame per globbed file, in glob order, each the frame that file reads as |
| Disk.DirPathsMembers | src/chart.py:81 | a path is listed exactly when some directory entry is a directory with that path |
| Disk.DirPathsTags | src/chart.py:81-87 | every listed path ends in the name of a directory entry |
| Disk.ChildPathTag | src/chart.py:81-87 | the last segment of `DirEntry.path` is the entry's name, whatever the directory looks like |
| Charts.FirstMissing | src/chart.py:53-64 | no column is missing exactly when every column read is present; otherwise the first missing one in reading order |
| Charts.CreatePlotSpec | src/chart.py:40-73 | `create_plot` raises KeyError exactly when its frame lacks a column it reads, naming the first missing one in reading order (x, y, hue); otherwise it saves the frame unchanged at its save path |
| Charts.SavePathSegments | src/chart.py:51-71 | when the range and allocation contain no `/`, a 'win' or 'percent infected' plot is saved three levels below `out`: its kind's folder, the range, then `<allocation>.jpg` |
| Charts.SavePathInjective | src/chart.py:51-71 | when the ranges and allocations contain no `/`, two plots share a save path only when they have the same kind, range and allocation |
| Charts.SlashedPathsCollide | src/chart.py:62-71 | a `/` in a range or an allocation lets two different range and allocation pairs share one save path: ("a/b", "c") and ("a", "b/c") |
| Charts.SavePathOtherKind | src/chart.py:51-73 | for any other kind of plot the computed save path is `out/` |
| Charts.DefaultSavePath | src/chart.py:10-71 | with the shipped settings a plot for range "1 - 4" is saved as `charts/winners/1 - 4/<allocation>.jpg` ('win') or `charts/percent_infected/1 - 4/<allocation>.jpg` ('percent infected') |
| Charts.RunOfSpec | src/chart.py:30-37 | a loop of plots saves each iteration's plot, in order, up to the first that raises, and stops with that exception; it saves all exactly when none raises |
| Charts.ChainSpec | src/chart.py:79-80 | loops in sequence finish exactly when each does, saving everything in order; otherwise they stop at the first that raises, keeping what was saved before |
| Charts.WinRequestsIndex | src/chart.py:30-33 | iteration `(g, a, k)` of the three loops is number `g·|allocations|·|ranges| + a·|ranges| + k` and looks for `<data_path>/<graph> <range>/<allocation>Winner.csv` |
| Charts.PresentMembers | src/chart.py:34 | a results file is plotted exactly when its iteration happens and the file exists |
| Charts.PresentAppend | src/chart.py:34 | skipping missing files keeps the remaining iterations in loop order |
| Charts.GetWinChartsSpec | src/chart.py:25-37 | `get_win_charts` saves, in loop order, one 'win' plot per existing results file, showing that file's frame at `out/winners/<range>/<allocation>.jpg`, and stops at the first plot that raises |
| Aggregation.CombineAt | src/chart.py:87-104 | what `combine_data` gives for one directory and allocation is a well-formed frame when it does not raise |
| Aggregation.FillPathSpec | src/chart.py:85-88 | the inner loop appends the path's frame for allocation `t` to slot `t`, leaves the other slots alone, and raises at the first allocation with no slot or whose `combine_data` raises |
| Aggregation.CollectSpec | src/chart.py:83-88 | the nested loop finishes exactly when no iteration raises, and then slot `t` holds every directory's frame for allocation `t` in path order; otherwise it raises what the first raising iteration raises |
| Aggregation.TooManyAllocations | src/chart.py:83-86 | with more than three allocations, one condition directory is enough to make the nested loop raise |
| Aggregation.GridColumn | src/chart.py:83-88 | when the nested loop finishes, every directory's `combine_data` for each allocation succeeded, and each allocation has a slot unless there are no directories |
| Aggregation.AllocationPlotSpec | src/chart.py:90-93 | the plot for an allocation shows its slot, which is every directory's frame for that allocation concatenated in path order |
| Aggregation.InfectedFrameSpec | src/chart.py:87-104 | the plotted frame exists exactly when there is a directory; it has the filter column first, one block per directory with that directory's row count, each row tagged with the directory's last segment |
| Aggregation.BlockTagged | src/chart.py:87-104 | one directory's frame for one allocation has the filter column first and its files' rows, each tagged with the directory's name |
| Aggregation.SortedListing | src/chart.py:81-82 | the directories are listed and sorted: a permutation of the listing, in natural-key order, each ending in a directory entry's name |
| Aggregation.SortedPlotsEmpty | src/chart.py:83-91 | with no condition directories the first allocation's plot raises, as there is nothing to concatenate |
| Aggregation.SortedPlotsSpec | src/chart.py:83-93 | once the nested loop has finished over at least one directory, each allocation in turn gets the plot of its directories' frames concatenated, until one raises |
| Aggregation.SortedPlotsOutcome | src/chart.py:83-93 | the two loops of one condition have three outcomes. With no directory, the first allocation's plot raises on the empty concatenation. When no iteration of the first loop raises, every allocation's frames combine and each gets its plot. When one raises, nothing is saved and the run stops with the error of the first iteration to raise |
| Aggregation.ConditionPlotsSpec | src/chart.py:81-93 | for one graph and range, a missing directory raises NotFound. Otherwise the loops run over its subdirectories, a permutation of the listing in non-decreasing natural-key order, with the outcome `SortedPlotsOutcome` states |
| Aggregation.ConditionsIndex | src/chart.py:79-80 | the graphs and ranges are visited graph-major: pair `(g, k)` is number `g·|ranges| + k` |
| Aggregation.GetInfectedPlotsSpec | src/chart.py:77-93 | `get_infected_plots` finishes exactly when every graph and range does, saving their plots in turn; otherwise it stops at the first that raises |

## Left out

- Charts.CreatePlot: `plt.savefig` and its errors are not modelled; a plot counts as saved once its path is computed.
- Rendering is not modelled: figure sizes, seaborn styles, titles, axis labels, the line and box plots themselves, and `plt.show`. A plot is recorded as its kind, allocation, range, frame and save path.
- The legend relabelling is not modelled (src/chart.py:59-61 and 68-70). It raises IndexError when a plot has fewer than three hue levels. That depends on the drawn data, which is not modelled.
- The y values of the 'percent infected' plot, `INFECTED / num_v`, are not computed. Only the reading of the `INFECTED` column is modelled, so a missing column still raises KeyError.
- Floats are exact reals, not IEEE doubles. Two runs whose decimal values differ but round to the same double compare differently here.
- FloatSyntax.ParseFloat, FloatSyntax.NoDigitIsNotNumber, NaturalKey.Atof: non-ASCII decimal digits are not read. Python's `float` maps every Unicode decimal digit to its ASCII digit before parsing, so `float("\u0661")` is 1.0. The model has no Unicode digit table, and its `float` rejects every non-space character above U+007F (`FloatSyntax.AcceptedCharacters`). The two agree on text that satisfies `DigitsAscii`: either it has no such character, or it has an ASCII character no numeral contains.
- `float`'s `inf`, `infinity` and `nan` words are not modelled, because they have no exact value.
- NaturalKey.NaturalKeys, NaturalSort.SortPaths: both require every text piece to be `TextPieceOk` (`NameOk`, `AllNamed`). A `TextPieceOk` piece is not an `inf`/`nan` word and satisfies `DigitsAscii`. Names outside this domain are not modelled. An example is "1\u06612", whose text piece Python reads as the number 1.0. `Aggregation.NamedListings` assumes every directory listing is inside the domain.
- NaturalSort.SortPathsCorrect: the sort's TypeError path is not modelled. Inside the domain, every key alternates text and number, so no comparison can raise. Outside it, Python can raise TypeError: "1\u06612" has the number 1.0 where "1a2" has the text 'a'.
- `pd.read_csv` is not modelled. Each file's frame is part of the `Disk` input. Read failures, column dtypes and the row index labels `concat` keeps are left out. Frames are assumed to have distinct column labels, as `read_csv` makes them.
- `os.scandir`, `glob.glob` and `os.path.exists` read the `Disk` value. `Disk.Valid` states that every globbed file exists and reads as a well-formed frame, and that entry names are non-empty and contain no `/`.
- `main` and the constants `data_filepath` and `font` are not modelled. The data path is a parameter, and the other constants are a `Settings` value.
- src/graph.py and graph.py are not part of this model: they build graphs and are not called by the chart code.
- Concurrency and the timing of output are not modelled. A run is the sequence of charts saved, in order.

## Notes on the code

- `combine_data` on a directory with no matching data file raises, because `pd.concat([])` raises. It does not return an empty frame. The model follows the code.
- `os.scandir` on a condition directory that does not exist raises. It does not give an empty listing. The model follows the code (`ChartError.NotFound`).
- `ds_by_strategy` always has three slots. `ds_by_strategy[i]` is evaluated before `combine_data` is called, so a fourth allocation raises IndexError as soon as one directory exists.
- The save path joins the range and the allocation into it unchecked. A `/` in either nests the file deeper, and it lets different pairs share a path: range "a/b" with allocation "c" and range "a" with allocation "b/c" both save to `<out>/<folder>/a/b/c.jpg`. `Charts.SavePathSegments` and `Charts.SavePathInjective` require both to contain no `/`, and `Charts.SlashedPathsCollide` shows the collision.
- The save path does not mention the graph type. With more than one graph, plots for the same range and allocation overwrite each other.
- The code never creates output directories. `plt.savefig` raises FileNotFoundError when `out/winners/<range>/` or `out/percent_infected/<range>/` is missing. That error is not modelled (see Charts.CreatePlot under "Left out").
- For any other kind of plot the save path is `out/` itself, a directory, so `plt.savefig` raises there.
- The glob pattern holds a doubled separator (`<path>/<strategy>//<strategy>Data*.csv`), as the code writes it. Which files it matches is part of the `Disk` input.
