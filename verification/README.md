# ccx2paraview in Dafny: the legacy VTK writer and the conversion planner

ccx2paraview converts a CalculiX `.frd` results file into one ParaView file
per time step. This project models two parts of it.

- **The legacy VTK writer** (`src/VTKWriter.py`). For one time value it
  writes four sections:
  - `POINTS`: node coordinates, with nodes renumbered 0, 1, 2, … in
    iteration order, stopping once `numnod` nodes are numbered;
  - `CELLS`: element connectivity through that renumbering. The 20-node
    brick's last eight nodes are reordered, 6- and 15-node wedges become a
    reordered 6-node wedge, and the declared cell-list size comes from the
    `totn` sum;
  - `CELL_TYPES`;
  - `POINT_DATA`: one `FIELD` section per results block at that time. Rows
    come from the `numnod` smallest node ids. Each infinity or NaN is
    written as 0.0 and counted, and one warning is logged per kind.
- **The conversion planner** (`ccx2paraview.py`, lines 38–63):
  - the node count reconciled from the lengths of the results blocks;
  - the sorted, de-duplicated, zero-padded list of step strings;
  - the output file name for each step.

The writer's output is modelled as a `VtkFile` record holding the sections in
file order, plus the list of logged warnings. The two exceptions the writer
can raise are modelled as `Err` results:
- `KeyError`: an element refers to a node that was not renumbered;
- `IndexError`: an element has too few nodes, or a block has fewer than
  `numnod` results.

Each loop of the writer that builds a section is a Dafny `method` with loop
invariants, proved equal to a specification function. Two loops are modelled
directly as functions instead: the warnings loop of `write_data`
(src/VTKWriter.py:88-90) is `Fields.ConversionWarnings`, and the file-name
loop of ccx2paraview.py:58-63 is `Planner.OutputFileNames`. The properties
the source relies on are lemmas about those functions.

Modules, one per file:
- `Wrappers`: `Result`, the exceptions, and `Collect` ("first
  exception wins").
- `Frd`: the parsed `.frd` structures.
- `Sorting`: Python's `sorted(set(...))`.
- `Decimal`: `str(n)` and zero padding.
- `Text`: `str.replace`.
- `Planner`: ccx2paraview.py.
- `Topology`: `write_element_connectivity`.
- `Fields`: `write_data`.
- `VtkWriter`: `writeVTK`.

## Model

| member | source | states |
|---|---|---|
| Topology.WriteElementConnectivity | src/VTKWriter.py:27-60 | The row built position by position (brick order r1+r3+r2, wedge order 0,2,1,3,5,4, else all nodes) equals `Connect`, including which exception is raised |
| Topology.RowLayout | src/VTKWriter.py:28-55 | The count written first is 20, 6 or len(e.nodes) and the positions read are r1+r3+r2, [0,2,1,3,5,4] or range(n), by element type |
| Topology.ReadNodes | src/VTKWriter.py:35-37 | The loop reading renumbered[e.nodes[i]] for each position equals `MapNodes`, raising the first position's IndexError or KeyError |
| Topology.Connect | src/VTKWriter.py:27-60 | A built row is the type's count prefix followed by, for each position of the type's order, the renumbered node read there; a failure is the exception of one of those reads |
| Topology.MapNodes | src/VTKWriter.py:36-58 | Succeeds iff every read position exists and names a renumbered node; the values are the renumbered nodes in order; otherwise the exception is that of the first failing position |
| Topology.BrickRow | src/VTKWriter.py:29-38 | A 20-node brick gives count 20 and the renumbered nodes 0..11, 16..19, 12..15, a permutation of all 20 |
| Topology.WedgeRow | src/VTKWriter.py:41-50 | A type 5 or type 2 element gives count 6 and corners 0,2,1,3,5,4, a permutation of the first six nodes; further nodes are dropped |
| Topology.OtherRow | src/VTKWriter.py:52-58 | Any other type gives len(e.nodes) and all renumbered nodes in their original order |
| Topology.ConnectSucceeds | src/VTKWriter.py:27-58 | The row is built iff the element has at least 20 / 6 / 0 nodes (by type) and every node read was renumbered |
| Topology.OrderInBounds | src/VTKWriter.py:28-56 | Every position a type reads exists iff the element lists at least 20 / 6 / 0 nodes |
| Topology.CountMatchesIndices | src/VTKWriter.py:29-58 | The count prefix equals the number of indices written after it |
| Topology.ConnectIndicesAreNumbers | src/VTKWriter.py:37-57 | Every index in a row is a new node number |
| Topology.BrickOrderIsInvolution | src/VTKWriter.py:32-35 | The brick reordering is a bijection of 0..19 and its own inverse |
| Topology.WedgeOrderIsInvolution | src/VTKWriter.py:48 | The wedge reordering is a bijection of 0..5 and its own inverse |
| Topology.BrickSwapKeepsElements | src/VTKWriter.py:35 | Swapping blocks 12..15 and 16..19 keeps the multiset of nodes |
| Topology.WedgeSwapKeepsElements | src/VTKWriter.py:48 | The wedge reordering keeps the multiset of nodes |
| Fields.WriteValues | src/VTKWriter.py:76-85 | The inner loop writes each value (infinities and NaNs as 0.0) and advances each counter by the number of values of its kind |
| Fields.WriteRows | src/VTKWriter.py:72-85 | The row loop completes iff numnod does not exceed the number of ids; then row m holds the written results of the m-th id and the counters are the numbers of infinities and NaNs read |
| Fields.WriteData | src/VTKWriter.py:64-90 | The FIELD section and warnings equal `FieldData`; reading past the sorted ids raises |
| Fields.SortedIds | src/VTKWriter.py:67 | The block's node ids in strictly ascending order, each of them once |
| Fields.SelectedResults | src/VTKWriter.py:72-74 | Row n holds the results of the n-th smallest node id |
| Fields.FieldData | src/VTKWriter.py:64-90 | Succeeds iff numnod does not exceed the number of results; otherwise `TooFewResults` |
| Fields.FieldDataShape | src/VTKWriter.py:65-66 | The section carries the block name, the component count and numnod rows |
| Fields.FieldRowIsNthSmallest | src/VTKWriter.py:67-74 | Row n holds the written values of the node with exactly n smaller ids in the block |
| Fields.Written | src/VTKWriter.py:79-85 | A finite value is written unchanged; ±Inf and NaN are written as 0.0 |
| Fields.WrittenRow | src/VTKWriter.py:76-85 | One written number per value of the row, each value converted by `Written` |
| Fields.ConversionWarnings | src/VTKWriter.py:88-90 | At most two warnings, each a conversion warning with a positive count |
| Fields.CountsAreMultiplicities | src/VTKWriter.py:70-84 | The 'Inf' counter is the number of infinities of either sign, the 'NaN' counter the number of NaNs |
| Fields.FieldDataWarnings | src/VTKWriter.py:70-90 | A warning is logged for a kind iff its count is positive, carrying that count; one per such kind, the 'Inf' one first, and no other warning is logged |
| Fields.WarningsPerKind | src/VTKWriter.py:70-90 | Exactly one warning per kind with a positive counter, carrying that counter, 'Inf' before 'NaN', and nothing else |
| VtkWriter.WritePoints | src/VTKWriter.py:103-118 | The loop writes the first `NumberedCount` nodes' coordinates and numbers them 0, 1, … in order, stopping when the counter reaches numnod |
| VtkWriter.NumberedCount | src/VTKWriter.py:105-118 | The POINTS loop visits at most all nodes; it stops exactly at numnod when 1 <= numnod <= node count, stops early only then, and never stops early when numnod is 0 or at least the node count |
| VtkWriter.Renumbering | src/VTKWriter.py:104-115 | The numbered ids are the first k nodes' ids, node j getting number j |
| VtkWriter.PointRows | src/VTKWriter.py:106-111 | Point j is node j's coordinates |
| VtkWriter.RenumberingIsBijection | src/VTKWriter.py:104-115 | The renumbering maps the first k ids one-to-one onto 0..k-1 |
| VtkWriter.NumberingBounds | src/VTKWriter.py:117-118 | With numnod > 0 all numbers are below numnod; numnod == 0 numbers every node; numnod within range numbers exactly numnod nodes |
| VtkWriter.Tally | src/VTKWriter.py:124-126 | For an element with the positions its type reads, the term added to totn is at least the row's count prefix, and equal to it iff the element has the standard node count |
| VtkWriter.TotalNodes | src/VTKWriter.py:123-126 | The totn sum includes every element's term |
| VtkWriter.CellListSize | src/VTKWriter.py:123-127 | The declared size is numelem plus 6 per type-5 element plus the node count of every other element |
| VtkWriter.CellRows | src/VTKWriter.py:128-129 | One row per element, each the element's `Connect`; the first failing element raises its exception |
| VtkWriter.WriteCells | src/VTKWriter.py:128-129 | The loop equals `CellRows` |
| VtkWriter.SizeExceedsTokens | src/VTKWriter.py:123-129 | Given rows of the lengths the count prefixes announce, the `totn` size is at least the rows' token count, with equality iff every element has the standard node count |
| VtkWriter.CellListSizeMatchesRows | src/VTKWriter.py:123-129 | The declared size is at least the rows' token count, with equality iff every type-4 element has 20 nodes and every type-2 element has 6 |
| VtkWriter.CellTypeRows | src/VTKWriter.py:133-136 | One converted type code per element, in element order |
| VtkWriter.WriteCellTypes | src/VTKWriter.py:133-136 | The loop equals `CellTypeRows` |
| VtkWriter.BlockOutput | src/VTKWriter.py:142-156 | Raises iff the block is at the requested time, has data, and has fewer results than numnod |
| VtkWriter.PointData | src/VTKWriter.py:141-156 | Succeeds iff every block's output succeeds |
| VtkWriter.WritePointData | src/VTKWriter.py:140-156 | The loop equals `PointData`: other times are skipped, empty blocks are only logged, the first failing block raises |
| VtkWriter.WrittenBlocksAreThoseAtTime | src/VTKWriter.py:141-144 | A block gets a FIELD section iff its value equals the time and it has results and components |
| VtkWriter.PointDataFields | src/VTKWriter.py:141-154 | One FIELD section per written block, in order, each being that block's `FieldData` with numnod rows |
| VtkWriter.EmptyBlocksReported | src/VTKWriter.py:141-156 | Every block at the time with no results or no components is reported, and every NoData warning reports such a block |
| VtkWriter.Convert | src/VTKWriter.py:94-156 | The file is written iff the CELLS rows and the POINT_DATA sections both succeed; otherwise the exception is that of CELLS when it raises, else that of POINT_DATA |
| VtkWriter.WriteVtk | src/VTKWriter.py:94-156 | The sections written in order equal `Convert` |
| VtkWriter.ConvertSucceeds | src/VTKWriter.py:94-156 | The file is written iff every element has its positions and reads only numbered nodes, and every written block has at least numnod results |
| VtkWriter.DocumentShape | src/VTKWriter.py:103-140 | POINTS and POINT_DATA declare numnod; the points are the first nodes up to numnod (all of them when numnod is 0 or too large); CELLS and CELL_TYPES declare numelem and hold one row per element |
| VtkWriter.CellIndicesInRange | src/VTKWriter.py:104-129 | Every index in every CELLS row is below the number of points written |
| VtkWriter.DeclaredCellListSize | src/VTKWriter.py:123-129 | With numelem equal to the number of elements, the CELLS size equals the rows' tokens iff all bricks have 20 nodes and all type-2 wedges have 6; otherwise it is larger |
| VtkWriter.DocumentFields | src/VTKWriter.py:140-156 | The FIELD sections are those of exactly the blocks at the time that have data, in order, named after them, with numnod rows |
| Wrappers.Collect | src/VTKWriter.py:128-129 | Steps run in order: all values, or the exception of the first step that raises |
| Planner.ResultLengths | ccx2paraview.py:39 | Holds every block's result count, all non-negative, and no more distinct lengths than blocks |
| Planner.ReconcileNodeCount | ccx2paraview.py:39-42 | One distinct length gives that length; three give a length with one larger and one smaller; otherwise the declared numnod |
| Planner.ReconcileThreeIsMiddle | ccx2paraview.py:39-40 | With three distinct lengths, they are exactly lo < nn < hi |
| Planner.StepNumbers | ccx2paraview.py:51 | The distinct step numbers in strictly ascending order; empty iff there are no blocks |
| Planner.PadSteps | ccx2paraview.py:53 | Each step number zero-padded to the width |
| Planner.PadStepsReadBack | ccx2paraview.py:52-53 | Padded strings read back as their step numbers, are at least the width long and are pairwise distinct |
| Planner.StepList | ccx2paraview.py:51-54 | ['1'] without blocks; otherwise the numbers padded to len(str(len(steps))); all digits |
| Planner.StepListReadsBack | ccx2paraview.py:51-54 | One string per distinct step number; each reads back as its number, in strictly ascending order, pairwise distinct |
| Planner.OutputFileName | ccx2paraview.py:58-63 | A name without '.frd' is kept; '<base>.frd' with no other '.frd' becomes '<base>.<step>.<fmt>' with several steps and '<base>.<fmt>' otherwise |
| Planner.OutputFileNames | ccx2paraview.py:58-63 | One name per step, '.frd' replaced by '.<step>.<fmt>' with several steps and by '.<fmt>' otherwise |
| Planner.JobFileNames | ccx2paraview.py:58-63 | For '<job>.frd': a single step gives '<job>.<fmt>'; several give '<job>.<step>.<fmt>' |
| Planner.OutputFileNamesDistinct | ccx2paraview.py:58-63 | With several steps and '.frd' in the name, no two steps get the same output file |
| Sorting.SortedSet | ccx2paraview.py:51 | Strictly ascending, same elements, one per element of the set |
| Sorting.SortedSetDescending | ccx2paraview.py:39 | Strictly descending, same elements, one per element of the set |
| Sorting.RankInSortedSet | src/VTKWriter.py:67 | The n-th sorted element has exactly n smaller elements |
| Sorting.SecondOfThree | ccx2paraview.py:39-40 | Element 1 of a three-element descending sort lies strictly between the other two |
| Decimal.DecimalString | ccx2paraview.py:52 | str(n): non-empty, all digits, no leading zero |
| Decimal.ParseDecimalString | ccx2paraview.py:52 | str(n) reads back as n |
| Decimal.DigitCount | ccx2paraview.py:52 | len(str(n)) is the number of decimal digits: 10^(len-1) <= n < 10^len |
| Decimal.ZeroPad | ccx2paraview.py:53 | '{:0{w}}': all digits, length max(w, len(str(n))), str(n) preceded by zeros |
| Decimal.ZeroPadRoundTrip | ccx2paraview.py:53 | A zero-padded number reads back as the number |
| Decimal.ZeroPadInjective | ccx2paraview.py:53 | Different numbers pad to different strings |
| Text.ReplaceAll | ccx2paraview.py:61-63 | str.replace; replacing the pattern by itself leaves the string unchanged |
| Text.ReplaceFirst | ccx2paraview.py:61-63 | With no earlier occurrence, the first occurrence becomes the replacement and the scan resumes after it, so names with several '.frd' are handled occurrence by occurrence |
| Text.ReplaceAllAbsent | ccx2paraview.py:61-63 | replace leaves a string without the pattern unchanged |
| Text.ReplaceExtension | ccx2paraview.py:61-63 | For '<base>.frd' with no other '.frd', replace('.frd', r) gives base + r |
| Text.ReplaceAllDistinct | ccx2paraview.py:61 | Replacements that differ at a position give different results |

## Left out

- Text formatting: the header lines, tabs, blank lines and the `{: .8E}` and `{:d}` number formats are not modelled. The file is a record of its sections; floating-point rounding is not modelled, and finite values are reals.
- File I/O: the contents already written when an exception escapes `writeVTK` are not modelled; the model returns only the exception.
- VtkWriter.PointData: on an exception it returns only the exception. The warnings already logged for earlier blocks (src/VTKWriter.py:90, 156) before the failing block are not returned.
- `logging.info` at src/VTKWriter.py:145-153 and its time-string formatting.
- The warning at src/VTKWriter.py:156 passes the block name as the format string and the message as an extra argument, so `logging` reports a formatting error instead. The model records the intended `NoData(name)` warning.
- `frd2vtk.convert_elem_type` is not part of this model; it is the parameter `cellType`.
- The `.frd` parser (FRDParser) is not part of this model. Its node dictionary is a sequence in insertion order with distinct ids; `WriteVtk` and `Convert` require distinct ids, as a Python dict guarantees.
- Step numbers are natural numbers, as in the `.frd` format.
- Command-line parsing, `print`, the `--skip` option (which only reaches the calls at lines 68-70, not modelled) and `os.system('py3clean .')` in ccx2paraview.py.
- ccx2paraview.py:66-70 calls `VTKWriter(p, args.skip, file_name, s, nn, ne)`. That signature does not match `writeVTK(p, file_name, time)`. The planner is modelled up to the file names and the writer with a real time value; the call between them is not modelled.
- The reconciled node count `nn` is computed but `writeVTK` reads `numnod` from the parser; each is modelled where it is used.
- The VTU writer is not part of this model.
- Text.ReplaceAll: requires a non-empty pattern. Python's behaviour for an empty pattern is not modelled; the source only uses '.frd'.
