# Rust_mosaic layout engine in Dafny

Rust_mosaic builds one photo mosaic from a folder of images. It picks a
number of equally wide columns for the canvas. It deals the images one by
one into the column that is currently lowest, scaling each image to the
column width. It chooses one of the candidate grids. Then it works out
where every image is drawn: each column is stacked top-down in packing
order, and a column that falls short of the canvas height is padded with
copies of its own images, tallest first.

This project models that layout engine: `create_image_grid`,
`add_to_lowest_column`, the scoring methods of `ImageGrid`, the grid
selection in `main`, and the geometry of `get_image_info`. It proves what
each of them guarantees.

Modules:

- `Outcomes`: `Option` and `Result`.
- `Seqs`: sums, multiset unions, flattening, reversal and removal on sequences.
- `StableSort`: Rust's stable `sort_by_key`, specified as an ascending permutation that keeps the order of equal keys.
- `Layout`: source images, column entries, columns, grids and placements.
- `Packer`: `create_image_grid` and `add_to_lowest_column`.
- `Scorer`: `get_wasted_pixels`, `has_empty_space`, `has_overfull_columns`.
- `Selection`: the candidate column counts and the choice of a grid.
- `Planner`: the first pass, the reordering and the padding loop of `get_image_info`.
- `Mosaic`: the pipeline from measured images to placements.

An image path is modelled as an opaque `ImageId`. A column entry keeps the
pair `(height, path)` that the program stores.

The program announces the selection step as "Finding optimal grid size"
(src/main.rs:86-88) and reports "Best with … columns: Wasted pixels: …"
(src/main.rs:118-119) afterwards. The selection itself compares no wasted
pixels. It counts the candidates that have an overfull column and uses
that count as an index into the candidate list (src/main.rs:107-111).
`Selection.SelectGrid` models this rule.
`Selection.SelectIsFirstFitWhenOverfullFirst` shows that it picks the first
candidate without an overfull column when the overfull candidates come
first. `Selection.SelectMayPickOverfull` shows that otherwise it can pick
an overfull grid.

The candidate column counts run from 2 up to but excluding half the image
count (src/main.rs:92). That range is empty for every image count up to
five (`Selection.NoCandidatesIff`). With two to five images no grid can be
selected, and `unwrap` panics (`Selection.NoGridForFewImages`).

## Model

| member | source | states |
|---|---|---|
| Packer.CeilDiv | src/main.rs:155 | the column width is the least whole number whose product with the column count reaches the target width |
| Packer.ScaledHeight | src/main.rs:168-169 | the scaled height is the largest whole height whose ratio to the column width does not exceed the image's height-to-width ratio |
| Packer.AddToLowest | src/main.rs:206-210 | after adding an image, the first column is the first lowest input column grown by that image; the other columns are the rest of the input columns, stably sorted by height; width and column count are unchanged |
| Packer.AddToLowestOthersFromInput | src/main.rs:207-208 | every column except the first is an input column, unchanged |
| Packer.AddToLowestConserves | src/main.rs:206-210 | the grid gains exactly the new (height, image) entry, and its total height grows by exactly that height |
| Packer.AddToLowestKeepsWellFormed | src/main.rs:208-209 | if every column height equals the sum of its entries' heights before an addition, it still does afterwards |
| Packer.AddToLowestKeepsBalanced | src/main.rs:206-210 | the greedy invariant is kept: no column, without its last image, is taller than any other column |
| Packer.Pack | src/main.rs:167-171 | packing a sequence of entries adds exactly those entries and their heights to the grid, and keeps the height bookkeeping and the greedy invariant |
| Packer.EmptyColumnsHoldNothing | src/main.rs:157-160 | the starting columns hold no images, have height zero, and satisfy both invariants |
| Packer.CreateImageGrid | src/main.rs:150-173 | the grid has the requested number of columns and the ceiling column width; it holds exactly the input images at their scaled heights; total height is the sum of the scaled heights; columns are well formed and balanced |
| StableSort.Sort | src/main.rs:207 | the sort returns exactly as many elements as it is given; what makes it the stable sort is stated by `StableSort.SortIsStable` |
| StableSort.SortIsStable | src/main.rs:207 | sorting by key returns a permutation, ascending by key, that keeps the relative order of elements with equal keys |
| StableSort.FirstMinIndex | src/main.rs:207-208 | the index of a column of least height with every earlier column strictly higher, i.e. the column a stable sort moves to the front |
| StableSort.SortSplitsAtFirstMin | src/main.rs:207-208 | a stable sort puts the first element of least key at the front, followed by the stable sort of the others |
| StableSort.ReverseAscending | src/main.rs:243-244 | reversing an ascending sequence gives a descending one |
| StableSort.ReverseFilter | src/main.rs:243-244 | after reversal, the elements of each key appear in the reverse of their previous order |
| Scorer.HasEmptySpace | src/main.rs:194-198 | true exactly when some column is shorter than the target height |
| Scorer.HasOverfullColumns | src/main.rs:200-204 | true exactly when some column is taller than the target height |
| Scorer.WastedPixels | src/main.rs:183-192 | the wasted pixels of a grid are its column width times the sum of the columns' distances from the target height |
| Scorer.WasteIsWidthTimesDeviation | src/main.rs:183-192 | wasted pixels equal the column width times the sum of the columns' distances from the target height |
| Scorer.NoWasteIffExactFill | src/main.rs:183-192 | with a positive column width, a grid wastes no pixels exactly when every column has the target height |
| Scorer.NoWasteIffNeitherShortNorOverfull | src/main.rs:183-204 | with a positive column width, a grid wastes no pixels exactly when it has neither empty space nor an overfull column |
| Scorer.WasteLowerBound | src/main.rs:183-192 | whatever the packing, waste is at least the column width times the gap between the grid's total height and the column count times the target height |
| Selection.Candidates | src/main.rs:92 | the candidate column counts are exactly the numbers from 2 up to but excluding half the image count, in increasing order |
| Selection.NoCandidatesIff | src/main.rs:92 | there is no candidate exactly when there are at most five images |
| Selection.AllGrids | src/main.rs:100-105 | the i-th grid is the grid built with i + 2 columns, and there is one grid per candidate |
| Selection.CountOverfull | src/main.rs:107-110 | the count is the number of candidate positions whose grid has an overfull column |
| Selection.SelectGrid | src/main.rs:107-111 | a grid is returned exactly when some candidate has no overfull column, and it is the grid at the position given by the number of overfull candidates |
| Selection.SelectFailsIffAllOverfull | src/main.rs:107-111 | `get(..).unwrap()` panics exactly when every candidate grid has an overfull column |
| Selection.NoGridForFewImages | src/main.rs:92-111 | with at most five images, no grid can be selected |
| Selection.SelectIsFirstFitWhenOverfullFirst | src/main.rs:107-111 | when the overfull candidates form a prefix, selection returns the first candidate without an overfull column, and fails only when there is none |
| Selection.SelectMayPickOverfull | src/main.rs:107-111 | for candidates [fitting, overfull], the selected grid is the overfull one |
| Planner.FirstPass | src/main.rs:218-242 | every image of the column keeps its height and identity, is drawn at the column's left edge, and starts where the images before it end |
| Planner.FirstPassStacks | src/main.rs:238-242 | the first image starts at the top, each next image starts where the previous one ends, and the running offset ends at the column height |
| Planner.ArrangeIsArranged | src/main.rs:243-244 | sorting by height and reversing gives a permutation of the first pass, tallest first, with equal heights in reverse packing order and the same total height |
| Planner.ColumnsSideBySide | src/main.rs:218 | each column's left edge is where the previous column ends, and a later column never starts inside an earlier one |
| Planner.PadStep | src/main.rs:248-252 | one iteration keeps every placement made so far and appends a copy of the image at the loop index, drawn at the running offset; the offset grows by that image's height and the index by one, and the index stays inside the grown vector, so the next read at that index is in bounds |
| Planner.PadFault | src/main.rs:246-253 | the padding loop faults exactly when the column starts short of the target and every image in it has height zero; the fault is the index-0 panic exactly when the column is empty |
| Planner.NoProgressNeverEnds | src/main.rs:247-252 | when the fault is `NoProgress`, the column starts short and holds images, and no number of iterations moves the offset off its start, so the loop guard stays true forever |
| Planner.ColumnFault | src/main.rs:238-253 | a column's plan faults exactly when its stacked height is short of the target and all its images have height zero; the fault is `EmptyColumn` exactly when the column has no images |
| Planner.PadLoop | src/main.rs:246-253 | on a column that starts short and holds positive height the loop ends; it leaves the column's images followed by copies of them in order, the first copy at the starting offset, each next one where the previous ends, each started while the column was still short, the last reaching the target |
| Planner.PadColumn | src/main.rs:246-253 | the padding stage fails exactly when the loop would: a panic on an empty short column, no termination on a short column whose heights are all zero; on success the images are kept in front, padding is added exactly when the column starts short, and the copies run end to end from the column height until the target is reached |
| Planner.FlatColumnNeverFills | src/main.rs:247-253 | when every image has height zero, no number of iterations of the padding loop moves the offset, so the loop never ends |
| Planner.PlanColumn | src/main.rs:217-255 | a column's plan succeeds exactly when the column has no fault; otherwise it returns that fault; on success the plan is the rearranged first pass followed by the padding, at the column's left edge |
| Planner.PlanGrid | src/main.rs:212-257 | planning succeeds exactly when no column has a fault; a failure is the fault of some column; on success the placements are the column plans concatenated in column order |
| Planner.PlanShowsOnlyColumnImages | src/main.rs:219-253 | every placement of a column is at its left edge and shows one of the column's images at its packed height |
| Planner.PlanShowsEveryColumnImage | src/main.rs:219-244 | every image of a column appears in its plan at its packed height |
| Planner.PlanPadsOnlyShortColumns | src/main.rs:246-253 | a column gets padding copies exactly when it is shorter than the target |
| Mosaic.ScaledEntryIds | src/main.rs:167-171 | the images entered into a grid are exactly the input images |
| Mosaic.PlanCoversGrid | src/main.rs:212-257 | a grid's placements show exactly the images packed into it, each at the left edge of one of its columns |
| Mosaic.Mosaic | src/main.rs:56-131 | zero or one image stops early; with more, no layout is found exactly when selection fails, always so for at most five images; a planning failure is the fault of some column of the selected grid; on success the placements are the selected grid's column plans concatenated in column order, each column laid out as its first pass rearranged tallest first and padded end to end to the target; every input image is placed, nothing else is, and each placement is at a column's left edge |

## Left out

- Command-line parsing, the directory scan, reading image headers, decoding, resizing, overlaying and saving are I/O. An image is given by its width, height and an identity.
- The sort by `f32` aspect ratio, and the random shuffle that follows it unless `--randomize false` is given, only fix the order of the input. The model takes the input order as given.
- The `rayon` parallelism: the parallel sort is a stable sort, and the parallel maps keep their order. If several columns fail, which failure is seen is not modelled. `Planner.PlanGrid` reports the first failing column.
- Timing and progress printing. `get_wasted_pixels` on the chosen grid is only printed. It is modelled by the `Scorer` lemmas, not by the pipeline.
- Packer.CeilDiv: computes the ceiling exactly in integers. The program divides in `f32` and rounds up, which can differ for very large widths.
- Packer.ScaledHeight: computes the exact floor of column width times height over width. The program multiplies by an `f32` ratio and truncates, which can be off by one through rounding.
- Packer.CreateImageGrid: requires at least one column and images of positive width. The only caller passes at least two columns. A zero width gives an infinite or NaN `f32` ratio, which this model does not follow.
- Packer.AddToLowest: requires a grid with at least one column. On an empty grid the program panics at index 0, and `create_image_grid` never makes one.
- Scorer.WasteIsWidthTimesDeviation: integers are unbounded. The program's `u32` column heights and offsets, its `i32` casts in `get_wasted_pixels` and its `u32` sum can wrap around.
- StableSort.Sort: its own contract gives only the length. The permutation, the ascending order and the stability are proved separately by `StableSort.SortIsStable`, because on the recursive function itself they make every proof that unfolds it too costly.
- Planner.PadLoop: requires a column that starts short and has positive total height. `Planner.PadColumn` handles the other cases before it reaches the loop.
- Planner.PadColumn: a loop that never ends is modelled as a `NoProgress` result, and the index-0 panic on an empty short column as `EmptyColumn`.
- Mosaic.Mosaic: a panic in `unwrap` is modelled as a `NoViableLayout` result, and the early return for zero or one image as `NotEnoughImages`.
