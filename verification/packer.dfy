/** The column packer: `create_image_grid` and
    `ImageGrid::add_to_lowest_column`. Images are taken in the given order;
    each goes on top of the currently lowest column. */
module Packer {
  import opened Seqs
  import opened StableSort
  import opened Layout

  /** The column width: the target width divided by the column count,
      rounded up (the program divides in `f32`). */
  function CeilDiv(a: nat, k: nat): (q: nat)
    requires k > 0
    ensures q * k >= a
    ensures q * k < a + k
  {
    (a + k - 1) / k
  }

  /** The height of an image scaled to the column width, rounded down (the
      program multiplies by an `f32` aspect ratio and truncates). */
  function ScaledHeight(columnWidth: nat, img: SourceImage): (h: nat)
    requires img.width > 0
    ensures h * img.width <= columnWidth * img.height
    ensures columnWidth * img.height < (h + 1) * img.width
  {
    columnWidth * img.height / img.width
  }

  /** The entries the packing loop adds, one per image, in input order. */
  function ScaledEntries(imgs: seq<SourceImage>, columnWidth: nat): seq<Entry>
    requires ValidImages(imgs)
  {
    seq(|imgs|, i requires 0 <= i < |imgs| => Entry(ScaledHeight(columnWidth, imgs[i]), imgs[i].id))
  }

  /** `number_of_columns` default (empty, zero-height) columns. */
  function EmptyColumns(k: nat): seq<Column>
  {
    seq(k, _ => Column([], 0))
  }

  /** A column with one more image on top. */
  function Grow(c: Column, h: nat, id: ImageId): Column
  {
    Column(c.images + [Entry(h, id)], c.height + h)
  }

  /** `add_to_lowest_column`: stable-sort the columns by height, then put the
      image on the first one. The receiving column is the first among the
      lowest, and the remaining columns are the stable sort of the others. */
  function AddToLowest(g: Grid, h: nat, id: ImageId): (r: Grid)
    requires |g.columns| > 0
    ensures r.columnWidth == g.columnWidth && r.numberOfColumns == g.numberOfColumns
    ensures |r.columns| == |g.columns|
    ensures var j := FirstMinIndex(g.columns, ColumnHeight);
      r.columns == [Grow(g.columns[j], h, id)] + Sort(RemoveAt(g.columns, j), ColumnHeight)
  {
    var sorted := Sort(g.columns, ColumnHeight);
    SortSplitsAtFirstMin(g.columns, ColumnHeight);
    g.(columns := [Grow(sorted[0], h, id)] + sorted[1..])
  }

  /** Every column after the first in the result is one of the input columns. */
  lemma AddToLowestOthersFromInput(g: Grid, h: nat, id: ImageId, i: nat)
    requires |g.columns| > 0
    requires 0 < i < |g.columns|
    ensures AddToLowest(g, h, id).columns[i] in g.columns
  {
    var j := FirstMinIndex(g.columns, ColumnHeight);
    var rest := RemoveAt(g.columns, j);
    var r := AddToLowest(g, h, id);
    assert r.columns[i] == Sort(rest, ColumnHeight)[i - 1];
    SortMember(rest, ColumnHeight, r.columns[i]);
  }

  /** Taking one column out of a grid takes exactly its entries out. */
  lemma AllEntriesRemoveAt(cols: seq<Column>, j: nat)
    requires j < |cols|
    ensures AllEntries(cols) == ColumnEntries(cols[j]) + AllEntries(RemoveAt(cols, j))
  {
    var rest := RemoveAt(cols, j);
    assert ([cols[j]] + rest)[1..] == rest;
    assert multiset([cols[j]] + rest) == multiset(cols);
    FlatMsPermutation([cols[j]] + rest, cols, ColumnEntries);
  }

  lemma AddToLowestConservesEntries(g: Grid, h: nat, id: ImageId)
    requires |g.columns| > 0
    ensures AllEntries(AddToLowest(g, h, id).columns) == AllEntries(g.columns) + multiset{Entry(h, id)}
  {
    var cols := g.columns;
    var j := FirstMinIndex(cols, ColumnHeight);
    var rest := RemoveAt(cols, j);
    var sr := Sort(rest, ColumnHeight);
    var r := AddToLowest(g, h, id).columns;
    assert AllEntries(sr) == AllEntries(rest) by {
      SortIsStable(rest, ColumnHeight);
      FlatMsPermutation(sr, rest, ColumnEntries);
    }
    assert AllEntries(r) == ColumnEntries(Grow(cols[j], h, id)) + AllEntries(sr) by {
      assert r[1..] == sr;
    }
    AllEntriesRemoveAt(cols, j);
  }

  /** Taking one column out of a grid takes exactly its height out. */
  lemma TotalHeightRemoveAt(cols: seq<Column>, j: nat)
    requires j < |cols|
    ensures TotalHeight(cols) == cols[j].height + TotalHeight(RemoveAt(cols, j))
  {
    var rest := RemoveAt(cols, j);
    assert ([cols[j]] + rest)[1..] == rest;
    assert multiset([cols[j]] + rest) == multiset(cols);
    SumOfPermutation([cols[j]] + rest, cols, ColumnHeight);
  }

  lemma AddToLowestConservesHeight(g: Grid, h: nat, id: ImageId)
    requires |g.columns| > 0
    ensures TotalHeight(AddToLowest(g, h, id).columns) == TotalHeight(g.columns) + h
  {
    var cols := g.columns;
    var j := FirstMinIndex(cols, ColumnHeight);
    var rest := RemoveAt(cols, j);
    var sr := Sort(rest, ColumnHeight);
    var r := AddToLowest(g, h, id).columns;
    assert TotalHeight(sr) == TotalHeight(rest) by {
      SortIsStable(rest, ColumnHeight);
      SumOfPermutation(sr, rest, ColumnHeight);
    }
    assert TotalHeight(r) == Grow(cols[j], h, id).height + TotalHeight(sr) by {
      assert r[1..] == sr;
    }
    TotalHeightRemoveAt(cols, j);
  }

  /** Adding an image to the lowest column adds exactly that image and its
      height to the grid. */
  lemma AddToLowestConserves(g: Grid, h: nat, id: ImageId)
    requires |g.columns| > 0
    ensures AllEntries(AddToLowest(g, h, id).columns) == AllEntries(g.columns) + multiset{Entry(h, id)}
    ensures TotalHeight(AddToLowest(g, h, id).columns) == TotalHeight(g.columns) + h
  {
    AddToLowestConservesEntries(g, h, id);
    AddToLowestConservesHeight(g, h, id);
  }

  lemma AddToLowestKeepsWellFormed(g: Grid, h: nat, id: ImageId)
    requires |g.columns| > 0
    ensures WellFormed(g.columns) ==> WellFormed(AddToLowest(g, h, id).columns)
  {
    if !WellFormed(g.columns) {
      return;
    }
    var j := FirstMinIndex(g.columns, ColumnHeight);
    var c := g.columns[j];
    var r := AddToLowest(g, h, id).columns;
    SumOfAppend(c.images, [Entry(h, id)], EntryHeight);
    assert SumOf([Entry(h, id)], EntryHeight) == h;
    forall i | 0 <= i < |r| ensures r[i].height == StackHeight(r[i].images) {
      if i > 0 {
        AddToLowestOthersFromInput(g, h, id, i);
      }
    }
  }

  /** Every column of the result is at least as tall as the receiving
      column was before the insertion. */
  lemma AddToLowestFloor(g: Grid, h: nat, id: ImageId, b: nat)
    requires |g.columns| > 0
    requires b < |g.columns|
    ensures g.columns[FirstMinIndex(g.columns, ColumnHeight)].height <= AddToLowest(g, h, id).columns[b].height
  {
    if b > 0 {
      AddToLowestOthersFromInput(g, h, id, b);
      var r := AddToLowest(g, h, id).columns;
      var ib :| 0 <= ib < |g.columns| && g.columns[ib] == r[b];
      var j := FirstMinIndex(g.columns, ColumnHeight);
      assert ColumnHeight(g.columns[j]) <= ColumnHeight(g.columns[ib]);
    }
  }

  /** The grown column, without the image just added, is the old lowest
      column, which no column falls below. */
  lemma AddToLowestBalancedGrown(g: Grid, h: nat, id: ImageId, b: nat)
    requires |g.columns| > 0
    requires b < |g.columns|
    ensures var r := AddToLowest(g, h, id).columns;
      |r[0].images| > 0 && r[0].height - r[0].images[|r[0].images| - 1].height <= r[b].height
  {
    var cols := g.columns;
    var j := FirstMinIndex(cols, ColumnHeight);
    var r := AddToLowest(g, h, id).columns;
    AddToLowestFloor(g, h, id, b);
    assert r[0] == Grow(cols[j], h, id);
    assert r[0].images[|r[0].images| - 1] == Entry(h, id);
  }

  /** A column kept from the input was balanced against the old lowest
      column, which no column falls below. */
  lemma AddToLowestBalancedKept(g: Grid, h: nat, id: ImageId, a: nat, b: nat)
    requires |g.columns| > 0
    requires Balanced(g.columns)
    requires 0 < a < |g.columns| && b < |g.columns|
    requires |AddToLowest(g, h, id).columns[a].images| > 0
    ensures var r := AddToLowest(g, h, id).columns;
      r[a].height - r[a].images[|r[a].images| - 1].height <= r[b].height
  {
    var cols := g.columns;
    var j := FirstMinIndex(cols, ColumnHeight);
    var r := AddToLowest(g, h, id).columns;
    AddToLowestFloor(g, h, id, b);
    AddToLowestOthersFromInput(g, h, id, a);
    var ia :| 0 <= ia < |cols| && cols[ia] == r[a];
    assert r[a].height - r[a].images[|r[a].images| - 1].height <= cols[j].height;
  }

  lemma AddToLowestBalancedPair(g: Grid, h: nat, id: ImageId, a: nat, b: nat)
    requires |g.columns| > 0
    requires Balanced(g.columns)
    requires a < |g.columns| && b < |g.columns|
    requires |AddToLowest(g, h, id).columns[a].images| > 0
    ensures var r := AddToLowest(g, h, id).columns;
      r[a].height - r[a].images[|r[a].images| - 1].height <= r[b].height
  {
    if a == 0 {
      AddToLowestBalancedGrown(g, h, id, b);
    } else {
      AddToLowestBalancedKept(g, h, id, a, b);
    }
  }

  /** The shortest-column rule holds after every insertion. */
  lemma AddToLowestBalancedAll(g: Grid, h: nat, id: ImageId, r: seq<Column>)
    requires |g.columns| > 0 && Balanced(g.columns)
    requires r == AddToLowest(g, h, id).columns
    ensures Balanced(r)
  {
    forall a, b | 0 <= a < |r| && 0 <= b < |r| && |r[a].images| > 0
      ensures r[a].height - r[a].images[|r[a].images| - 1].height <= r[b].height
    {
      AddToLowestBalancedPair(g, h, id, a, b);
    }
  }

  lemma AddToLowestKeepsBalanced(g: Grid, h: nat, id: ImageId)
    requires |g.columns| > 0
    ensures Balanced(g.columns) ==> Balanced(AddToLowest(g, h, id).columns)
  {
    if Balanced(g.columns) {
      AddToLowestBalancedAll(g, h, id, AddToLowest(g, h, id).columns);
    }
  }

  /** The packing loop of `create_image_grid`: each entry in turn goes on the
      lowest column. Nothing is lost or duplicated, and the column invariants
      are kept. */
  function Pack(g: Grid, es: seq<Entry>): (r: Grid)
    requires |g.columns| > 0
    ensures r.columnWidth == g.columnWidth && r.numberOfColumns == g.numberOfColumns
    ensures |r.columns| == |g.columns|
    ensures AllEntries(r.columns) == AllEntries(g.columns) + multiset(es)
    ensures TotalHeight(r.columns) == TotalHeight(g.columns) + StackHeight(es)
    ensures WellFormed(g.columns) ==> WellFormed(r.columns)
    ensures Balanced(g.columns) ==> Balanced(r.columns)
    decreases |es|
  {
    if |es| == 0 then g
    else
      var next := AddToLowest(g, es[0].height, es[0].id);
      AddToLowestConserves(g, es[0].height, es[0].id);
      AddToLowestKeepsWellFormed(g, es[0].height, es[0].id);
      AddToLowestKeepsBalanced(g, es[0].height, es[0].id);
      assert es == [es[0]] + es[1..];
      Pack(next, es[1..])
  }

  lemma {:induction false} EmptyColumnsHoldNothing(k: nat)
    ensures AllEntries(EmptyColumns(k)) == multiset{}
    ensures TotalHeight(EmptyColumns(k)) == 0
    ensures WellFormed(EmptyColumns(k)) && Balanced(EmptyColumns(k))
  {
    if k > 0 {
      assert EmptyColumns(k)[1..] == EmptyColumns(k - 1);
      EmptyColumnsHoldNothing(k - 1);
    }
  }

  /** `create_image_grid`: `k` columns of width ceil(W / k), every image
      packed exactly once at its scaled height, each column's height the sum
      of its stack, and the shortest-column rule kept throughout. */
  function CreateImageGrid(k: nat, targetWidth: nat, imgs: seq<SourceImage>): (g: Grid)
    requires k > 0
    requires ValidImages(imgs)
    ensures g.numberOfColumns == k && |g.columns| == k
    ensures g.columnWidth * k >= targetWidth && g.columnWidth * k < targetWidth + k
    ensures AllEntries(g.columns) == multiset(ScaledEntries(imgs, g.columnWidth))
    ensures TotalHeight(g.columns) == StackHeight(ScaledEntries(imgs, g.columnWidth))
    ensures WellFormed(g.columns)
    ensures Balanced(g.columns)
  {
    var columnWidth := CeilDiv(targetWidth, k);
    EmptyColumnsHoldNothing(k);
    Pack(Grid(columnWidth, EmptyColumns(k), k), ScaledEntries(imgs, columnWidth))
  }
}
