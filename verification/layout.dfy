/** The data shapes of the layout engine: source images, packed columns, the
    grid of columns, and the placements the render planner produces. Pixel
    buffers are not modelled; a path is an opaque `ImageId`. */
module Layout {
  import opened Seqs

  /** Stands for an image's file path; only its identity matters. */
  type ImageId = nat

  /** An input image with its native pixel size (`OrgImageInfo`). */
  datatype SourceImage = SourceImage(width: nat, height: nat, id: ImageId)

  /** One image stacked in a column: its scaled height and its path. */
  datatype Entry = Entry(height: nat, id: ImageId)

  /** `ImageColumn`: the stacked images in packing order and the running
      column height. */
  datatype Column = Column(images: seq<Entry>, height: nat)

  /** `ImageGrid`: one candidate layout. */
  datatype Grid = Grid(columnWidth: nat, columns: seq<Column>, numberOfColumns: nat)

  /** `FinalImageInfo` without its resized pixel buffer: where one copy of an
      image is drawn. */
  datatype Placed = Placed(x: nat, offset: nat, height: nat, id: ImageId)

  /** Header dimensions are positive; the scaling divides by the width. */
  predicate ValidImages(imgs: seq<SourceImage>)
  {
    forall i :: 0 <= i < |imgs| ==> imgs[i].width > 0
  }

  function EntryHeight(e: Entry): nat { e.height }

  function ColumnHeight(c: Column): nat { c.height }

  function PlacedHeight(p: Placed): nat { p.height }

  function ColumnEntries(c: Column): multiset<Entry> { multiset(c.images) }

  /** Every entry of every column, with multiplicity. */
  function AllEntries(cols: seq<Column>): multiset<Entry>
  {
    FlatMs(cols, ColumnEntries)
  }

  /** Sum of the running heights of the columns. */
  function TotalHeight(cols: seq<Column>): nat
  {
    SumOf(cols, ColumnHeight)
  }

  /** Sum of the heights of a column's stacked images. */
  function StackHeight(es: seq<Entry>): nat
  {
    SumOf(es, EntryHeight)
  }

  /** Each column's running height is the height of its stack. */
  ghost predicate WellFormed(cols: seq<Column>)
  {
    forall i :: 0 <= i < |cols| ==> cols[i].height == StackHeight(cols[i].images)
  }

  /** The greedy shortest-column rule, as a state invariant: when a column
      received its last image it was no taller than any column is now. */
  ghost predicate Balanced(cols: seq<Column>)
  {
    forall i, j :: 0 <= i < |cols| && 0 <= j < |cols| && |cols[i].images| > 0 ==>
      cols[i].height - cols[i].images[|cols[i].images| - 1].height <= cols[j].height
  }
}
