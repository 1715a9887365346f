/** The layout scorer: `get_wasted_pixels`, `has_empty_space` and
    `has_overfull_columns`, folds over the column heights of a grid. */
module Scorer {
  import opened Seqs
  import opened Layout

  function Abs(x: int): nat
  {
    if x < 0 then -x else x
  }

  /** The per-column term of `get_wasted_pixels`: the pixel area between the
      column's bottom edge and the canvas's. */
  function ColumnWaste(height: nat, columnWidth: nat, targetHeight: nat): nat
  {
    Abs(height * columnWidth - columnWidth * targetHeight)
  }

  function Waste(cols: seq<Column>, columnWidth: nat, targetHeight: nat): nat
  {
    if |cols| == 0 then 0
    else ColumnWaste(cols[0].height, columnWidth, targetHeight) + Waste(cols[1..], columnWidth, targetHeight)
  }

  /** `get_wasted_pixels`: the pixel area between each column's bottom
      edge and the canvas's, summed over the columns. */
  function WastedPixels(g: Grid, targetHeight: nat): (w: nat)
    ensures w == g.columnWidth * Deviation(g.columns, targetHeight)
  {
    WasteIsWidthTimesDeviation(g.columns, g.columnWidth, targetHeight);
    Waste(g.columns, g.columnWidth, targetHeight)
  }

  /** Sum over columns of how far each column's height is from the target. */
  function Deviation(cols: seq<Column>, targetHeight: nat): nat
  {
    if |cols| == 0 then 0 else Abs(cols[0].height - targetHeight) + Deviation(cols[1..], targetHeight)
  }

  /** Some column is shorter than the target height. */
  function AnyShorter(cols: seq<Column>, targetHeight: nat): (b: bool)
    ensures b <==> exists i :: 0 <= i < |cols| && cols[i].height < targetHeight
  {
    if |cols| == 0 then false
    else
      assert forall i :: 1 <= i < |cols| ==> cols[i] == cols[1..][i - 1];
      cols[0].height < targetHeight || AnyShorter(cols[1..], targetHeight)
  }

  /** Some column is taller than the target height. */
  function AnyTaller(cols: seq<Column>, targetHeight: nat): (b: bool)
    ensures b <==> exists i :: 0 <= i < |cols| && cols[i].height > targetHeight
  {
    if |cols| == 0 then false
    else
      assert forall i :: 1 <= i < |cols| ==> cols[i] == cols[1..][i - 1];
      cols[0].height > targetHeight || AnyTaller(cols[1..], targetHeight)
  }

  /** `has_empty_space`: some column is shorter than the canvas. */
  function HasEmptySpace(g: Grid, targetHeight: nat): (b: bool)
    ensures b <==> exists i :: 0 <= i < |g.columns| && g.columns[i].height < targetHeight
  {
    AnyShorter(g.columns, targetHeight)
  }

  /** `has_overfull_columns`: some column is taller than the canvas. */
  function HasOverfullColumns(g: Grid, targetHeight: nat): (b: bool)
    ensures b <==> exists i :: 0 <= i < |g.columns| && g.columns[i].height > targetHeight
  {
    AnyTaller(g.columns, targetHeight)
  }

  /** Every column exactly fills the canvas height. */
  ghost predicate ExactFill(cols: seq<Column>, targetHeight: nat)
  {
    forall i :: 0 <= i < |cols| ==> cols[i].height == targetHeight
  }

  lemma ColumnWasteFactor(height: nat, columnWidth: nat, targetHeight: nat)
    ensures ColumnWaste(height, columnWidth, targetHeight) == columnWidth * Abs(height - targetHeight)
  {
    if height >= targetHeight {
      assert height * columnWidth - columnWidth * targetHeight == columnWidth * (height - targetHeight);
    } else {
      assert columnWidth * targetHeight - height * columnWidth == columnWidth * (targetHeight - height);
    }
  }

  lemma Distribute(c: nat, a: nat, b: nat)
    ensures c * a + c * b == c * (a + b)
  {
  }

  /** The waste is the column width times the summed height deviation. */
  lemma {:induction false} WasteIsWidthTimesDeviation(cols: seq<Column>, columnWidth: nat, targetHeight: nat)
    ensures Waste(cols, columnWidth, targetHeight) == columnWidth * Deviation(cols, targetHeight)
  {
    if |cols| > 0 {
      WasteIsWidthTimesDeviation(cols[1..], columnWidth, targetHeight);
      ColumnWasteFactor(cols[0].height, columnWidth, targetHeight);
      var a := Abs(cols[0].height - targetHeight);
      var rest := Deviation(cols[1..], targetHeight);
      assert Deviation(cols, targetHeight) == a + rest;
      assert Waste(cols, columnWidth, targetHeight)
          == ColumnWaste(cols[0].height, columnWidth, targetHeight) + Waste(cols[1..], columnWidth, targetHeight);
      Distribute(columnWidth, a, rest);
    }
  }

  lemma {:induction false} DeviationZeroIff(cols: seq<Column>, targetHeight: nat)
    ensures Deviation(cols, targetHeight) == 0 <==> ExactFill(cols, targetHeight)
  {
    if |cols| > 0 {
      DeviationZeroIff(cols[1..], targetHeight);
      assert forall i :: 1 <= i < |cols| ==> cols[i] == cols[1..][i - 1];
    }
  }

  /** No pixel is wasted exactly when every column fills the canvas (for a
      non-degenerate column width). */
  lemma NoWasteIffExactFill(g: Grid, targetHeight: nat)
    requires g.columnWidth > 0
    ensures WastedPixels(g, targetHeight) == 0 <==> ExactFill(g.columns, targetHeight)
  {
    WasteIsWidthTimesDeviation(g.columns, g.columnWidth, targetHeight);
    DeviationZeroIff(g.columns, targetHeight);
  }

  /** The two predicates the program offers are exactly the two ways a
      grid can waste pixels. */
  lemma NoWasteIffNeitherShortNorOverfull(g: Grid, targetHeight: nat)
    requires g.columnWidth > 0
    ensures WastedPixels(g, targetHeight) == 0 <==>
      !HasEmptySpace(g, targetHeight) && !HasOverfullColumns(g, targetHeight)
  {
    NoWasteIffExactFill(g, targetHeight);
  }

  /** A grid of zero-width columns wastes nothing, whatever its heights. */
  lemma ZeroWidthWastesNothing(g: Grid, targetHeight: nat)
    requires g.columnWidth == 0
    ensures WastedPixels(g, targetHeight) == 0
  {
    WasteIsWidthTimesDeviation(g.columns, g.columnWidth, targetHeight);
  }

  /** One column's deviation plus a bound on the others bounds the total. */
  lemma DeviationStep(own: int, others: int, bound: nat)
    requires bound >= Abs(others)
    ensures Abs(own) + bound >= Abs(own + others)
  {
  }

  lemma MulSucc(n: nat, t: nat)
    ensures (n + 1) * t == t + n * t
  {
  }

  /** Triangle inequality: the summed deviation is at least the deviation of
      the total height from |cols| canvases. */
  lemma {:induction false} DeviationLowerBound(cols: seq<Column>, targetHeight: nat)
    ensures Deviation(cols, targetHeight) >= Abs(TotalHeight(cols) - |cols| * targetHeight)
  {
    if |cols| > 0 {
      var rest := cols[1..];
      DeviationLowerBound(rest, targetHeight);
      var restArea := |rest| * targetHeight;
      MulSucc(|rest|, targetHeight);
      var own := cols[0].height - targetHeight;
      var others := TotalHeight(rest) - restArea;
      DeviationStep(own, others, Deviation(rest, targetHeight));
      assert TotalHeight(cols) - |cols| * targetHeight == own + others;
    }
  }

  lemma MulMonotone(c: nat, a: nat, b: nat)
    requires a >= b
    ensures c * a >= c * b
  {
    assert c * a == c * b + c * (a - b);
  }

  /** Whatever the packing, a grid wastes at least the column width times the
      gap between its total height and the area of the canvas. */
  lemma WasteLowerBound(g: Grid, targetHeight: nat)
    ensures WastedPixels(g, targetHeight) >=
      g.columnWidth * Abs(TotalHeight(g.columns) - |g.columns| * targetHeight)
  {
    WasteIsWidthTimesDeviation(g.columns, g.columnWidth, targetHeight);
    DeviationLowerBound(g.columns, targetHeight);
    MulMonotone(g.columnWidth, Deviation(g.columns, targetHeight),
      Abs(TotalHeight(g.columns) - |g.columns| * targetHeight));
  }
}
