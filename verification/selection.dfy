/** Grid selection in `main`: one candidate grid per column count from 2
    up to but excluding half the image count, and the chosen grid is the
    candidate whose position equals the NUMBER of candidates that have an
    overfull column; when that position is past the end, `unwrap` panics. */
module Selection {
  import opened Outcomes
  import opened Layout
  import opened Packer
  import opened Scorer

  /** The column counts tried: from 2 up to but excluding half the image count. */
  function Candidates(n: nat): (ks: seq<nat>)
    ensures forall k :: k in ks <==> 2 <= k < n / 2
    ensures forall i, j :: 0 <= i < j < |ks| ==> ks[i] < ks[j]
  {
    if n / 2 <= 2 then []
    else
      var ks: seq<nat> := seq(n / 2 - 2, i => i + 2);
      forall k | 2 <= k < n / 2
        ensures k in ks
      {
        assert ks[k - 2] == k;
      }
      ks
  }

  /** The range is empty exactly when there are at most five images. */
  lemma NoCandidatesIff(n: nat)
    ensures |Candidates(n)| == 0 <==> n <= 5
  {
    if n > 5 {
      assert 2 in Candidates(n);
    }
  }

  /** One packed grid per candidate column count, in ascending order. */
  function AllGrids(imgs: seq<SourceImage>, targetWidth: nat): (gs: seq<Grid>)
    requires ValidImages(imgs)
    ensures |gs| == |Candidates(|imgs|)|
    ensures forall i :: 0 <= i < |gs| ==>
      gs[i].numberOfColumns == i + 2 && |gs[i].columns| == i + 2 && gs[i] == CreateImageGrid(i + 2, targetWidth, imgs)
  {
    var ks := Candidates(|imgs|);
    assert forall i :: 0 <= i < |ks| ==> ks[i] == i + 2;
    seq(|ks|, i requires 0 <= i < |ks| => CreateImageGrid(ks[i], targetWidth, imgs))
  }

  /** Positions of the candidates that have an overfull column. */
  ghost function OverfullIndices(gs: seq<Grid>, targetHeight: nat): set<nat>
  {
    set i: nat | i < |gs| && HasOverfullColumns(gs[i], targetHeight)
  }

  /** Extending the candidates by one adds its position exactly when it is
      overfull. */
  lemma OverfullIndicesSnoc(gs: seq<Grid>, targetHeight: nat)
    requires |gs| > 0
    ensures var last := |gs| - 1;
      OverfullIndices(gs, targetHeight) ==
        OverfullIndices(gs[..last], targetHeight) + (if HasOverfullColumns(gs[last], targetHeight) then {last} else {})
    ensures |gs| - 1 !in OverfullIndices(gs[..|gs| - 1], targetHeight)
  {
  }

  /** The number of candidate grids that have an overfull column. */
  function CountOverfull(gs: seq<Grid>, targetHeight: nat): (n: nat)
    ensures n == |OverfullIndices(gs, targetHeight)|
    ensures n <= |gs|
  {
    if |gs| == 0 then 0
    else
      var last := |gs| - 1;
      var prev := CountOverfull(gs[..last], targetHeight);
      OverfullIndicesSnoc(gs, targetHeight);
      prev + (if HasOverfullColumns(gs[last], targetHeight) then 1 else 0)
  }

  /** The candidate at the position given by the count of overfull
      candidates, if there is one. */
  function SelectGrid(gs: seq<Grid>, targetHeight: nat): (r: Option<Grid>)
    ensures r.Some? <==> |OverfullIndices(gs, targetHeight)| < |gs|
    ensures r.Some? ==> r.value == gs[|OverfullIndices(gs, targetHeight)|]
  {
    var n := CountOverfull(gs, targetHeight);
    if n < |gs| then Some(gs[n]) else None
  }

  /** The natural numbers below `c`. */
  ghost function Below(c: nat): (b: set<nat>)
    ensures forall i: nat :: i in b <==> i < c
  {
    if c == 0 then {} else Below(c - 1) + {c - 1}
  }

  lemma {:induction false} BelowSize(c: nat)
    ensures |Below(c)| == c
  {
    if c > 0 {
      BelowSize(c - 1);
    }
  }

  lemma SubsetSize<T>(a: set<T>, b: set<T>)
    requires a <= b
    ensures |a| <= |b|
  {
    assert b == a + (b - a);
  }

  /** Selection fails exactly when every candidate is overfull; in
      particular it fails when there is no candidate at all. */
  lemma SelectFailsIffAllOverfull(gs: seq<Grid>, targetHeight: nat)
    ensures SelectGrid(gs, targetHeight).None? <==>
      forall i :: 0 <= i < |gs| ==> HasOverfullColumns(gs[i], targetHeight)
  {
    var over := OverfullIndices(gs, targetHeight);
    BelowSize(|gs|);
    assert over <= Below(|gs|);
    if i :| 0 <= i < |gs| && !HasOverfullColumns(gs[i], targetHeight) {
      assert over <= Below(|gs|) - {i};
      assert |Below(|gs|) - {i}| == |gs| - 1;
      SubsetSize(over, Below(|gs|) - {i});
    } else {
      assert over == Below(|gs|);
    }
  }

  /** With at most five images the candidate range is empty and the
      `unwrap` fails. */
  lemma NoGridForFewImages(imgs: seq<SourceImage>, targetWidth: nat, targetHeight: nat)
    requires ValidImages(imgs)
    requires |imgs| <= 5
    ensures SelectGrid(AllGrids(imgs, targetWidth), targetHeight).None?
  {
    NoCandidatesIff(|imgs|);
    SelectFailsIffAllOverfull(AllGrids(imgs, targetWidth), targetHeight);
  }

  /** Overfull candidates come before all others. */
  ghost predicate OverfullFirst(gs: seq<Grid>, targetHeight: nat)
  {
    forall i, j :: 0 <= i < j < |gs| && HasOverfullColumns(gs[j], targetHeight) ==>
      HasOverfullColumns(gs[i], targetHeight)
  }

  /** When the overfull candidates form a prefix (more columns, shorter
      columns), the count-as-index rule picks the first candidate without
      an overfull column. */
  lemma SelectIsFirstFitWhenOverfullFirst(gs: seq<Grid>, targetHeight: nat)
    requires OverfullFirst(gs, targetHeight)
    ensures SelectGrid(gs, targetHeight).Some? <==>
      exists i :: 0 <= i < |gs| && !HasOverfullColumns(gs[i], targetHeight)
    ensures SelectGrid(gs, targetHeight).Some? ==>
      exists c :: 0 <= c < |gs| && SelectGrid(gs, targetHeight).value == gs[c] &&
        !HasOverfullColumns(gs[c], targetHeight) &&
        forall i :: 0 <= i < c ==> HasOverfullColumns(gs[i], targetHeight)
  {
    SelectFailsIffAllOverfull(gs, targetHeight);
    if i :| 0 <= i < |gs| && !HasOverfullColumns(gs[i], targetHeight) {
      var c := FirstFit(gs, targetHeight);
      assert OverfullIndices(gs, targetHeight) == Below(c);
      BelowSize(c);
    }
  }

  /** Index of the first candidate without an overfull column. */
  function FirstFit(gs: seq<Grid>, targetHeight: nat): (c: nat)
    requires exists i :: 0 <= i < |gs| && !HasOverfullColumns(gs[i], targetHeight)
    ensures c < |gs| && !HasOverfullColumns(gs[c], targetHeight)
    ensures forall i :: 0 <= i < c ==> HasOverfullColumns(gs[i], targetHeight)
  {
    if !HasOverfullColumns(gs[0], targetHeight) then 0
    else
      assert forall i :: 1 <= i < |gs| ==> gs[i] == gs[1..][i - 1];
      1 + FirstFit(gs[1..], targetHeight)
  }

  /** Without that ordering the rule can pick an overfull grid although a
      candidate without overfull columns exists: here the 2-column candidate
      fits a canvas 5 high, the 3-column one does not, and the rule picks
      the 3-column one. */
  lemma SelectMayPickOverfull()
    ensures var fits := Grid(50, [Column([Entry(4, 0)], 4), Column([Entry(3, 1)], 3)], 2);
      var over := Grid(34, [Column([Entry(6, 0)], 6), Column([Entry(2, 1)], 2), Column([], 0)], 3);
      !HasOverfullColumns(fits, 5) && HasOverfullColumns(over, 5) &&
      SelectGrid([fits, over], 5) == Some(over)
  {
    var fits := Grid(50, [Column([Entry(4, 0)], 4), Column([Entry(3, 1)], 3)], 2);
    var over := Grid(34, [Column([Entry(6, 0)], 6), Column([Entry(2, 1)], 2), Column([], 0)], 3);
    assert OverfullIndices([fits, over], 5) == {1};
  }
}
