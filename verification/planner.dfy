/** The render planner, `ImageGrid::get_image_info`, geometry only: where
    every image of the chosen grid is drawn, including the copies that pad a
    column which falls short of the canvas. Decoding and resizing are not
    modelled; a placement carries the path handle instead of pixels. */
module Planner {
  import opened Outcomes
  import opened Seqs
  import opened StableSort
  import opened Layout

  /** Why a column cannot be planned. */
  datatype PlanError =
    | EmptyColumn  // the padding loop indexes `column_images[0]` of an empty column: panic
    | NoProgress   // every image has height 0: the padding loop never ends

  /** The first pass over a column: placements in packing order, all at `x`,
      each starting where the previous one ends. */
  function FirstPass(es: seq<Entry>, x: nat, start: nat): (ps: seq<Placed>)
    ensures |ps| == |es|
    ensures forall k :: 0 <= k < |es| ==>
      ps[k].x == x && ps[k].height == es[k].height && ps[k].id == es[k].id
    ensures forall k :: 0 <= k < |es| ==> ps[k].offset == start + StackHeight(es[..k])
  {
    if |es| == 0 then []
    else
      var rest := FirstPass(es[1..], x, start + es[0].height);
      var ps := [Placed(x, start, es[0].height, es[0].id)] + rest;
      forall k | 1 <= k < |es|
        ensures ps[k].offset == start + StackHeight(es[..k])
      {
        assert es[..k][1..] == es[1..][..k - 1];
      }
      ps
  }

  /** The running offset after the first pass is the column's stack height,
      the first image starts at the top, and every image starts where the
      previous one ends. */
  lemma FirstPassStacks(es: seq<Entry>, x: nat)
    ensures SumOf(FirstPass(es, x, 0), PlacedHeight) == StackHeight(es)
    ensures |es| > 0 ==> FirstPass(es, x, 0)[0].offset == 0
    ensures forall k :: 0 <= k < |es| - 1 ==>
      FirstPass(es, x, 0)[k + 1].offset == FirstPass(es, x, 0)[k].offset + es[k].height
  {
    FirstPassHeights(es, x, 0);
    forall k | 0 <= k < |es| - 1
      ensures FirstPass(es, x, 0)[k + 1].offset == FirstPass(es, x, 0)[k].offset + es[k].height
    {
      SumOfPrefixStep(es, k, EntryHeight);
    }
  }

  lemma {:induction false} FirstPassHeights(es: seq<Entry>, x: nat, start: nat)
    ensures SumOf(FirstPass(es, x, start), PlacedHeight) == StackHeight(es)
  {
    if |es| > 0 {
      FirstPassHeights(es[1..], x, start + es[0].height);
      assert FirstPass(es, x, start)[1..] == FirstPass(es[1..], x, start + es[0].height);
    }
  }

  /** State of the padding loop: the column's placements so far, the index
      `i` of the next image to copy, and the running offset. */
  datatype PadState = PadState(images: seq<Placed>, i: nat, offset: nat)

  /** One iteration of the padding loop: copy `column_images[i]` to the
      running offset and advance both. */
  function PadStep(st: PadState): (next: PadState)
    requires st.i < |st.images|
    ensures |next.images| == |st.images| + 1 && next.images[..|st.images|] == st.images
    ensures next.images[|st.images|].id == st.images[st.i].id
    ensures next.images[|st.images|].height == st.images[st.i].height
    ensures next.images[|st.images|].offset == st.offset
    ensures next.offset == st.offset + st.images[st.i].height
    ensures next.i == st.i + 1 && next.i < |next.images|
  {
    var pad := st.images[st.i].(offset := st.offset);
    PadState(st.images + [pad], st.i + 1, st.offset + pad.height)
  }

  /** `k` iterations of the padding loop, whatever its guard says. */
  function PadSteps(st: PadState, k: nat): (last: PadState)
    requires st.i < |st.images|
    ensures last.i < |last.images|
    decreases k
  {
    if k == 0 then st else PadSteps(PadStep(st), k - 1)
  }

  ghost predicate AllFlat(ps: seq<Placed>)
  {
    forall k :: 0 <= k < |ps| ==> ps[k].height == 0
  }

  /** With every height zero no iteration moves the offset, so the guard
      `offset < target_height` stays true: the loop does not terminate. */
  lemma {:induction false} FlatColumnNeverFills(st: PadState, k: nat)
    requires st.i < |st.images|
    requires AllFlat(st.images)
    ensures PadSteps(st, k).offset == st.offset
    ensures AllFlat(PadSteps(st, k).images)
    decreases k
  {
    if k > 0 {
      FlatColumnNeverFills(PadStep(st), k - 1);
    }
  }

  /** Number of zero-height placements before the first positive one. */
  function ZeroRun(ps: seq<Placed>): nat
  {
    if |ps| == 0 || ps[0].height > 0 then 0 else 1 + ZeroRun(ps[1..])
  }

  lemma {:induction false} ZeroRunAppend(ps: seq<Placed>, p: Placed, k: nat)
    requires k < |ps| && ps[k].height > 0
    ensures ZeroRun(ps + [p]) == ZeroRun(ps)
  {
    assert (ps + [p])[0] == ps[0];
    if ps[0].height == 0 {
      assert (ps + [p])[1..] == ps[1..] + [p];
      ZeroRunAppend(ps[1..], p, k - 1);
    }
  }

  /** From index `n` on, `out` holds copies: each is the placement `n`
      positions earlier moved to a new offset, and the copies are stacked
      one below the other from `start`. */
  ghost predicate StackedCopies(out: seq<Placed>, n: nat, start: nat)
    requires n <= |out|
  {
    && (forall k :: n <= k < |out| ==> out[k] == out[k - n].(offset := out[k].offset))
    && (forall k :: n <= k < |out| ==> out[k].offset == start + SumOf(out[n..k], PlacedHeight))
  }

  /** The padding `out` adds after `base`: copies of the placements `n`
      positions earlier, the first at `start` and each next one where the
      previous ends, each placed while the column was still short of
      `target`; there is padding exactly when the column starts short, and
      then it reaches `target`. */
  ghost predicate Padded(out: seq<Placed>, base: seq<Placed>, start: nat, target: nat)
  {
    var n := |base|;
    && |out| >= n
    && out[..n] == base
    && (|out| > n <==> start < target)
    && (|out| > n ==> n > 0 && out[n].offset == start)
    && (forall k :: n <= k < |out| ==> out[k] == out[k - n].(offset := out[k].offset) && out[k].offset < target)
    && (forall k :: n <= k < |out| - 1 ==> out[k + 1].offset == out[k].offset + out[k].height)
    && (|out| > n ==> out[|out| - 1].offset + out[|out| - 1].height >= target)
  }

  /** What the padding loop keeps true: the state's placements are `base`
      followed by the copies so far, one per iteration, and the running
      offset is where the last copy ends. */
  ghost predicate PadInvariant(st: PadState, base: seq<Placed>, start: nat, target: nat)
  {
    var n := |base|;
    && |st.images| == n + st.i
    && st.images[..n] == base
    && StackedCopies(st.images, n, start)
    && (forall k :: n <= k < |st.images| ==> st.images[k].offset < target)
    && st.offset == start + SumOf(st.images[n..], PlacedHeight)
  }

  /** A step appends a copy of the placement at the loop index. */
  lemma PadStepKeepsShape(st: PadState, n: nat)
    requires st.i < |st.images| && |st.images| == n + st.i
    requires forall k :: n <= k < |st.images| ==> st.images[k] == st.images[k - n].(offset := st.images[k].offset)
    ensures var next := PadStep(st).images;
      forall k :: n <= k < |next| ==> next[k] == next[k - n].(offset := next[k].offset)
  {
    var before := st.images;
    var next := PadStep(st).images;
    assert next == before + [before[st.i].(offset := st.offset)];
    forall k | n <= k < |next|
      ensures next[k] == next[k - n].(offset := next[k].offset)
    {
      if k < |before| {
        assert next[k] == before[k] && next[k - n] == before[k - n];
      }
    }
  }

  /** A step leaves the offsets of the earlier copies as they were. */
  lemma PadStepKeepsOffsets(st: PadState, n: nat, start: nat)
    requires st.i < |st.images| && |st.images| == n + st.i
    requires forall k :: n <= k < |st.images| ==> st.images[k].offset == start + SumOf(st.images[n..k], PlacedHeight)
    requires st.offset == start + SumOf(st.images[n..], PlacedHeight)
    ensures var next := PadStep(st).images;
      forall k :: n <= k < |next| ==> next[k].offset == start + SumOf(next[n..k], PlacedHeight)
  {
    var before := st.images;
    var next := PadStep(st).images;
    assert next == before + [before[st.i].(offset := st.offset)];
    forall k | n <= k < |next|
      ensures next[k].offset == start + SumOf(next[n..k], PlacedHeight)
    {
      assert next[n..k] == before[n..k];
    }
  }

  /** A step moves the running offset to the end of its copy. */
  lemma PadStepKeepsOffset(st: PadState, n: nat, start: nat)
    requires st.i < |st.images| && |st.images| == n + st.i
    requires st.offset == start + SumOf(st.images[n..], PlacedHeight)
    ensures PadStep(st).offset == start + SumOf(PadStep(st).images[n..], PlacedHeight)
  {
    var before := st.images;
    var next := PadStep(st).images;
    var m := |before|;
    assert next[n..] == before[n..] + [next[m]];
    SumOfAppend(before[n..], [next[m]], PlacedHeight);
  }

  lemma PadStepKeepsCopies(st: PadState, n: nat, start: nat)
    requires st.i < |st.images| && |st.images| == n + st.i
    requires StackedCopies(st.images, n, start)
    requires st.offset == start + SumOf(st.images[n..], PlacedHeight)
    ensures StackedCopies(PadStep(st).images, n, start)
    ensures PadStep(st).offset == start + SumOf(PadStep(st).images[n..], PlacedHeight)
  {
    PadStepKeepsShape(st, n);
    PadStepKeepsOffsets(st, n, start);
    PadStepKeepsOffset(st, n, start);
  }

  lemma PadStepKeepsInvariant(st: PadState, base: seq<Placed>, start: nat, target: nat)
    requires st.i < |st.images|
    requires PadInvariant(st, base, start, target)
    requires st.offset < target
    ensures PadInvariant(PadStep(st), base, start, target)
  {
    PadStepKeepsCopies(st, |base|, start);
    assert PadStep(st).images[..|base|] == st.images[..|base|];
  }

  /** A zero-height step shortens the run of zeros ahead of the loop index,
      as long as a positive height lies ahead. */
  lemma PadStepShortensZeroRun(st: PadState, w: nat)
    requires st.i <= w < |st.images| && st.images[w].height > 0
    requires st.images[st.i].height == 0
    ensures ZeroRun(PadStep(st).images[st.i + 1..]) < ZeroRun(st.images[st.i..])
  {
    var next := PadStep(st);
    var m := |st.images|;
    assert st.images[st.i..][1..] == st.images[st.i + 1..];
    assert next.images[st.i + 1..] == st.images[st.i + 1..] + [next.images[m]];
    ZeroRunAppend(st.images[st.i + 1..], next.images[m], w - st.i - 1);
  }

  /** Copies stacked from `start` by running sums lie end to end. */
  lemma CopiesLieEndToEnd(out: seq<Placed>, n: nat, start: nat)
    requires n <= |out|
    requires StackedCopies(out, n, start)
    ensures forall k :: n <= k < |out| - 1 ==> out[k + 1].offset == out[k].offset + out[k].height
    ensures |out| > n ==> out[n].offset == start
    ensures |out| > n ==> out[|out| - 1].offset + out[|out| - 1].height == start + SumOf(out[n..], PlacedHeight)
  {
    forall k | n <= k < |out| - 1
      ensures out[k + 1].offset == out[k].offset + out[k].height
    {
      assert out[n..k + 1] == out[n..k] + [out[k]];
      SumOfAppend(out[n..k], [out[k]], PlacedHeight);
    }
    if |out| > n {
      assert out[n..n] == [];
      var m := |out| - 1;
      assert out[n..] == out[n..m] + [out[m]];
      SumOfAppend(out[n..m], [out[m]], PlacedHeight);
    }
  }

  /** When the loop stops, its placements are `base` followed by copies of
      earlier placements, each started short of the target. */
  lemma PadExitCopies(st: PadState, base: seq<Placed>, start: nat, target: nat)
    requires PadInvariant(st, base, start, target)
    ensures |st.images| >= |base| && st.images[..|base|] == base
    ensures forall k :: |base| <= k < |st.images| ==>
      st.images[k] == st.images[k - |base|].(offset := st.images[k].offset) && st.images[k].offset < target
  {
  }

  /** When the loop stops past the target, the copies run end to end from
      `start` down to the target. */
  lemma PadExitChain(st: PadState, base: seq<Placed>, start: nat, target: nat)
    requires PadInvariant(st, base, start, target)
    requires start < target <= st.offset
    ensures |st.images| > |base|
    ensures st.images[|base|].offset == start
    ensures forall k :: |base| <= k < |st.images| - 1 ==>
      st.images[k + 1].offset == st.images[k].offset + st.images[k].height
    ensures st.images[|st.images| - 1].offset + st.images[|st.images| - 1].height >= target
  {
    CopiesLieEndToEnd(st.images, |base|, start);
  }

  /** The fault the padding loop hits, if any, when it starts at `start`
      with placements `base`: none when the column is already full; the
      index-0 panic on an empty column; no termination when every height
      is zero (see `FlatColumnNeverFills`). */
  function PadFault(base: seq<Placed>, start: nat, target: nat): (f: Option<PlanError>)
    ensures f.Some? <==> (start < target && forall k :: 0 <= k < |base| ==> base[k].height == 0)
    ensures f == Some(EmptyColumn) <==> start < target && |base| == 0
  {
    SumOfZero(base, PlacedHeight);
    if start >= target then None
    else if |base| == 0 then Some(EmptyColumn)
    else if SumOf(base, PlacedHeight) == 0 then Some(NoProgress)
    else None
  }

  /** The `NoProgress` fault is the loop that never ends: the column starts
      short, holds images, and no number of iterations moves the offset off
      its start, so the guard stays true. */
  lemma NoProgressNeverEnds(base: seq<Placed>, start: nat, target: nat, k: nat)
    requires PadFault(base, start, target) == Some(NoProgress)
    ensures start < target && |base| > 0
    ensures PadSteps(PadState(base, 0, start), k).offset == start
  {
    FlatColumnNeverFills(PadState(base, 0, start), k);
  }

  /** The loop invariant together with a positive-height placement at or
      after the loop index, which the loop will copy. */
  ghost predicate PadProgress(st: PadState, base: seq<Placed>, start: nat, target: nat, w: nat)
  {
    && PadInvariant(st, base, start, target)
    && st.i <= w < |st.images| && st.images[w].height > 0
  }

  /** One iteration keeps the invariant and moves the offset down, or else
      shortens the run of zero heights ahead of the loop index. */
  lemma PadProgressStep(st: PadState, base: seq<Placed>, start: nat, target: nat, w: nat) returns (w': nat)
    requires PadProgress(st, base, start, target, w) && st.offset < target
    ensures PadProgress(PadStep(st), base, start, target, w')
    ensures target - PadStep(st).offset < target - st.offset ||
      (PadStep(st).offset == st.offset && ZeroRun(PadStep(st).images[PadStep(st).i..]) < ZeroRun(st.images[st.i..]))
  {
    PadStepKeepsInvariant(st, base, start, target);
    if st.images[st.i].height > 0 {
      w' := |st.images|;
    } else {
      w' := w;
      PadStepShortensZeroRun(st, w);
    }
  }

  /** Before the first iteration nothing has been copied yet. */
  lemma PadStart(base: seq<Placed>, start: nat, target: nat, w: nat)
    requires w < |base| && base[w].height > 0
    ensures PadProgress(PadState(base, 0, start), base, start, target, w)
  {
    assert base[..|base|] == base && base[|base|..] == [];
  }

  /** The padding loop of `get_image_info` on a column that starts short
      of the target and holds some positive height, so that it ends. */
  method PadLoop(base: seq<Placed>, start: nat, target: nat) returns (out: seq<Placed>)
    requires 0 < SumOf(base, PlacedHeight) && start < target
    ensures |out| > |base| && out[..|base|] == base
    ensures out[|base|].offset == start
    ensures forall k :: |base| <= k < |out| ==>
      out[k] == out[k - |base|].(offset := out[k].offset) && out[k].offset < target
    ensures forall k :: |base| <= k < |out| - 1 ==> out[k + 1].offset == out[k].offset + out[k].height
    ensures out[|out| - 1].offset + out[|out| - 1].height >= target
  {
    ghost var w := PositiveWitness(base);
    var st := PadState(base, 0, start);
    PadStart(base, start, target, w);
    while st.offset < target
      invariant PadProgress(st, base, start, target, w)
      decreases target - st.offset, ZeroRun(st.images[st.i..])
    {
      w := PadProgressStep(st, base, start, target, w);
      st := PadStep(st);
    }
    PadExitCopies(st, base, start, target);
    PadExitChain(st, base, start, target);
    return st.images;
  }

  /** The padding stage of `get_image_info`, run from the offset the first
      pass reached. It fails as the program does: a panic on an empty
      column, and no termination when every height is zero. */
  method PadColumn(base: seq<Placed>, start: nat, target: nat) returns (r: Result<seq<Placed>, PlanError>)
    ensures r.Success? <==> PadFault(base, start, target).None?
    ensures r.Failure? ==> PadFault(base, start, target) == Some(r.error)
    ensures r.Success? ==> |r.value| >= |base| && r.value[..|base|] == base
    ensures r.Success? ==> (|r.value| > |base| <==> start < target)
    ensures r.Success? && |r.value| > |base| ==> |base| > 0 && r.value[|base|].offset == start
    ensures r.Success? ==> forall k :: |base| <= k < |r.value| ==>
      r.value[k] == r.value[k - |base|].(offset := r.value[k].offset) && r.value[k].offset < target
    ensures r.Success? ==> forall k :: |base| <= k < |r.value| - 1 ==>
      r.value[k + 1].offset == r.value[k].offset + r.value[k].height
    ensures r.Success? && |r.value| > |base| ==>
      r.value[|r.value| - 1].offset + r.value[|r.value| - 1].height >= target
  {
    var fault := PadFault(base, start, target);
    if fault.Some? {
      return Failure(fault.value);
    }
    if start >= target {
      assert base[..|base|] == base;
      return Success(base);
    }
    var out := PadLoop(base, start, target);
    return Success(out);
  }

  /** Index of a positive-height placement, when the heights do not sum to 0. */
  lemma {:induction false} PositiveWitness(ps: seq<Placed>) returns (w: nat)
    requires SumOf(ps, PlacedHeight) > 0
    ensures w < |ps| && ps[w].height > 0
  {
    if ps[0].height > 0 {
      w := 0;
    } else {
      var w' := PositiveWitness(ps[1..]);
      w := w' + 1;
    }
  }

  /** `column_number * column_width`: the left edge of a column. */
  function ColumnX(columnNumber: nat, columnWidth: nat): nat
  {
    columnNumber * columnWidth
  }

  /** The columns lie side by side: each starts where the one before it
      ends, and a later column never starts inside an earlier one. */
  lemma {:induction false} ColumnsSideBySide(c: nat, d: nat, columnWidth: nat)
    requires c < d
    ensures ColumnX(c + 1, columnWidth) == ColumnX(c, columnWidth) + columnWidth
    ensures ColumnX(c, columnWidth) + columnWidth <= ColumnX(d, columnWidth)
    decreases d
  {
    NextColumn(c, columnWidth);
    if d > c + 1 {
      ColumnsSideBySide(c, d - 1, columnWidth);
      NextColumn(d - 1, columnWidth);
    }
  }

  lemma NextColumn(c: nat, columnWidth: nat)
    ensures ColumnX(c + 1, columnWidth) == ColumnX(c, columnWidth) + columnWidth
  {
  }

  /** The fault the planner hits on a column, if any: only a column that
      falls short of the target needs padding, and padding needs an image
      of positive height. */
  function ColumnFault(col: Column, target: nat): (f: Option<PlanError>)
    ensures f.Some? <==>
      (StackHeight(col.images) < target && forall k :: 0 <= k < |col.images| ==> col.images[k].height == 0)
    ensures f == Some(EmptyColumn) <==> StackHeight(col.images) < target && |col.images| == 0
  {
    SumOfZero(col.images, EntryHeight);
    var total := StackHeight(col.images);
    if total >= target then None
    else if |col.images| == 0 then Some(EmptyColumn)
    else if total == 0 then Some(NoProgress)
    else None
  }

  /** A column's placements sorted by height and then reversed: a
      permutation of the first pass, tallest first, and images of equal
      height in the reverse of their packing order. */
  ghost predicate Arranged(a: seq<Placed>, first: seq<Placed>)
  {
    && multiset(a) == multiset(first)
    && Descending(a, PlacedHeight)
    && forall v :: Filter(a, PlacedHeight, v) == Reverse(Filter(first, PlacedHeight, v))
  }

  /** What `get_image_info` produces for one column at `x`: the first pass
      rearranged tallest first, then the padding copies stacked from the
      column's height until the target is reached. */
  ghost predicate ColumnPlan(out: seq<Placed>, col: Column, x: nat, target: nat)
  {
    var n := |col.images|;
    && |out| >= n
    && Arranged(out[..n], FirstPass(col.images, x, 0))
    && Padded(out, out[..n], StackHeight(col.images), target)
  }

  lemma ArrangeIsArranged(first: seq<Placed>)
    ensures Arranged(Reverse(Sort(first, PlacedHeight)), first)
    ensures SumOf(Reverse(Sort(first, PlacedHeight)), PlacedHeight) == SumOf(first, PlacedHeight)
  {
    var sorted := Sort(first, PlacedHeight);
    SortIsStable(first, PlacedHeight);
    ReverseMultiset(sorted);
    ReverseAscending(sorted, PlacedHeight);
    forall v ensures Filter(Reverse(sorted), PlacedHeight, v) == Reverse(Filter(first, PlacedHeight, v)) {
      ReverseFilter(sorted, PlacedHeight, v);
    }
    SumOfPermutation(Reverse(sorted), first, PlacedHeight);
  }

  /** The padding loop, started on a column's arranged images at the
      column's height, hits exactly the column's fault. */
  lemma PadFaultIsColumnFault(col: Column, arranged: seq<Placed>, target: nat)
    requires |arranged| == |col.images|
    requires SumOf(arranged, PlacedHeight) == StackHeight(col.images)
    ensures PadFault(arranged, StackHeight(col.images), target) == ColumnFault(col, target)
  {
  }

  /** The per-column body of `get_image_info`. */
  method PlanColumn(col: Column, columnNumber: nat, columnWidth: nat, target: nat)
    returns (r: Result<seq<Placed>, PlanError>)
    ensures r.Success? <==> ColumnFault(col, target).None?
    ensures r.Failure? ==> ColumnFault(col, target) == Some(r.error)
    ensures r.Success? ==> ColumnPlan(r.value, col, ColumnX(columnNumber, columnWidth), target)
  {
    var x := ColumnX(columnNumber, columnWidth);
    var first := FirstPass(col.images, x, 0);
    var offset := StackHeight(col.images);
    var arranged := Reverse(Sort(first, PlacedHeight));
    FirstPassStacks(col.images, x);
    ArrangeIsArranged(first);
    PadFaultIsColumnFault(col, arranged, target);
    r := PadColumn(arranged, offset, target);
    if r.Success? {
      assert Padded(r.value, arranged, offset, target);
      assert r.value[..|col.images|] == arranged;
    }
  }

  /** The first `|plans|` columns of `g` are planned by `plans`. */
  ghost predicate AllPlanned(g: Grid, target: nat, plans: seq<seq<Placed>>)
  {
    && |plans| <= |g.columns|
    && forall d :: 0 <= d < |plans| ==> ColumnPlan(plans[d], g.columns[d], ColumnX(d, g.columnWidth), target)
  }

  lemma PlansGrow(g: Grid, target: nat, plans: seq<seq<Placed>>, p: seq<Placed>)
    requires AllPlanned(g, target, plans) && |plans| < |g.columns|
    requires ColumnPlan(p, g.columns[|plans|], ColumnX(|plans|, g.columnWidth), target)
    ensures AllPlanned(g, target, plans + [p])
  {
    var grown := plans + [p];
    forall d | 0 <= d < |plans| + 1
      ensures ColumnPlan(grown[d], g.columns[d], ColumnX(d, g.columnWidth), target)
    {
      if d < |plans| {
        KeepPlan(g, target, plans, grown, d);
      }
    }
  }

  lemma KeepPlan(g: Grid, target: nat, plans: seq<seq<Placed>>, grown: seq<seq<Placed>>, d: nat)
    requires d < |plans| <= |grown| && d < |g.columns|
    requires grown[..|plans|] == plans
    requires ColumnPlan(plans[d], g.columns[d], ColumnX(d, g.columnWidth), target)
    ensures ColumnPlan(grown[d], g.columns[d], ColumnX(d, g.columnWidth), target)
  {
    assert grown[d] == grown[..|plans|][d];
  }

  lemma FlattenSnoc(plans: seq<seq<Placed>>, p: seq<Placed>)
    ensures Flatten(plans) + p == Flatten(plans + [p])
  {
    FlattenAppend(plans, [p]);
    assert [p][1..] == [];
  }

  /** `get_image_info`: the columns' plans concatenated in column order,
      column `c` drawn at `x = c * column_width`. */
  method PlanGrid(g: Grid, target: nat) returns (r: Result<seq<Placed>, PlanError>, ghost plans: seq<seq<Placed>>)
    ensures r.Success? <==> forall c :: 0 <= c < |g.columns| ==> ColumnFault(g.columns[c], target).None?
    ensures r.Failure? ==> exists c :: 0 <= c < |g.columns| && ColumnFault(g.columns[c], target) == Some(r.error)
    ensures r.Success? ==> |plans| == |g.columns| && r.value == Flatten(plans)
    ensures r.Success? ==> forall c :: 0 <= c < |g.columns| ==>
      ColumnPlan(plans[c], g.columns[c], ColumnX(c, g.columnWidth), target)
  {
    var placed: seq<Placed> := [];
    plans := [];
    var c := 0;
    while c < |g.columns|
      invariant c <= |g.columns|
      invariant |plans| == c
      invariant placed == Flatten(plans)
      invariant forall d :: 0 <= d < c ==> ColumnFault(g.columns[d], target).None?
      invariant AllPlanned(g, target, plans)
    {
      var column := PlanColumn(g.columns[c], c, g.columnWidth, target);
      if column.Failure? {
        return Failure(column.error), plans;
      }
      PlansGrow(g, target, plans, column.value);
      FlattenSnoc(plans, column.value);
      placed := placed + column.value;
      plans := plans + [column.value];
      c := c + 1;
    }
    return Success(placed), plans;
  }

  /** Every placement in a column's plan is drawn at the column's `x` and
      shows one of the column's images at its packed height. */
  lemma {:induction false} PlanShowsOnlyColumnImages(out: seq<Placed>, col: Column, x: nat, target: nat, k: nat)
    requires ColumnPlan(out, col, x, target)
    requires k < |out|
    ensures out[k].x == x
    ensures exists j :: 0 <= j < |col.images| && out[k].id == col.images[j].id && out[k].height == col.images[j].height
    decreases k
  {
    var n := |col.images|;
    if k < n {
      var first := FirstPass(col.images, x, 0);
      assert out[k] == out[..n][k];
      assert out[k] in multiset(first);
      var j :| 0 <= j < n && first[j] == out[k];
    } else {
      PlanShowsOnlyColumnImages(out, col, x, target, k - n);
    }
  }

  /** Every image of a column appears in the column's plan, at the column's
      `x` and its packed height. */
  lemma PlanShowsEveryColumnImage(out: seq<Placed>, col: Column, x: nat, target: nat, j: nat)
    requires ColumnPlan(out, col, x, target)
    requires j < |col.images|
    ensures exists k ::
      0 <= k < |out| && out[k].x == x && out[k].id == col.images[j].id && out[k].height == col.images[j].height
  {
    var n := |col.images|;
    var first := FirstPass(col.images, x, 0);
    assert first[j] in multiset(out[..n]);
    var k :| 0 <= k < n && out[..n][k] == first[j];
    assert out[k] == first[j];
  }

  /** A column's plan adds padding exactly when the column was short of
      the target; one that already reached it is drawn once per image. */
  lemma PlanPadsOnlyShortColumns(out: seq<Placed>, col: Column, x: nat, target: nat)
    requires ColumnPlan(out, col, x, target)
    ensures |out| > |col.images| <==> StackHeight(col.images) < target
    ensures StackHeight(col.images) >= target ==> |out| == |col.images|
  {
  }
}
