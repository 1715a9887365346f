/** The layout pipeline of `main`, from measured images to placements:
    try every candidate column count, select a grid by the program's rule,
    and plan where each image is drawn. Directory scanning, header reading,
    ordering, decoding, compositing and saving are outside the model. */
module Mosaic {
  import opened Outcomes
  import opened Seqs
  import opened Layout
  import opened Packer
  import opened Scorer
  import opened Selection
  import opened Planner

  /** How the pipeline ends without placements. */
  datatype MosaicError =
    | NotEnoughImages          // zero or one image: `main` prints a message and returns
    | NoViableLayout           // the chosen index is past the last candidate: `unwrap` panics
    | PlanFailed(reason: PlanError)

  function ImageIds(imgs: seq<SourceImage>): set<ImageId>
  {
    set i | 0 <= i < |imgs| :: imgs[i].id
  }

  function PlacedIds(ps: seq<Placed>): set<ImageId>
  {
    set p | p in ps :: p.id
  }

  function EntryIds(m: multiset<Entry>): set<ImageId>
  {
    set e | e in m :: e.id
  }

  /** The images of the input are exactly the images packed into a grid. */
  lemma ScaledEntryIds(imgs: seq<SourceImage>, columnWidth: nat)
    requires ValidImages(imgs)
    ensures EntryIds(multiset(ScaledEntries(imgs, columnWidth))) == ImageIds(imgs)
  {
    var es := ScaledEntries(imgs, columnWidth);
    forall id | id in ImageIds(imgs) ensures id in EntryIds(multiset(es)) {
      var i :| 0 <= i < |imgs| && imgs[i].id == id;
      assert es[i] in multiset(es);
    }
  }

  /** The placements of a planned grid show exactly the images packed in
      it, each drawn at the left edge of one of the grid's columns. */
  lemma PlanCoversGrid(g: Grid, target: nat, plans: seq<seq<Placed>>)
    requires |plans| == |g.columns|
    requires forall c :: 0 <= c < |g.columns| ==> ColumnPlan(plans[c], g.columns[c], ColumnX(c, g.columnWidth), target)
    ensures PlacedIds(Flatten(plans)) == EntryIds(AllEntries(g.columns))
    ensures forall p :: p in Flatten(plans) ==>
      exists c :: 0 <= c < |g.columns| && p.x == ColumnX(c, g.columnWidth)
  {
    var cols := g.columns;
    var ps := Flatten(plans);
    forall p | p in ps
      ensures p.id in EntryIds(AllEntries(cols))
      ensures exists c :: 0 <= c < |cols| && p.x == ColumnX(c, g.columnWidth)
    {
      var c := FlattenSource(plans, p);
      var k :| 0 <= k < |plans[c]| && plans[c][k] == p;
      PlanShowsOnlyColumnImages(plans[c], cols[c], ColumnX(c, g.columnWidth), target, k);
      var j :| 0 <= j < |cols[c].images| && p.id == cols[c].images[j].id && p.height == cols[c].images[j].height;
      FlatMsMember(cols, ColumnEntries, c, cols[c].images[j]);
    }
    forall id | id in EntryIds(AllEntries(cols))
      ensures id in PlacedIds(ps)
    {
      var e :| e in AllEntries(cols) && e.id == id;
      var c := FlatMsSource(cols, ColumnEntries, e);
      var j :| 0 <= j < |cols[c].images| && cols[c].images[j] == e;
      PlanShowsEveryColumnImage(plans[c], cols[c], ColumnX(c, g.columnWidth), target, j);
      var k :| 0 <= k < |plans[c]| && plans[c][k].id == e.id;
      FlattenMember(plans, c, plans[c][k]);
    }
  }

  /** Lay out `imgs` on a `targetWidth` x `targetHeight` canvas. On success
      `g` is the selected grid and `plans` its per-column placements. */
  method Mosaic(imgs: seq<SourceImage>, targetWidth: nat, targetHeight: nat)
    returns (r: Result<seq<Placed>, MosaicError>, ghost g: Grid, ghost plans: seq<seq<Placed>>)
    requires ValidImages(imgs)
    ensures |imgs| < 2 <==> r == Failure(NotEnoughImages)
    ensures |imgs| >= 2 ==>
      (r == Failure(NoViableLayout) <==> SelectGrid(AllGrids(imgs, targetWidth), targetHeight).None?)
    ensures 2 <= |imgs| <= 5 ==> r == Failure(NoViableLayout)
    ensures r.Success? || r.error.PlanFailed? ==> SelectGrid(AllGrids(imgs, targetWidth), targetHeight).Some?
    ensures r.Failure? && r.error.PlanFailed? ==>
      var g := SelectGrid(AllGrids(imgs, targetWidth), targetHeight).value;
      exists c :: 0 <= c < |g.columns| && ColumnFault(g.columns[c], targetHeight) == Some(r.error.reason)
    ensures r.Success? ==> SelectGrid(AllGrids(imgs, targetWidth), targetHeight) == Some(g)
    ensures r.Success? ==> |plans| == |g.columns| && r.value == Flatten(plans)
    ensures r.Success? ==> forall c :: 0 <= c < |g.columns| ==>
      ColumnPlan(plans[c], g.columns[c], ColumnX(c, g.columnWidth), targetHeight)
    ensures r.Success? ==> PlacedIds(r.value) == ImageIds(imgs)
    ensures r.Success? ==>
      var g := SelectGrid(AllGrids(imgs, targetWidth), targetHeight).value;
      forall p :: p in r.value ==> exists c :: 0 <= c < |g.columns| && p.x == ColumnX(c, g.columnWidth)
  {
    g := Grid(0, [], 0);
    plans := [];
    if |imgs| < 2 {
      return Failure(NotEnoughImages), g, plans;
    }
    var grids := AllGrids(imgs, targetWidth);
    var chosen := SelectGrid(grids, targetHeight);
    if chosen.None? {
      return Failure(NoViableLayout), g, plans;
    }
    if |imgs| <= 5 {
      NoGridForFewImages(imgs, targetWidth, targetHeight);
    }
    var sel := chosen.value;
    g := sel;
    var plan;
    plan, plans := PlanGrid(sel, targetHeight);
    if plan.Failure? {
      return Failure(PlanFailed(plan.error)), g, plans;
    }
    PlanCoversGrid(g, targetHeight, plans);
    ScaledEntryIds(imgs, g.columnWidth);
    return Success(plan.value), g, plans;
  }
}
