/** Greedy matching of layout boxes to placed figures by intersection over union. */
module FigureAssociation {
  import opened Prelude
  import opened Rects

  datatype Placed = Placed(page: int, name: string, rect: Rect)

  datatype Box = Box(page: int, rect: Rect, boxLabel: string, source: string)

  datatype Region = Region(page: int, rect: Rect, boxLabel: string, source: string, iou: real, figure: Option<string>)

  datatype AssociationError = MinimumOutOfRange

  function Larger(p: real, q: real): real { if q > p then q else p }

  function Smaller(p: real, q: real): real { if q < p then q else p }

  /** The common part of two boxes; without area when they do not overlap. */
  function Common(l: Rect, r: Rect): Rect {
    Rect(Larger(l.x0, r.x0), Larger(l.y0, r.y0), Smaller(l.x1, r.x1), Smaller(l.y1, r.y1))
  }

  function Times(p: real, q: real): real { p * q }

  function Area(r: Rect): real { Times(r.x1 - r.x0, r.y1 - r.y0) }

  function Iou(l: Rect, r: Rect): real {
    var common := Common(l, r);
    if Degenerate(common) then 0.0
    else
      var denominator := Area(l) + Area(r) - Area(common);
      if denominator <= 0.0 then 0.0 else Area(common) / denominator
  }

  // ---- the best free figure for one box ----

  predicate Eligible(box: Box, figures: seq<Placed>, used: set<int>, i: nat)
    requires i < |figures|
  {
    i !in used && figures[i].page == box.page
  }

  /** Among the first `n` figures; `(-1, 0.0)` when none of them overlaps the box. */
  function Best(box: Box, figures: seq<Placed>, used: set<int>, n: nat): (int, real)
    requires n <= |figures|
  {
    if n == 0 then (-1, 0.0)
    else
      var b := Best(box, figures, used, n - 1);
      if Eligible(box, figures, used, n - 1) && Iou(box.rect, figures[n - 1].rect) > b.1
      then (n - 1, Iou(box.rect, figures[n - 1].rect)) else b
  }

  /** The best figure overlaps most, and is the first of those that do. */
  ghost predicate IsBest(box: Box, figures: seq<Placed>, used: set<int>, n: nat, b: (int, real))
    requires n <= |figures|
  {
    && (forall i | 0 <= i < n && Eligible(box, figures, used, i) :: Iou(box.rect, figures[i].rect) <= b.1)
    && (b == (-1, 0.0) ||
        (0 <= b.0 < n && 0.0 < b.1 == Iou(box.rect, figures[b.0].rect) && Eligible(box, figures, used, b.0) &&
         forall i | 0 <= i < b.0 && Eligible(box, figures, used, i) :: Iou(box.rect, figures[i].rect) < b.1))
  }

  lemma {:induction false} BestIsBest(box: Box, figures: seq<Placed>, used: set<int>, n: nat)
    requires n <= |figures|
    ensures IsBest(box, figures, used, n, Best(box, figures, used, n))
  {
    if n > 0 { BestIsBest(box, figures, used, n - 1); }
  }

  // ---- the greedy matching ----

  function Used(matches: seq<int>): set<int> { set i | i in matches && i >= 0 }

  function Choice(b: (int, real), minimum: real): int { if b.0 >= 0 && b.1 >= minimum then b.0 else -1 }

  /** For each of the first `n` boxes the figure it takes, or -1. */
  function Match(figures: seq<Placed>, boxes: seq<Box>, minimum: real, n: nat): (m: seq<int>)
    requires n <= |boxes|
    ensures |m| == n
  {
    if n == 0 then []
    else
      var m := Match(figures, boxes, minimum, n - 1);
      m + [Choice(Best(boxes[n - 1], figures, Used(m), |figures|), minimum)]
  }

  function Matches(figures: seq<Placed>, boxes: seq<Box>, minimum: real): (m: seq<int>)
    ensures |m| == |boxes|
  {
    Match(figures, boxes, minimum, |boxes|)
  }

  /** The figures below `n` that no box took. */
  function Leftover(used: set<int>, n: nat): seq<int> {
    if n == 0 then [] else Leftover(used, n - 1) + (if n - 1 in used then [] else [n - 1])
  }

  function BoxRegion(figures: seq<Placed>, box: Box, b: (int, real), minimum: real): Region {
    var i := Choice(b, minimum);
    if 0 <= i < |figures| then Region(box.page, box.rect, box.boxLabel, "ensemble", b.1, Some(figures[i].name))
    else Region(box.page, box.rect, box.boxLabel, box.source, b.1, None)
  }

  function BoxRegions(figures: seq<Placed>, boxes: seq<Box>, minimum: real, n: nat): (r: seq<Region>)
    requires n <= |boxes|
    ensures |r| == n
  {
    if n == 0 then []
    else
      var b := Best(boxes[n - 1], figures, Used(Match(figures, boxes, minimum, n - 1)), |figures|);
      BoxRegions(figures, boxes, minimum, n - 1) + [BoxRegion(figures, boxes[n - 1], b, minimum)]
  }

  function FigureRegion(f: Placed): Region { Region(f.page, f.rect, "other", "xobject", 0.0, Some(f.name)) }

  function FigureRegions(figures: seq<Placed>, used: set<int>, n: nat): seq<Region>
    requires n <= |figures|
  {
    if n == 0 then []
    else FigureRegions(figures, used, n - 1) + (if n - 1 in used then [] else [FigureRegion(figures[n - 1])])
  }

  function Regions(figures: seq<Placed>, boxes: seq<Box>, minimum: real): seq<Region> {
    BoxRegions(figures, boxes, minimum, |boxes|) +
    FigureRegions(figures, Used(Matches(figures, boxes, minimum)), |figures|)
  }

  lemma OneMoreBox(figures: seq<Placed>, boxes: seq<Box>, minimum: real, k: nat, used: set<int>, b: (int, real))
    requires k < |boxes| && used == Used(Match(figures, boxes, minimum, k))
    requires b == Best(boxes[k], figures, used, |figures|)
    ensures -1 <= b.0 < |figures|
    ensures Used(Match(figures, boxes, minimum, k + 1)) == (if b.0 >= 0 && b.1 >= minimum then used + {b.0} else used)
    ensures BoxRegions(figures, boxes, minimum, k + 1) ==
            BoxRegions(figures, boxes, minimum, k) + [BoxRegion(figures, boxes[k], b, minimum)]
  {
    BestIsBest(boxes[k], figures, used, |figures|);
  }

  /** `associate`. Reported overlaps are not rounded. Region `k` belongs to box `k`. */
  method Associate(figures: seq<Placed>, boxes: seq<Box>, minimum: real)
    returns (r: Result<seq<Region>, AssociationError>)
    ensures r == if 0.5 <= minimum <= 1.0 then Ok(Regions(figures, boxes, minimum)) else Err(MinimumOutOfRange)
    ensures r.Ok? ==> |r.value| >= |boxes| && forall k | 0 <= k < |boxes| ::
              && (r.value[k].figure.Some? <==> Matches(figures, boxes, minimum)[k] != -1)
              && MatchedByShare(figures, boxes, minimum, k)
  {
    if !(0.5 <= minimum <= 1.0) { return Err(MinimumOutOfRange); }
    var used: set<int> := {};
    var regions := [];
    for k := 0 to |boxes|
      invariant used == Used(Match(figures, boxes, minimum, k))
      invariant regions == BoxRegions(figures, boxes, minimum, k)
    {
      var box := boxes[k];
      var bestIndex, bestIou := -1, 0.0;
      for i := 0 to |figures|
        invariant (bestIndex, bestIou) == Best(box, figures, used, i)
      {
        if i in used || figures[i].page != box.page { continue; }
        var score := Iou(box.rect, figures[i].rect);
        if score > bestIou { bestIou, bestIndex := score, i; }
      }
      OneMoreBox(figures, boxes, minimum, k, used, (bestIndex, bestIou));
      if bestIndex >= 0 && bestIou >= minimum {
        used := used + {bestIndex};
        regions := regions + [Region(box.page, box.rect, box.boxLabel, "ensemble", bestIou,
                                     Some(figures[bestIndex].name))];
      } else {
        regions := regions + [Region(box.page, box.rect, box.boxLabel, box.source, bestIou, None)];
      }
    }
    for i := 0 to |figures|
      invariant regions == BoxRegions(figures, boxes, minimum, |boxes|) + FigureRegions(figures, used, i)
    {
      if i in used { continue; }
      var figure := figures[i];
      regions := regions + [Region(figure.page, figure.rect, "other", "xobject", 0.0, Some(figure.name))];
    }
    AssociatedByShare(figures, boxes, minimum);
    return Ok(regions);
  }

  // ---- every box once, every figure once ----

  lemma {:induction false} MatchPrefix(figures: seq<Placed>, boxes: seq<Box>, minimum: real, k: nat, n: nat)
    requires k <= n <= |boxes|
    ensures Match(figures, boxes, minimum, k) == Match(figures, boxes, minimum, n)[..k]
  {
    if k < n { MatchPrefix(figures, boxes, minimum, k, n - 1); }
  }

  /** What box `k` saw: the figures taken by earlier boxes, and its own best among the others. */
  lemma MatchAt(figures: seq<Placed>, boxes: seq<Box>, minimum: real, k: nat) returns (used: set<int>, b: (int, real))
    requires k < |boxes|
    ensures used == Used(Matches(figures, boxes, minimum)[..k]) && b == Best(boxes[k], figures, used, |figures|)
    ensures IsBest(boxes[k], figures, used, |figures|, b)
    ensures Matches(figures, boxes, minimum)[k] == Choice(b, minimum)
  {
    MatchPrefix(figures, boxes, minimum, k, |boxes|);
    MatchPrefix(figures, boxes, minimum, k + 1, |boxes|);
    used := Used(Match(figures, boxes, minimum, k));
    b := Best(boxes[k], figures, used, |figures|);
    BestIsBest(boxes[k], figures, used, |figures|);
    assert Match(figures, boxes, minimum, k + 1)[k] == Choice(b, minimum);
  }

  predicate Clears(box: Box, f: Placed, minimum: real) { f.page == box.page && Iou(box.rect, f.rect) >= minimum }

  /** A match clears the threshold on its own page, and no figure is matched twice. */
  lemma MatchesAreSound(figures: seq<Placed>, boxes: seq<Box>, minimum: real, k: nat)
    requires k < |boxes|
    ensures var i := Matches(figures, boxes, minimum)[k];
            i == -1 || (0 <= i < |figures| && Clears(boxes[k], figures[i], minimum) &&
                        i !in Matches(figures, boxes, minimum)[..k])
  {
    var used, b := MatchAt(figures, boxes, minimum, k);
  }

  /** A figure that a box left alone although it clears the threshold had gone to an earlier box. */
  lemma MatchesAreMaximal(figures: seq<Placed>, boxes: seq<Box>, minimum: real, k: nat, i: nat)
    requires 0.0 < minimum && k < |boxes| && i < |figures| && Clears(boxes[k], figures[i], minimum)
    requires Matches(figures, boxes, minimum)[k] == -1
    ensures i in Matches(figures, boxes, minimum)[..k]
  {
    var used, b := MatchAt(figures, boxes, minimum, k);
    assert !Eligible(boxes[k], figures, used, i);
  }

  /** The index of the figure each region shows, -1 for none: boxes first, then leftover figures. */
  function Shown(figures: seq<Placed>, boxes: seq<Box>, minimum: real): seq<int> {
    var m := Matches(figures, boxes, minimum);
    m + Leftover(Used(m), |figures|)
  }

  lemma {:induction false} LeftoverShown(figures: seq<Placed>, used: set<int>, n: nat)
    requires n <= |figures|
    ensures |FigureRegions(figures, used, n)| == |Leftover(used, n)|
    ensures forall k | 0 <= k < |Leftover(used, n)| ::
              0 <= Leftover(used, n)[k] < n &&
              FigureRegions(figures, used, n)[k] == FigureRegion(figures[Leftover(used, n)[k]])
  {
    if n > 0 { LeftoverShown(figures, used, n - 1); }
  }

  lemma {:induction false} BoxRegionAt(figures: seq<Placed>, boxes: seq<Box>, minimum: real, n: nat, k: nat)
    requires k < n <= |boxes|
    ensures BoxRegions(figures, boxes, minimum, n)[k] ==
            BoxRegion(figures, boxes[k], Best(boxes[k], figures, Used(Match(figures, boxes, minimum, k)), |figures|),
                      minimum)
  {
    if k < n - 1 { BoxRegionAt(figures, boxes, minimum, n - 1, k); }
  }

  predicate ShowsBox(r: Region, box: Box) { r.page == box.page && r.rect == box.rect && r.boxLabel == box.boxLabel }

  predicate ShowsFigureAlone(r: Region, f: Placed) {
    r.page == f.page && r.rect == f.rect && r.boxLabel == "other" && r.source == "xobject" && r.iou == 0.0
  }

  /** Region `k` is box `k`, and every region names the figure it shows. */
  lemma RegionsShow(figures: seq<Placed>, boxes: seq<Box>, minimum: real, k: nat)
    requires k < |Shown(figures, boxes, minimum)|
    ensures |Regions(figures, boxes, minimum)| == |Shown(figures, boxes, minimum)| >= |boxes|
    ensures var r, i := Regions(figures, boxes, minimum)[k], Shown(figures, boxes, minimum)[k];
            && -1 <= i < |figures|
            && r.figure == (if i == -1 then None else Some(figures[i].name))
            && (k < |boxes| ==> ShowsBox(r, boxes[k]) && r.source == (if i == -1 then boxes[k].source else "ensemble"))
            && (k < |boxes| && i != -1 ==> r.iou == Iou(boxes[k].rect, figures[i].rect))
            && (k >= |boxes| ==> i != -1 && ShowsFigureAlone(r, figures[i]))
  {
    LeftoverShown(figures, Used(Matches(figures, boxes, minimum)), |figures|);
    if k < |boxes| {
      var used, b := MatchAt(figures, boxes, minimum, k);
      MatchPrefix(figures, boxes, minimum, k, |boxes|);
      BoxRegionAt(figures, boxes, minimum, |boxes|, k);
    }
  }

  lemma {:induction false} LeftoverOnce(used: set<int>, n: nat, i: nat)
    ensures multiset(Leftover(used, n))[i] == (if i < n && i !in used then 1 else 0)
  {
    if n > 0 { LeftoverOnce(used, n - 1, i); }
  }

  lemma {:induction false} MatchOnce(figures: seq<Placed>, boxes: seq<Box>, minimum: real, n: nat, i: nat)
    requires n <= |boxes|
    ensures multiset(Match(figures, boxes, minimum, n))[i] ==
            (if i in Used(Match(figures, boxes, minimum, n)) then 1 else 0)
  {
    if n > 0 {
      var m := Match(figures, boxes, minimum, n - 1);
      MatchOnce(figures, boxes, minimum, n - 1, i);
      BestIsBest(boxes[n - 1], figures, Used(m), |figures|);
    }
  }

  /** Every figure is shown by exactly one region. */
  lemma EveryFigureOnce(figures: seq<Placed>, boxes: seq<Box>, minimum: real, i: nat)
    requires i < |figures|
    ensures multiset(Shown(figures, boxes, minimum))[i] == 1
  {
    var m := Matches(figures, boxes, minimum);
    MatchOnce(figures, boxes, minimum, |boxes|, i);
    LeftoverOnce(Used(m), |figures|, i);
  }

  // ---- overlap geometry ----

  lemma TimesMonotone(p: real, q: real, r: real, s: real)
    requires 0.0 <= p <= q && 0.0 <= r <= s
    ensures 0.0 <= Times(p, r) <= Times(q, s)
  {
    assert Times(p, r) >= 0.0 && (q - p) * r >= 0.0 && q * (s - r) >= 0.0;
    assert q * r == p * r + (q - p) * r;
    assert q * s == q * r + q * (s - r);
  }

  lemma CommonIsSmaller(l: Rect, r: Rect)
    requires !Degenerate(Common(l, r))
    ensures 0.0 < Area(Common(l, r)) <= Area(l) && Area(Common(l, r)) <= Area(r)
  {
    var c := Common(l, r);
    TimesMonotone(c.x1 - c.x0, l.x1 - l.x0, c.y1 - c.y0, l.y1 - l.y0);
    TimesMonotone(c.x1 - c.x0, r.x1 - r.x0, c.y1 - c.y0, r.y1 - r.y0);
    assert (c.x1 - c.x0) * (c.y1 - c.y0) > 0.0;
  }

  lemma IouInUnit(l: Rect, r: Rect)
    ensures 0.0 <= Iou(l, r) <= 1.0
    ensures Iou(l, r) > 0.0 <==> !Degenerate(Common(l, r))
  {
    if !Degenerate(Common(l, r)) {
      CommonIsSmaller(l, r);
    }
  }

  /** At least half means that the common part is at least half of the figure, and over half that it is over half. */
  lemma OverHalf(l: Rect, r: Rect)
    requires Iou(l, r) >= 0.5
    ensures !Degenerate(Common(l, r)) && 2.0 * Area(Common(l, r)) >= Area(r)
    ensures Iou(l, r) > 0.5 ==> 2.0 * Area(Common(l, r)) > Area(r)
  {
    CommonIsSmaller(l, r);
    RatioOverHalf(Area(Common(l, r)), Area(l) + Area(r) - Area(Common(l, r)));
  }

  lemma RatioOverHalf(p: real, q: real)
    requires q > 0.0
    ensures p / q >= 0.5 ==> 2.0 * p >= q
    ensures p / q > 0.5 ==> 2.0 * p > q
  {
    assert p == (p / q) * q;
  }

  /** Two strips side by side in a box of size `w` by `h`. */
  lemma StripsFit(w1: real, h1: real, w2: real, h2: real, w: real, h: real)
    requires 0.0 <= w1 && 0.0 <= w2 && w1 + w2 <= w && 0.0 <= h1 <= h && 0.0 <= h2 <= h
    ensures Times(w1, h1) + Times(w2, h2) <= Times(w, h)
  {
    TimesMonotone(w1, w1, h1, h);
    TimesMonotone(w2, w2, h2, h);
    TimesMonotone(w1 + w2, w, h, h);
    assert (w1 + w2) * h == w1 * h + w2 * h;
  }

  /** Boxes that do not overlap share the figure's area between them. */
  lemma DisjointShareArea(l1: Rect, l2: Rect, r: Rect)
    requires Degenerate(Common(l1, l2)) && !Degenerate(Common(l1, r)) && !Degenerate(Common(l2, r))
    ensures Area(Common(l1, r)) + Area(Common(l2, r)) <= Area(r)
  {
    var c1, c2 := Common(l1, r), Common(l2, r);
    var w1, h1, w2, h2, w, h := c1.x1 - c1.x0, c1.y1 - c1.y0, c2.x1 - c2.x0, c2.y1 - c2.y0, r.x1 - r.x0, r.y1 - r.y0;
    if w1 + w2 <= w {
      StripsFit(w1, h1, w2, h2, w, h);
    } else {
      assert h1 + h2 <= h;
      StripsFit(h1, w1, h2, w2, h, w);
    }
  }

  predicate Apart(a: Box, b: Box) { a.page == b.page ==> Degenerate(Common(a.rect, b.rect)) }

  /** A figure that clears a threshold of at least one half with two disjoint boxes is cut in half by them. */
  lemma BothClear(a: Box, b: Box, f: Placed, minimum: real)
    requires minimum >= 0.5 && Apart(a, b) && Clears(a, f, minimum) && Clears(b, f, minimum)
    ensures minimum == Iou(a.rect, f.rect) == Iou(b.rect, f.rect) == 0.5
  {
    OverHalf(a.rect, f.rect);
    OverHalf(b.rect, f.rect);
    DisjointShareArea(a.rect, b.rect, f.rect);
  }

  /** With a threshold over one half, a figure clears it with at most one of two disjoint boxes. */
  lemma ClearsWithOne(a: Box, b: Box, f: Placed, minimum: real)
    requires minimum > 0.5 && Apart(a, b)
    ensures !(Clears(a, f, minimum) && Clears(b, f, minimum))
  {
    if Clears(a, f, minimum) && Clears(b, f, minimum) { BothClear(a, b, f, minimum); }
  }

  // ---- the overlap as a share of the union ----

  /** The point lies in the box. Boxes own their left and upper edges only: boxes side by side share no point. */
  predicate In(box: Rect, x: real, y: real) { box.x0 <= x < box.x1 && box.y0 <= y < box.y1 }

  /** What is left of `r` without `l`: the strips to the left and right of the common part, above it and below it. */
  function Outside(l: Rect, r: Rect): (strips: seq<Rect>)
    ensures |strips| == 4
  {
    var c := Common(l, r);
    [Rect(r.x0, r.y0, c.x0, r.y1), Rect(c.x1, r.y0, r.x1, r.y1),
     Rect(c.x0, r.y0, c.x1, c.y0), Rect(c.x0, c.y1, c.x1, r.y1)]
  }

  /** The common part holds the points of both boxes, and the strips those of `r` only, each point once. */
  lemma OutsideTiles(l: Rect, r: Rect, x: real, y: real)
    requires !Degenerate(Common(l, r))
    ensures In(Common(l, r), x, y) <==> In(l, x, y) && In(r, x, y)
    ensures (exists k | 0 <= k < 4 :: In(Outside(l, r)[k], x, y)) <==> In(r, x, y) && !In(l, x, y)
    ensures forall j, k | 0 <= j < k < 4 :: !(In(Outside(l, r)[j], x, y) && In(Outside(l, r)[k], x, y))
  {
    var o, c := Outside(l, r), Common(l, r);
    assert c.x0 >= l.x0 && c.x0 >= r.x0 && c.x1 <= l.x1 && c.x1 <= r.x1;
    assert c.y0 >= l.y0 && c.y0 >= r.y0 && c.y1 <= l.y1 && c.y1 <= r.y1;
    if In(r, x, y) && !In(l, x, y) {
      assert In(o[0], x, y) || In(o[1], x, y) || In(o[2], x, y) || In(o[3], x, y);
    }
  }

  /** The area of the points in either box. */
  function UnionArea(l: Rect, r: Rect): real {
    var o := Outside(l, r);
    Area(l) + (Area(o[0]) + Area(o[1]) + Area(o[2]) + Area(o[3]))
  }

  lemma CutInThree(a: real, b: real, c: real, d: real, h: real)
    ensures Times(d - a, h) == Times(b - a, h) + Times(c - b, h) + Times(d - c, h)
    ensures Times(h, d - a) == Times(h, b - a) + Times(h, c - b) + Times(h, d - c)
  {
  }

  lemma OutsideArea(l: Rect, r: Rect)
    ensures UnionArea(l, r) == Area(l) + Area(r) - Area(Common(l, r))
  {
    var c := Common(l, r);
    CutInThree(r.x0, c.x0, c.x1, r.x1, r.y1 - r.y0);
    CutInThree(r.y0, c.y0, c.y1, r.y1, c.x1 - c.x0);
  }

  /** The overlap is the share that the common part has of the union. */
  lemma IouIsShare(l: Rect, r: Rect)
    ensures Degenerate(Common(l, r)) ==> Iou(l, r) == 0.0
    ensures !Degenerate(Common(l, r)) ==> UnionArea(l, r) > 0.0 && Iou(l, r) * UnionArea(l, r) == Area(Common(l, r))
  {
    OutsideArea(l, r);
    if !Degenerate(Common(l, r)) { CommonIsSmaller(l, r); }
  }

  /** The box and the figure overlap by at least this share of their union. */
  predicate Shares(box: Box, f: Placed, minimum: real) {
    && f.page == box.page && !Degenerate(Common(box.rect, f.rect))
    && Area(Common(box.rect, f.rect)) >= minimum * UnionArea(box.rect, f.rect)
  }

  lemma ShareCompares(iou: real, union: real, common: real, minimum: real)
    requires union > 0.0 && iou * union == common
    ensures iou >= minimum <==> common >= minimum * union
  {
    assert (iou - minimum) * union == common - minimum * union;
    if iou < minimum { assert (minimum - iou) * union > 0.0; }
  }

  lemma ClearsExactly(box: Box, f: Placed, minimum: real)
    requires minimum > 0.0
    ensures Clears(box, f, minimum) <==> Shares(box, f, minimum)
  {
    var l, r := box.rect, f.rect;
    IouIsShare(l, r);
    if !Degenerate(Common(l, r)) { ShareCompares(Iou(l, r), UnionArea(l, r), Area(Common(l, r)), minimum); }
  }

  /** A box takes only a figure that it shares enough with, and none only if all such figures had gone before. */
  ghost predicate MatchedByShare(figures: seq<Placed>, boxes: seq<Box>, minimum: real, k: nat)
    requires k < |boxes|
  {
    var m := Matches(figures, boxes, minimum);
    && (m[k] == -1 <==> forall i | 0 <= i < |figures| && Shares(boxes[k], figures[i], minimum) :: i in m[..k])
    && (m[k] != -1 ==> 0 <= m[k] < |figures| && Shares(boxes[k], figures[m[k]], minimum) && m[k] !in m[..k])
  }

  lemma MatchedExactly(figures: seq<Placed>, boxes: seq<Box>, minimum: real, k: nat)
    requires 0.0 < minimum && k < |boxes|
    ensures MatchedByShare(figures, boxes, minimum, k)
  {
    var m := Matches(figures, boxes, minimum);
    MatchesAreSound(figures, boxes, minimum, k);
    forall i | 0 <= i < |figures|
      ensures Clears(boxes[k], figures[i], minimum) <==> Shares(boxes[k], figures[i], minimum)
    {
      ClearsExactly(boxes[k], figures[i], minimum);
    }
    if m[k] == -1 {
      forall i | 0 <= i < |figures| && Shares(boxes[k], figures[i], minimum) ensures i in m[..k] {
        MatchesAreMaximal(figures, boxes, minimum, k, i);
      }
    }
  }

  lemma AssociatedByShare(figures: seq<Placed>, boxes: seq<Box>, minimum: real)
    requires 0.0 < minimum
    ensures var r := Regions(figures, boxes, minimum);
            |r| >= |boxes| && forall k | 0 <= k < |boxes| ::
              && (r[k].figure.Some? <==> Matches(figures, boxes, minimum)[k] != -1)
              && MatchedByShare(figures, boxes, minimum, k)
  {
    forall k | 0 <= k < |boxes|
      ensures Regions(figures, boxes, minimum)[k].figure.Some? <==> Matches(figures, boxes, minimum)[k] != -1
      ensures MatchedByShare(figures, boxes, minimum, k)
    {
      RegionsShow(figures, boxes, minimum, k);
      MatchedExactly(figures, boxes, minimum, k);
    }
  }
}
