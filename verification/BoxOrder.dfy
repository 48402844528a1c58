module BoxOrder {
  // When the greedy matching depends on the order of the boxes, for every threshold.

  import opened FigureAssociation
  import opened Ordering
  import opened Prelude
  import opened Rects

  // ---- what boxes want ----

  /** The figures that `n` copies of a box would take if there were no other box, one after the other. */
  function Solo(figures: seq<Placed>, box: Box, minimum: real, n: nat): (s: seq<int>)
    ensures |s| == n
  {
    if n == 0 then []
    else
      var s := Solo(figures, box, minimum, n - 1);
      s + [Choice(Best(box, figures, Used(s), |figures|), minimum)]
  }

  /** The figure a box would take if it were the only box. */
  function Alone(figures: seq<Placed>, box: Box, minimum: real): int {
    Choice(Best(box, figures, {}, |figures|), minimum)
  }

  /** All figures that the copies of a box in `boxes` would take. */
  function Wanted(figures: seq<Placed>, boxes: seq<Box>, minimum: real, box: Box): set<int> {
    Used(Solo(figures, box, minimum, multiset(boxes)[box]))
  }

  /** No two different boxes want the same figure. */
  ghost predicate NoRivals(figures: seq<Placed>, boxes: seq<Box>, minimum: real) {
    forall a, b | a in boxes && b in boxes && a != b ::
      Wanted(figures, boxes, minimum, a) !! Wanted(figures, boxes, minimum, b)
  }

  lemma {:induction false} SoloPrefix(figures: seq<Placed>, box: Box, minimum: real, k: nat, n: nat)
    requires k <= n
    ensures Solo(figures, box, minimum, k) == Solo(figures, box, minimum, n)[..k]
  {
    if k < n { SoloPrefix(figures, box, minimum, k, n - 1); }
  }

  /** Taking away figures that a box does not choose does not change its choice. */
  lemma SameChoice(figures: seq<Placed>, box: Box, minimum: real, used: set<int>, more: set<int>)
    requires used <= more && Choice(Best(box, figures, used, |figures|), minimum) !in more - {-1}
    ensures Choice(Best(box, figures, more, |figures|), minimum) == Choice(Best(box, figures, used, |figures|), minimum)
  {
    var b, c := Best(box, figures, used, |figures|), Best(box, figures, more, |figures|);
    BestIsBest(box, figures, used, |figures|);
    BestIsBest(box, figures, more, |figures|);
    if b.0 >= 0 && b.1 >= minimum {
      assert IsBest(box, figures, more, |figures|, b);
    } else if c.0 >= 0 {
      assert Eligible(box, figures, used, c.0);
    }
  }

  /** How many copies of box `k` come before it. */
  function Earlier(boxes: seq<Box>, k: nat): nat
    requires k < |boxes|
  {
    multiset(boxes[..k])[boxes[k]]
  }

  lemma CopiesGrow(boxes: seq<Box>, k: nat, box: Box)
    requires k < |boxes|
    ensures multiset(boxes[..k + 1])[box] == multiset(boxes[..k])[box] + (if boxes[k] == box then 1 else 0)
  {
    assert boxes[..k + 1] == boxes[..k] + [boxes[k]];
  }

  lemma {:induction false} CopiesMonotone(boxes: seq<Box>, k: nat, n: nat, box: Box)
    requires k <= n <= |boxes|
    ensures multiset(boxes[..k])[box] <= multiset(boxes[..n])[box]
  {
    if k < n {
      CopiesMonotone(boxes, k, n - 1, box);
      CopiesGrow(boxes, n - 1, box);
    }
  }

  lemma EarlierIsLess(boxes: seq<Box>, k: nat, n: nat)
    requires k < n <= |boxes|
    ensures Earlier(boxes, k) < multiset(boxes[..n])[boxes[k]]
  {
    CopiesGrow(boxes, k, boxes[k]);
    CopiesMonotone(boxes, k + 1, n, boxes[k]);
  }

  lemma {:induction false} CopyAt(boxes: seq<Box>, n: nat, box: Box, t: nat) returns (p: nat)
    requires n <= |boxes| && t < multiset(boxes[..n])[box]
    ensures p < n && boxes[p] == box && Earlier(boxes, p) == t
  {
    CopiesGrow(boxes, n - 1, box);
    if t < multiset(boxes[..n - 1])[box] { p := CopyAt(boxes, n - 1, box, t); } else { p := n - 1; }
  }

  /** What copy `t` of a box takes when it has no rivals. */
  function Own(figures: seq<Placed>, boxes: seq<Box>, minimum: real, k: nat): int
    requires k < |boxes|
  {
    Solo(figures, boxes[k], minimum, Earlier(boxes, k) + 1)[Earlier(boxes, k)]
  }

  lemma OwnIsWanted(figures: seq<Placed>, boxes: seq<Box>, minimum: real, k: nat)
    requires k < |boxes|
    ensures Own(figures, boxes, minimum, k) >= 0 ==>
            Own(figures, boxes, minimum, k) in Wanted(figures, boxes, minimum, boxes[k])
  {
    EarlierIsLess(boxes, k, |boxes|);
    assert boxes[..|boxes|] == boxes;
    var n := multiset(boxes)[boxes[k]];
    SoloPrefix(figures, boxes[k], minimum, Earlier(boxes, k) + 1, n);
    assert Solo(figures, boxes[k], minimum, n)[Earlier(boxes, k)] == Own(figures, boxes, minimum, k);
  }

  lemma {:induction false} OwnChoices(figures: seq<Placed>, boxes: seq<Box>, minimum: real, n: nat)
    requires n <= |boxes| && NoRivals(figures, boxes, minimum)
    ensures forall k | 0 <= k < n :: Match(figures, boxes, minimum, n)[k] == Own(figures, boxes, minimum, k)
  {
    if n > 0 {
      OwnChoices(figures, boxes, minimum, n - 1);
      OwnChoice(figures, boxes, minimum, n - 1);
    }
  }

  lemma OwnChoice(figures: seq<Placed>, boxes: seq<Box>, minimum: real, k: nat)
    requires k < |boxes| && NoRivals(figures, boxes, minimum)
    requires forall j | 0 <= j < k :: Match(figures, boxes, minimum, k)[j] == Own(figures, boxes, minimum, j)
    ensures Match(figures, boxes, minimum, k + 1)[k] == Own(figures, boxes, minimum, k)
  {
    var m, s := Match(figures, boxes, minimum, k), Solo(figures, boxes[k], minimum, Earlier(boxes, k));
    OwnCopiesUsed(figures, boxes, minimum, k);
    if Own(figures, boxes, minimum, k) >= 0 { OwnIsFree(figures, boxes, minimum, k); }
    SameChoice(figures, boxes[k], minimum, Used(s), Used(m));
  }

  /** Earlier copies of a box have taken what copies of it take without rivals. */
  lemma OwnCopiesUsed(figures: seq<Placed>, boxes: seq<Box>, minimum: real, k: nat)
    requires k < |boxes|
    requires forall j | 0 <= j < k :: Match(figures, boxes, minimum, k)[j] == Own(figures, boxes, minimum, j)
    ensures Used(Solo(figures, boxes[k], minimum, Earlier(boxes, k))) <= Used(Match(figures, boxes, minimum, k))
  {
    var m, s := Match(figures, boxes, minimum, k), Solo(figures, boxes[k], minimum, Earlier(boxes, k));
    forall i | i in Used(s) ensures i in Used(m) {
      var t :| 0 <= t < |s| && s[t] == i;
      var p := CopyAt(boxes, k, boxes[k], t);
      SoloPrefix(figures, boxes[k], minimum, t + 1, Earlier(boxes, k));
      assert m[p] == i;
    }
  }

  /** Nothing that came before has taken the figure a box without rivals wants next. */
  lemma OwnIsFree(figures: seq<Placed>, boxes: seq<Box>, minimum: real, k: nat)
    requires k < |boxes| && NoRivals(figures, boxes, minimum) && Own(figures, boxes, minimum, k) >= 0
    requires forall j | 0 <= j < k :: Match(figures, boxes, minimum, k)[j] == Own(figures, boxes, minimum, j)
    ensures Own(figures, boxes, minimum, k) !in Used(Match(figures, boxes, minimum, k))
  {
    var i, s := Own(figures, boxes, minimum, k), Solo(figures, boxes[k], minimum, Earlier(boxes, k));
    BestIsBest(boxes[k], figures, Used(s), |figures|);
    OwnIsWanted(figures, boxes, minimum, k);
    forall j | 0 <= j < k ensures Own(figures, boxes, minimum, j) != i {
      OwnIsWanted(figures, boxes, minimum, j);
      if boxes[j] == boxes[k] {
        EarlierIsLess(boxes, j, k);
        SoloPrefix(figures, boxes[k], minimum, Earlier(boxes, j) + 1, Earlier(boxes, k));
        assert s[Earlier(boxes, j)] == Own(figures, boxes, minimum, j);
      } else {
        assert boxes[j] in boxes && boxes[k] in boxes;
      }
    }
  }

  /** Boxes without rivals do not compete: each copy of a box gets what it would get without the other boxes. */
  lemma NoCompetition(figures: seq<Placed>, boxes: seq<Box>, minimum: real, k: nat)
    requires k < |boxes| && NoRivals(figures, boxes, minimum)
    ensures Matches(figures, boxes, minimum)[k] == Own(figures, boxes, minimum, k)
    ensures boxes[k] !in boxes[..k] ==> Matches(figures, boxes, minimum)[k] == Alone(figures, boxes[k], minimum)
  {
    OwnChoices(figures, boxes, minimum, |boxes|);
    if boxes[k] !in boxes[..k] { SoloOnce(figures, boxes[k], minimum); }
  }

  lemma SoloOnce(figures: seq<Placed>, box: Box, minimum: real)
    ensures Solo(figures, box, minimum, 1) == [Alone(figures, box, minimum)]
    ensures Used(Solo(figures, box, minimum, 1)) ==
            if Alone(figures, box, minimum) >= 0 then {Alone(figures, box, minimum)} else {}
  {
    assert Solo(figures, box, minimum, 0) == [] && Used([]) == {};
    assert Solo(figures, box, minimum, 1) == [] + [Alone(figures, box, minimum)];
  }

  /** Which box takes which figure, as a set. */
  function Pairs(figures: seq<Placed>, boxes: seq<Box>, minimum: real): set<(Box, int)> {
    var m := Matches(figures, boxes, minimum);
    set k | 0 <= k < |boxes| && m[k] != -1 :: (boxes[k], m[k])
  }

  lemma MatchesNotBelow(figures: seq<Placed>, boxes: seq<Box>, minimum: real)
    ensures forall k | 0 <= k < |boxes| :: Matches(figures, boxes, minimum)[k] >= -1
  {
    forall k | 0 <= k < |boxes| ensures Matches(figures, boxes, minimum)[k] >= -1 {
      MatchesAreSound(figures, boxes, minimum, k);
    }
  }

  lemma PairIsWanted(figures: seq<Placed>, boxes: seq<Box>, minimum: real, box: Box, i: int)
    requires NoRivals(figures, boxes, minimum) && (box, i) in Pairs(figures, boxes, minimum)
    ensures box in boxes && i in Wanted(figures, boxes, minimum, box)
  {
    var m := Matches(figures, boxes, minimum);
    var k :| 0 <= k < |boxes| && m[k] != -1 && (box, i) == (boxes[k], m[k]);
    OwnChoices(figures, boxes, minimum, |boxes|);
    MatchesNotBelow(figures, boxes, minimum);
    OwnIsWanted(figures, boxes, minimum, k);
  }

  lemma WantedIsPair(figures: seq<Placed>, boxes: seq<Box>, minimum: real, box: Box, i: int)
    requires NoRivals(figures, boxes, minimum) && i in Wanted(figures, boxes, minimum, box)
    ensures (box, i) in Pairs(figures, boxes, minimum)
  {
    var p := WantedAt(figures, boxes, minimum, box, i);
    OwnChoices(figures, boxes, minimum, |boxes|);
    assert Matches(figures, boxes, minimum)[p] == i;
  }

  /** Where the copy is that takes the figure. */
  lemma WantedAt(figures: seq<Placed>, boxes: seq<Box>, minimum: real, box: Box, i: int) returns (p: nat)
    requires i in Wanted(figures, boxes, minimum, box)
    ensures i >= 0 && p < |boxes| && boxes[p] == box && Own(figures, boxes, minimum, p) == i
  {
    var s := Solo(figures, box, minimum, multiset(boxes)[box]);
    var t :| 0 <= t < |s| && s[t] == i;
    assert boxes[..|boxes|] == boxes;
    p := CopyAt(boxes, |boxes|, box, t);
    SoloPrefix(figures, box, minimum, t + 1, |s|);
  }

  /** Without rivals, the pairs are every box with every figure it wants. */
  lemma PairsAreWanted(figures: seq<Placed>, boxes: seq<Box>, minimum: real, box: Box, i: int)
    requires NoRivals(figures, boxes, minimum)
    ensures (box, i) in Pairs(figures, boxes, minimum) <==> box in boxes && i in Wanted(figures, boxes, minimum, box)
  {
    if (box, i) in Pairs(figures, boxes, minimum) { PairIsWanted(figures, boxes, minimum, box, i); }
    if i in Wanted(figures, boxes, minimum, box) { WantedIsPair(figures, boxes, minimum, box, i); }
  }

  lemma UsedFromPairs(figures: seq<Placed>, boxes: seq<Box>, minimum: real)
    ensures Used(Matches(figures, boxes, minimum)) == set p | p in Pairs(figures, boxes, minimum) :: p.1
  {
    var m := Matches(figures, boxes, minimum);
    MatchesNotBelow(figures, boxes, minimum);
    forall i | i in Used(m) ensures i in set p | p in Pairs(figures, boxes, minimum) :: p.1 {
      var k :| 0 <= k < |m| && m[k] == i;
      assert (boxes[k], m[k]) in Pairs(figures, boxes, minimum);
    }
  }

  lemma SameBoxes(boxes: seq<Box>, others: seq<Box>)
    requires multiset(boxes) == multiset(others)
    ensures forall box :: box in boxes <==> box in others
  {
    assert forall box :: box in boxes <==> box in multiset(boxes);
    assert forall box :: box in others <==> box in multiset(others);
  }

  lemma SameRivals(figures: seq<Placed>, boxes: seq<Box>, others: seq<Box>, minimum: real)
    requires NoRivals(figures, boxes, minimum) && multiset(boxes) == multiset(others)
    ensures NoRivals(figures, others, minimum) && forall box :: box in boxes <==> box in others
  {
    SameBoxes(boxes, others);
  }

  /** The matching and the leftover figures do not depend on the order of boxes without rivals. */
  lemma OrderDoesNotMatter(figures: seq<Placed>, boxes: seq<Box>, others: seq<Box>, minimum: real)
    requires NoRivals(figures, boxes, minimum) && multiset(boxes) == multiset(others)
    ensures Pairs(figures, boxes, minimum) == Pairs(figures, others, minimum)
    ensures FigureRegions(figures, Used(Matches(figures, boxes, minimum)), |figures|) ==
            FigureRegions(figures, Used(Matches(figures, others, minimum)), |figures|)
  {
    SameRivals(figures, boxes, others, minimum);
    forall box, i ensures (box, i) in Pairs(figures, boxes, minimum) <==> (box, i) in Pairs(figures, others, minimum) {
      PairsAreWanted(figures, boxes, minimum, box, i);
      PairsAreWanted(figures, others, minimum, box, i);
    }
    UsedFromPairs(figures, boxes, minimum);
    UsedFromPairs(figures, others, minimum);
  }

  /** The matching of these boxes with these figures is the same for every order of the boxes. */
  ghost predicate OrderFreeFor(figures: seq<Placed>, boxes: seq<Box>, minimum: real) {
    forall others | multiset(boxes) == multiset(others) ::
      Pairs(figures, boxes, minimum) == Pairs(figures, others, minimum)
  }

  /** The copies of `box` first, then the other boxes. */
  function Fronted(boxes: seq<Box>, box: Box): seq<Box> {
    seq(multiset(boxes)[box], _ => box) + Filter(boxes, (x: Box) => x != box)
  }

  lemma {:induction false} RepeatCount(n: nat, box: Box, x: Box)
    ensures multiset(seq(n, _ => box))[x] == (if x == box then n else 0)
  {
    if n > 0 {
      RepeatCount(n - 1, box, x);
      assert seq(n, _ => box) == seq(n - 1, _ => box) + [box];
    }
  }

  lemma {:induction false} OthersCount(boxes: seq<Box>, box: Box, x: Box)
    ensures multiset(Filter(boxes, (y: Box) => y != box))[x] == (if x == box then 0 else multiset(boxes)[x])
  {
    if boxes != [] {
      OthersCount(boxes[..|boxes| - 1], box, x);
      assert boxes == boxes[..|boxes| - 1] + [boxes[|boxes| - 1]];
    }
  }

  lemma FrontedPermutes(boxes: seq<Box>, box: Box)
    ensures multiset(Fronted(boxes, box)) == multiset(boxes)
  {
    forall x ensures multiset(Fronted(boxes, box))[x] == multiset(boxes)[x] {
      RepeatCount(multiset(boxes)[box], box, x);
      OthersCount(boxes, box, x);
    }
  }

  lemma {:induction false} FirstComesFirst(figures: seq<Placed>, boxes: seq<Box>, minimum: real, box: Box, n: nat)
    requires n <= |boxes| && forall k | 0 <= k < n :: boxes[k] == box
    ensures Match(figures, boxes, minimum, n) == Solo(figures, box, minimum, n)
  {
    if n > 0 { FirstComesFirst(figures, boxes, minimum, box, n - 1); }
  }

  /** Moved to the front, a box gets every figure it wants. */
  lemma FrontedGetsWanted(figures: seq<Placed>, boxes: seq<Box>, minimum: real, box: Box, i: int)
    requires i in Wanted(figures, boxes, minimum, box)
    ensures (box, i) in Pairs(figures, Fronted(boxes, box), minimum)
  {
    var n, fronted := multiset(boxes)[box], Fronted(boxes, box);
    FirstComesFirst(figures, fronted, minimum, box, n);
    MatchPrefix(figures, fronted, minimum, n, |fronted|);
    var t :| 0 <= t < n && Solo(figures, box, minimum, n)[t] == i;
    assert Matches(figures, fronted, minimum)[t] == i && fronted[t] == box;
  }

  /** For every threshold, boxes and figures: order does not matter exactly when no two boxes want one figure. */
  lemma OrderFreeForExactly(figures: seq<Placed>, boxes: seq<Box>, minimum: real)
    ensures OrderFreeFor(figures, boxes, minimum) <==> NoRivals(figures, boxes, minimum)
  {
    if NoRivals(figures, boxes, minimum) {
      forall others | multiset(boxes) == multiset(others)
        ensures Pairs(figures, boxes, minimum) == Pairs(figures, others, minimum)
      {
        OrderDoesNotMatter(figures, boxes, others, minimum);
      }
    }
    if OrderFreeFor(figures, boxes, minimum) {
      forall a, b, i | i in Wanted(figures, boxes, minimum, a) && i in Wanted(figures, boxes, minimum, b)
        ensures a == b
      {
        WantedIsTaken(figures, boxes, minimum, a, i);
        WantedIsTaken(figures, boxes, minimum, b, i);
        OneBoxAFigure(figures, boxes, minimum, a, b, i);
      }
    }
  }

  lemma WantedIsTaken(figures: seq<Placed>, boxes: seq<Box>, minimum: real, box: Box, i: int)
    requires OrderFreeFor(figures, boxes, minimum) && i in Wanted(figures, boxes, minimum, box)
    ensures (box, i) in Pairs(figures, boxes, minimum)
  {
    FrontedPermutes(boxes, box);
    FrontedGetsWanted(figures, boxes, minimum, box, i);
  }

  lemma MatchedOnce(figures: seq<Placed>, boxes: seq<Box>, minimum: real, j: nat, k: nat)
    requires j < k < |boxes| && Matches(figures, boxes, minimum)[j] != -1
    ensures Matches(figures, boxes, minimum)[j] != Matches(figures, boxes, minimum)[k]
  {
    MatchesAreSound(figures, boxes, minimum, k);
    assert Matches(figures, boxes, minimum)[..k][j] == Matches(figures, boxes, minimum)[j];
  }

  lemma OneBoxAFigure(figures: seq<Placed>, boxes: seq<Box>, minimum: real, a: Box, b: Box, i: int)
    requires (a, i) in Pairs(figures, boxes, minimum) && (b, i) in Pairs(figures, boxes, minimum)
    ensures a == b
  {
    var m := Matches(figures, boxes, minimum);
    var j :| 0 <= j < |boxes| && m[j] != -1 && (a, i) == (boxes[j], m[j]);
    var k :| 0 <= k < |boxes| && m[k] != -1 && (b, i) == (boxes[k], m[k]);
    if j < k { MatchedOnce(figures, boxes, minimum, j, k); }
    if k < j { MatchedOnce(figures, boxes, minimum, k, j); }
  }

  /** When no box is listed twice: exactly when the figures the boxes would take alone are all different. */
  lemma DistinctOrderFreeExactly(figures: seq<Placed>, boxes: seq<Box>, minimum: real)
    requires Distinct(boxes)
    ensures OrderFreeFor(figures, boxes, minimum) <==>
            forall j, k | 0 <= j < k < |boxes| && Alone(figures, boxes[j], minimum) != -1 ::
              Alone(figures, boxes[j], minimum) != Alone(figures, boxes[k], minimum)
  {
    OrderFreeForExactly(figures, boxes, minimum);
    forall k | 0 <= k < |boxes|
      ensures Wanted(figures, boxes, minimum, boxes[k]) ==
              if Alone(figures, boxes[k], minimum) != -1 then {Alone(figures, boxes[k], minimum)} else {}
    {
      DistinctIsOnce(boxes);
      assert boxes[k] in multiset(boxes);
      SoloOnce(figures, boxes[k], minimum);
    }
  }

  // ---- which thresholds never depend on the order of disjoint boxes ----

  ghost predicate PairwiseApart(boxes: seq<Box>) { forall j, k | 0 <= j < k < |boxes| :: Apart(boxes[j], boxes[k]) }

  lemma {:induction false} SoloClears(figures: seq<Placed>, box: Box, minimum: real, n: nat, i: int)
    requires i in Used(Solo(figures, box, minimum, n))
    ensures 0 <= i < |figures| && Clears(box, figures[i], minimum)
  {
    var s := Solo(figures, box, minimum, n - 1);
    if i in Used(s) {
      SoloClears(figures, box, minimum, n - 1, i);
    } else {
      BestIsBest(box, figures, Used(s), |figures|);
    }
  }

  /** From one half on, two disjoint boxes want the same figure only at one half, when each overlaps it by just that. */
  lemma RivalsAreHalves(figures: seq<Placed>, boxes: seq<Box>, minimum: real, a: Box, b: Box, i: int)
    requires minimum >= 0.5 && PairwiseApart(boxes) && a in boxes && b in boxes && a != b
    requires i in Wanted(figures, boxes, minimum, a) && i in Wanted(figures, boxes, minimum, b)
    ensures minimum == 0.5 && 0 <= i < |figures|
    ensures Iou(a.rect, figures[i].rect) == Iou(b.rect, figures[i].rect) == 0.5
  {
    ApartBoxes(boxes, a, b);
    SoloClears(figures, a, minimum, multiset(boxes)[a], i);
    SoloClears(figures, b, minimum, multiset(boxes)[b], i);
    BothClear(a, b, figures[i], minimum);
  }

  /** Over one half, disjoint boxes have no rivals. */
  lemma DisjointHaveNoRivals(figures: seq<Placed>, boxes: seq<Box>, minimum: real)
    requires minimum > 0.5 && PairwiseApart(boxes)
    ensures NoRivals(figures, boxes, minimum)
  {
    forall a, b, i | a in boxes && b in boxes && a != b && i in Wanted(figures, boxes, minimum, a)
      ensures i !in Wanted(figures, boxes, minimum, b)
    {
      if i in Wanted(figures, boxes, minimum, b) { RivalsAreHalves(figures, boxes, minimum, a, b, i); }
    }
  }

  /** Over one half, each of the disjoint boxes gets what it would get alone, even when a box is listed twice. */
  lemma DisjointGetTheirOwn(figures: seq<Placed>, boxes: seq<Box>, minimum: real, k: nat)
    requires minimum > 0.5 && k < |boxes| && PairwiseApart(boxes)
    ensures Matches(figures, boxes, minimum)[k] == Alone(figures, boxes[k], minimum)
  {
    var m := Matches(figures, boxes, minimum);
    var used, b := MatchAt(figures, boxes, minimum, k);
    var c := Best(boxes[k], figures, {}, |figures|);
    BestIsBest(boxes[k], figures, {}, |figures|);
    if c.0 >= 0 && c.1 >= minimum {
      if c.0 in used {
        var j :| 0 <= j < k && m[j] == c.0;
        MatchesAreSound(figures, boxes, minimum, j);
        ClearsWithOne(boxes[j], boxes[k], figures[c.0], minimum);
        assert false;
      }
    }
    SameChoice(figures, boxes[k], minimum, {}, used);
  }

  lemma ApartBoxes(boxes: seq<Box>, a: Box, b: Box)
    requires PairwiseApart(boxes) && a in boxes && b in boxes && a != b
    ensures Apart(a, b)
  {
    var x :| 0 <= x < |boxes| && boxes[x] == a;
    var y :| 0 <= y < |boxes| && boxes[y] == b;
    assert Apart(boxes[x], boxes[y]) || Apart(boxes[y], boxes[x]);
  }

  ghost predicate OrderFree(minimum: real) {
    forall figures, boxes | PairwiseApart(boxes) :: OrderFreeFor(figures, boxes, minimum)
  }

  /** Of the thresholds the source accepts, all but its default of one half are free of the order. */
  lemma OrderFreeExactly(minimum: real)
    requires 0.5 <= minimum <= 1.0
    ensures OrderFree(minimum) <==> minimum > 0.5
  {
    if minimum > 0.5 {
      forall figures, boxes | PairwiseApart(boxes) ensures OrderFreeFor(figures, boxes, minimum) {
        DisjointHaveNoRivals(figures, boxes, minimum);
        OrderFreeForExactly(figures, boxes, minimum);
      }
    } else {
      var f, a, b := HalvesExist();
      HalvesCompete(Placed(1, "Im1", f), Box(1, a, "figure", "layout"), Box(1, b, "figure", "layout"));
    }
  }

  /** The unit square with its left and its right half. */
  lemma HalvesExist() returns (f: Rect, a: Rect, b: Rect)
    ensures Common(a, f) == a && Common(b, f) == b && a != b
    ensures !Degenerate(a) && !Degenerate(b) && Degenerate(Common(a, b))
    ensures Area(a) == 0.5 && Area(b) == 0.5 && Area(f) == 1.0
  {
    f, a, b := Rect(0.0, 0.0, 1.0, 1.0), Rect(0.0, 0.0, 0.5, 1.0), Rect(0.5, 0.0, 1.0, 1.0);
  }

  /** A figure cut into two halves goes to whichever half comes first. */
  lemma HalvesCompete(f: Placed, a: Box, b: Box)
    requires a != b && a.page == b.page == f.page && Apart(a, b)
    requires Iou(a.rect, f.rect) == 0.5 && Iou(b.rect, f.rect) == 0.5
    ensures Pairs([f], [a, b], 0.5) == {(a, 0)} && Pairs([f], [b, a], 0.5) == {(b, 0)}
    ensures !OrderFree(0.5)
  {
    FirstHalfWins(f, a, b);
    FirstHalfWins(f, b, a);
    assert multiset([a, b]) == multiset([b, a]);
    assert (a, 0) in {(a, 0)} && (a, 0) !in {(b, 0)};
    assert !OrderFreeFor([f], [a, b], 0.5);
    assert PairwiseApart([a, b]);
  }

  lemma FirstHalfWins(f: Placed, a: Box, b: Box)
    requires a.page == b.page == f.page && Iou(a.rect, f.rect) == Iou(b.rect, f.rect) == 0.5
    ensures Matches([f], [a, b], 0.5) == [0, -1]
    ensures Pairs([f], [a, b], 0.5) == {(a, 0)}
  {
    var m := Match([f], [a, b], 0.5, 1);
    assert Match([f], [a, b], 0.5, 0) == [] && Used([]) == {};
    assert Best(a, [f], {}, 0) == (-1, 0.0);
    assert Best(a, [f], {}, 1) == (0, 0.5);
    assert Match([f], [a, b], 0.5, 0) + [0] == [0];
    assert m == [0];
    assert Best(b, [f], Used(m), 0) == (-1, 0.0);
    assert 0 in Used(m);
    assert Matches([f], [a, b], 0.5) == m + [-1];
  }
}
