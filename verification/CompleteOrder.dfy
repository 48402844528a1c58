/** The complete ranking the full-corpus evaluation builds from one query result. */
module CompleteOrder {
  import opened Prelude
  import opened Ordering
  import opened TextOrder
  import opened HybridQuery
  import L = RankingLoaders

  /** The hits, then every prefiltered region that was not rescored into a hit. */
  function Complete(hits: seq<RegionId>, prefiltered: seq<RegionId>): seq<RegionId> {
    hits + Filter(prefiltered, id => id !in hits)
  }

  /** Rank `r` of `n` gets the score `n - r`. */
  function Scored(order: seq<RegionId>): seq<L.Candidate> {
    seq(|order|, r requires 0 <= r < |order| => L.Candidate(order[r], (|order| - r) as real))
  }

  lemma CompleteShape(hits: seq<RegionId>, prefiltered: seq<RegionId>)
    requires Distinct(hits) && Distinct(prefiltered) && forall h | h in hits :: h in prefiltered
    ensures Distinct(Complete(hits, prefiltered))
    ensures forall id :: id in Complete(hits, prefiltered) <==> id in prefiltered
  {
    var p := (id: RegionId) => id !in hits;
    FilterDistinct(prefiltered, p);
    forall id
      ensures id in Filter(prefiltered, p) <==> id in prefiltered && id !in hits
    {
      FilterMember(prefiltered, p, id);
    }
    ConcatDistinct(hits, Filter(prefiltered, p));
  }

  /** Descending whole scores on distinct regions pass the loader for exactly the set of regions ranked. */
  lemma ScoredIsFullRanking(order: seq<RegionId>, expected: set<RegionId>)
    requires Distinct(order)
    ensures L.FullRanking(expected, Scored(order)) <==> Elements(order) == expected
  {
    var raw := Scored(order);
    forall id ensures id in L.Ids(raw) <==> id in order {
      if id in order {
        var r :| 0 <= r < |order| && order[r] == id;
        assert raw[r] in raw && raw[r].id == id;
      }
    }
    assert L.Ids(raw) == Elements(order);
  }

  /**
   * The loader accepts the complete order of a query exactly when the fusion kept every
   * region of the retrieval pack, and then the order is a permutation of the retrieval pack.
   */
  lemma CompleteOrderAccepted(ids: seq<RegionId>, kind: RegionId -> RegionKind, routed: set<RegionKind>, s: Scores,
                              b: Bounds)
    requires Distinct(ids) && BoundsOk(b, |ids|)
    ensures var order := Complete(Hits(ids, kind, routed, s, b), Prefiltered(ids, kind, routed, s, b));
            && (L.FullRanking(Elements(ids), Scored(order)) <==> |FusedIds(CutOrders(ids, s, b))| == |ids|)
            && (|FusedIds(CutOrders(ids, s, b))| == |ids| ==> multiset(order) == multiset(ids))
  {
    var fused := FusedIds(CutOrders(ids, s, b));
    var pre := Prefiltered(ids, kind, routed, s, b);
    var hits := Hits(ids, kind, routed, s, b);
    FusedShape(ids, s, b);
    RankShape(fused, Boosted(Rrf(CutOrders(ids, s, b), b.rrfK), kind, routed));
    HitsAreBest(ids, kind, routed, s, b);
    forall h | h in hits ensures h in pre { assert h in Take(pre, b.maxsimK); }
    CompleteShape(hits, pre);
    var order := Complete(hits, pre);
    ScoredIsFullRanking(order, Elements(ids));
    assert Elements(order) == Elements(fused) by {
      assert forall id :: id in order <==> id in fused;
    }
    ElementsSize(fused);
    ElementsSize(ids);
    if |fused| == |ids| {
      DistinctFitsIn(fused, Elements(ids));
      assert Elements(fused) == Elements(ids);
      SameElements(order, ids);
    }
  }

  lemma FilterPrecedes(s: seq<RegionId>, keep: RegionId -> bool, x: RegionId, y: RegionId)
    requires keep(x) && keep(y) && Precedes(s, x, y)
    ensures Precedes(Filter(s, keep), x, y)
  {
    var i, j :| 0 <= i < j < |s| && s[i] == x && s[j] == y;
    var before, after := s[..j], s[j..];
    assert s == before + after && before[i] == x && after[0] == y;
    FilterConcat(before, after, keep);
    FilterMember(before, keep, x);
    FilterMember(after, keep, y);
    OneBehindTheOther(Filter(before, keep), Filter(after, keep), x, y);
  }

  lemma OneBehindTheOther(before: seq<RegionId>, after: seq<RegionId>, x: RegionId, y: RegionId)
    requires x in before && y in after
    ensures Precedes(before + after, x, y)
  {
    var m :| 0 <= m < |before| && before[m] == x;
    var n :| 0 <= n < |after| && after[n] == y;
    assert (before + after)[m] == x && (before + after)[|before| + n] == y;
  }

  /** The hits come first, in their order, then all others in the order of the prefilter, scored n, n - 1, ..., 1. */
  lemma CompleteInOrder(ids: seq<RegionId>, kind: RegionId -> RegionKind, routed: set<RegionKind>, s: Scores, b: Bounds)
    requires Distinct(ids) && BoundsOk(b, |ids|)
    ensures var hits, pre := Hits(ids, kind, routed, s, b), Prefiltered(ids, kind, routed, s, b);
            var order := Complete(hits, pre);
            && |hits| == b.limit <= |order| && order[..b.limit] == hits
            && (forall x, y | x !in hits && y !in hits && Precedes(pre, x, y) :: Precedes(order[b.limit..], x, y))
            && (forall c | c in Scored(order) :: 1.0 <= c.score <= |order| as real)
            && (forall r | 0 < r < |order| :: Scored(order)[r].score == Scored(order)[r - 1].score - 1.0)
  {
    var hits, pre := Hits(ids, kind, routed, s, b), Prefiltered(ids, kind, routed, s, b);
    var order := Complete(hits, pre);
    HitsAreBest(ids, kind, routed, s, b);
    assert order[b.limit..] == Filter(pre, id => id !in hits);
    forall x, y | x !in hits && y !in hits && Precedes(pre, x, y) ensures Precedes(order[b.limit..], x, y) {
      FilterPrecedes(pre, id => id !in hits, x, y);
    }
  }

  lemma SameElements(s: seq<RegionId>, t: seq<RegionId>)
    requires Distinct(s) && Distinct(t) && Elements(s) == Elements(t)
    ensures multiset(s) == multiset(t)
  {
    DistinctIsOnce(s);
    DistinctIsOnce(t);
    forall x ensures multiset(s)[x] == multiset(t)[x] {
      assert x in multiset(s) <==> x in Elements(s);
      assert x in multiset(t) <==> x in Elements(t);
    }
  }

  /** The evaluation asks for `top_n` equal to the pack size, so its ranking is always accepted. */
  lemma EvaluationOrderAccepted(ids: seq<RegionId>, kind: RegionId -> RegionKind, routed: set<RegionKind>, s: Scores,
                                b: Bounds)
    requires Distinct(ids) && BoundsOk(b, |ids|) && b.topN == |ids|
    ensures var order := Complete(Hits(ids, kind, routed, s, b), Prefiltered(ids, kind, routed, s, b));
            multiset(order) == multiset(ids) && L.FullRanking(Elements(ids), Scored(order))
  {
    FusedShape(ids, s, b);
    CompleteOrderAccepted(ids, kind, routed, s, b);
  }
}
