/** The retrieval cascade: BM25 and dense orders, fusion, type bonus and MaxSim. */
module HybridQuery {
  // The two orders are cut to `top_n` and fused by reciprocal rank, boosted by routed type, cut to
  // `maxsim_k` and rescored by MaxSim.

  import opened Fractions
  import opened Prelude
  import opened Ordering
  import opened TextOrder
  import opened Texts

  type RegionId = string

  /** A region's type is `pinout`, `table` or `package`; two of the three are routed. */
  datatype RegionKind = Pinout | Table | Package

  /**
   * The scores a query gives each region. BM25, dense and MaxSim are arbitrary reals: the
   * MaxSim scorer is a parameter of `hybrid_query`.
   */
  datatype Scores = Scores(bm25: RegionId -> real, dense: RegionId -> real, maxsim: RegionId -> real)

  datatype Bounds = Bounds(topN: int, maxsimK: int, limit: int, rrfK: int)

  const MAX_TOP_N := 10_000
  const MAX_MAXSIM_K := 1_000
  const MAX_RRF_K := 10_000
  const TYPE_BONUS := 0.001

  const MAX_QUERY_BYTES := 8_192
  const MAX_QUERY_VECTORS := 512
  const MAX_COMPONENT := 1_000_000.0

  /** The query text with its length in UTF-8, and its dense and token vectors. */
  datatype Request = Request(text: Text, bytes: nat, dense: seq<real>, multi: seq<seq<real>>)

  predicate VectorOk(v: seq<real>, dimension: nat) {
    |v| == dimension && forall x | x in v :: -MAX_COMPONENT <= x <= MAX_COMPONENT
  }

  /** The checks `hybrid_query` makes on the query itself, for a pack with these dimensions. */
  predicate RequestOk(q: Request, dense: nat, multi: nat) {
    && HasText(q.text) && q.bytes <= MAX_QUERY_BYTES && VectorOk(q.dense, dense)
    && 1 <= |q.multi| <= MAX_QUERY_VECTORS && forall v | v in q.multi :: VectorOk(v, multi)
  }

  function Min(a: int, b: int): int { if a < b then a else b }

  /** The checks `hybrid_query` makes on its bounds. */
  predicate BoundsOk(b: Bounds, regions: nat) {
    && 1 <= b.topN <= Min(MAX_TOP_N, regions)
    && 1 <= b.maxsimK <= Min(MAX_MAXSIM_K, b.topN)
    && 1 <= b.limit <= b.maxsimK
    && 1 <= b.rrfK <= MAX_RRF_K
  }

  /** `1 / (rrf_k + rank)` for a region in the list, nothing for one outside it. */
  function Share(order: seq<RegionId>, id: RegionId, rrfK: int): real
    requires rrfK >= 1
  {
    if order == [] then 0.0
    else if order[|order| - 1] == id then 1.0 / ((rrfK + |order|) as real)
    else Share(order[..|order| - 1], id, rrfK)
  }

  /** The two truncated orders a query fuses. */
  datatype Orders = Orders(sparse: seq<RegionId>, dense: seq<RegionId>)

  function CutOrders(ids: seq<RegionId>, s: Scores, b: Bounds): Orders
    requires b.topN >= 0
  {
    Orders(Take(Rank(ids, s.bm25), b.topN), Take(Rank(ids, s.dense), b.topN))
  }

  function Rrf(o: Orders, rrfK: int): RegionId -> real
    requires rrfK >= 1
  {
    id => Share(o.sparse, id, rrfK) + Share(o.dense, id, rrfK)
  }

  /** The keys of the `fused` dictionary in the order they were first written. */
  function FusedIds(o: Orders): seq<RegionId> {
    o.sparse + Filter(o.dense, id => id !in o.sparse)
  }

  function Boosted(rrf: RegionId -> real, kind: RegionId -> RegionKind, routed: set<RegionKind>): RegionId -> real {
    id => rrf(id) + (if kind(id) in routed then TYPE_BONUS else 0.0)
  }

  function Prefiltered(ids: seq<RegionId>, kind: RegionId -> RegionKind, routed: set<RegionKind>, s: Scores, b: Bounds)
    : seq<RegionId>
    requires BoundsOk(b, |ids|)
  {
    var o := CutOrders(ids, s, b);
    Rank(FusedIds(o), Boosted(Rrf(o, b.rrfK), kind, routed))
  }

  function Hits(ids: seq<RegionId>, kind: RegionId -> RegionKind, routed: set<RegionKind>, s: Scores, b: Bounds)
    : seq<RegionId>
    requires BoundsOk(b, |ids|)
  {
    Take(Rank(Take(Prefiltered(ids, kind, routed, s, b), b.maxsimK), s.maxsim), b.limit)
  }

  datatype HybridResult = HybridResult(considered: nat, evaluated: nat, prefiltered: seq<RegionId>, hits: seq<RegionId>)

  datatype HybridError = BadRequest | BadBounds | NotFinite

  /** One pass of the fusion loop over one order: `fused[id] = fused.get(id, 0.0) + 1 / (rrf_k + rank)`. */
  method FuseOrder(order: seq<RegionId>, rrfK: int, before: map<RegionId, real>) returns (fused: map<RegionId, real>)
    requires Distinct(order) && rrfK >= 1
    ensures fused.Keys == before.Keys + Elements(order)
    ensures forall id | id in fused :: fused[id] == (if id in before then before[id] else 0.0) + Share(order, id, rrfK)
  {
    fused := before;
    var rank := 0;
    while rank < |order|
      invariant 0 <= rank <= |order|
      invariant fused.Keys == before.Keys + Elements(order[..rank])
      invariant forall id | id in fused ::
        fused[id] == (if id in before then before[id] else 0.0) + Share(order[..rank], id, rrfK)
    {
      var id := order[rank];
      assert order[..rank + 1][..rank] == order[..rank];
      AbsentShare(order[..rank], id, rrfK);
      ghost var earlier := fused;
      fused := fused[id := (if id in fused then fused[id] else 0.0) + 1.0 / ((rrfK + (rank + 1)) as real)];
      forall other | other in fused
        ensures fused[other] == (if other in before then before[other] else 0.0) + Share(order[..rank + 1], other, rrfK)
      {
        if other != id { assert other in earlier; }
      }
      rank := rank + 1;
    }
    assert order[..|order|] == order;
  }

  lemma {:induction false} AbsentShare(order: seq<RegionId>, id: RegionId, rrfK: int)
    requires rrfK >= 1 && id !in order
    ensures Share(order, id, rrfK) == 0.0
  {
    if order != [] { AbsentShare(order[..|order| - 1], id, rrfK); }
  }

  function ScoreIn(fused: map<RegionId, real>): RegionId -> real {
    id => if id in fused then fused[id] else 0.0
  }

  /** The dictionary the two passes build holds the reciprocal-rank score of each fused region. */
  method Fuse(o: Orders, rrfK: int) returns (fused: map<RegionId, real>)
    requires Distinct(o.sparse) && Distinct(o.dense) && rrfK >= 1
    ensures forall id | id in FusedIds(o) :: ScoreIn(fused)(id) == Rrf(o, rrfK)(id)
    ensures fused.Keys == Elements(o.sparse) + Elements(o.dense)
  {
    fused := FuseOrder(o.sparse, rrfK, map[]);
    ghost var first := fused;
    fused := FuseOrder(o.dense, rrfK, fused);
    forall id | id in FusedIds(o) ensures ScoreIn(fused)(id) == Rrf(o, rrfK)(id) {
      FilterMember(o.dense, x => x !in o.sparse, id);
      if id !in first { AbsentShare(o.sparse, id, rrfK); }
    }
  }

  /** The regions that MaxSim rescores. */
  function Candidates(ids: seq<RegionId>, kind: RegionId -> RegionKind, routed: set<RegionKind>, s: Scores,
                      b: Bounds): seq<RegionId>
    requires BoundsOk(b, |ids|)
  {
    Take(Prefiltered(ids, kind, routed, s, b), b.maxsimK)
  }

  /** `finite` says for which regions the scorer gives a finite score. */
  method Query(ids: seq<RegionId>, kind: RegionId -> RegionKind, routed: set<RegionKind>, s: Scores, b: Bounds,
               q: Request, dense: nat, multi: nat, finite: RegionId -> bool)
    returns (r: Result<HybridResult, HybridError>)
    requires Distinct(ids)
    ensures r.Ok? <==> RequestOk(q, dense, multi) && BoundsOk(b, |ids|) &&
                       forall id | id in Candidates(ids, kind, routed, s, b) :: finite(id)
    ensures r.Ok? ==> r.value.prefiltered == Prefiltered(ids, kind, routed, s, b)
    ensures r.Ok? ==> r.value.hits == Hits(ids, kind, routed, s, b)
    ensures r.Ok? ==> r.value.considered == |r.value.prefiltered| && r.value.evaluated == b.maxsimK
  {
    if !RequestOk(q, dense, multi) { return Err(BadRequest); }
    if !BoundsOk(b, |ids|) { return Err(BadBounds); }
    var prefiltered := Prefilter(ids, kind, routed, s, b);
    var candidates := Take(prefiltered, b.maxsimK);
    var allFinite := AllFinite(candidates, finite);
    if !allFinite { return Err(NotFinite); }
    var hits := Take(Rank(candidates, s.maxsim), b.limit);
    return Ok(HybridResult(|prefiltered|, |candidates|, prefiltered, hits));
  }

  method AllFinite(candidates: seq<RegionId>, finite: RegionId -> bool) returns (ok: bool)
    ensures ok <==> forall id | id in candidates :: finite(id)
  {
    for i := 0 to |candidates|
      invariant forall id | id in candidates[..i] :: finite(id)
    {
      if !finite(candidates[i]) { assert candidates[i] in candidates; return false; }
    }
    assert candidates[..|candidates|] == candidates;
    return true;
  }

  /** The order by fused score and type bonus. */
  method Prefilter(ids: seq<RegionId>, kind: RegionId -> RegionKind, routed: set<RegionKind>, s: Scores, b: Bounds)
    returns (prefiltered: seq<RegionId>)
    requires Distinct(ids) && BoundsOk(b, |ids|)
    ensures prefiltered == Prefiltered(ids, kind, routed, s, b) && |prefiltered| >= b.topN
  {
    var o := CutOrders(ids, s, b);
    FusedShape(ids, s, b);
    var fused := Fuse(o, b.rrfK);
    var score := Boosted(ScoreIn(fused), kind, routed);
    RankAgrees(FusedIds(o), score, Boosted(Rrf(o, b.rrfK), kind, routed));
    prefiltered := Rank(FusedIds(o), score);
    RankShape(FusedIds(o), score);
  }

  // ---- how many regions are fused ----

  lemma FilterShort<T>(s: seq<T>, p: T -> bool)
    ensures |Filter(s, p)| <= |s|
  {
  }

  /** Between `top_n` and min(2 top_n, pack size) distinct regions are fused, all from the retrieval pack. */
  lemma FusedShape(ids: seq<RegionId>, s: Scores, b: Bounds)
    requires Distinct(ids) && BoundsOk(b, |ids|)
    ensures var o := CutOrders(ids, s, b); var fused := FusedIds(o);
            && Distinct(o.sparse) && Distinct(o.dense) && Distinct(fused)
            && b.topN <= |fused| <= Min(2 * b.topN, |ids|)
            && (forall id | id in fused :: id in ids)
            && (forall id :: id in fused <==> id in o.sparse || id in o.dense)
  {
    var o := CutOrders(ids, s, b);
    RankShape(ids, s.bm25);
    RankShape(ids, s.dense);
    var extra := Filter(o.dense, id => id !in o.sparse);
    FilterShort(o.dense, id => id !in o.sparse);
    FilterDistinct(o.dense, id => id !in o.sparse);
    forall id
      ensures id in extra <==> id in o.dense && id !in o.sparse
    {
      FilterMember(o.dense, x => x !in o.sparse, id);
    }
    var fused := FusedIds(o);
    forall id | id in fused ensures id in ids {
      assert id in Rank(ids, s.bm25) || id in Rank(ids, s.dense);
    }
    ConcatDistinct(o.sparse, extra);
    DistinctFitsIn(fused, Elements(ids));
    ElementsSize(ids);
  }

  // ---- the cascade against exhaustive MaxSim ----

  lemma CandidatesShape(ids: seq<RegionId>, kind: RegionId -> RegionKind, routed: set<RegionKind>, s: Scores, b: Bounds)
    requires Distinct(ids) && BoundsOk(b, |ids|)
    ensures var candidates := Take(Prefiltered(ids, kind, routed, s, b), b.maxsimK);
            Distinct(candidates) && |candidates| == b.maxsimK
  {
    var o := CutOrders(ids, s, b);
    FusedShape(ids, s, b);
    RankShape(FusedIds(o), Boosted(Rrf(o, b.rrfK), kind, routed));
  }

  /** A candidate that did not make the cut ranks below every one that did. */
  lemma CutBeatsRest(candidates: seq<RegionId>, score: RegionId -> real, limit: nat, h: RegionId, c: RegionId)
    requires h in Take(Rank(candidates, score), limit) && c in candidates && c !in Take(Rank(candidates, score), limit)
    ensures Better(score, h, c)
  {
    RankShape(candidates, score);
    var ranked, hits := Rank(candidates, score), Take(Rank(candidates, score), limit);
    var i :| 0 <= i < |hits| && hits[i] == h;
    assert c in ranked;
    var k :| 0 <= k < |ranked| && ranked[k] == c;
    assert forall m | 0 <= m < |hits| :: hits[m] == ranked[m] != c;
    assert BetterBy(score)(ranked[i], ranked[k]);
  }

  lemma CutShape(candidates: seq<RegionId>, score: RegionId -> real, limit: nat)
    requires Distinct(candidates) && limit <= |candidates|
    ensures var hits := Take(Rank(candidates, score), limit);
            && |hits| == limit && Distinct(hits) && Sorted(hits, BetterBy(score))
            && forall h | h in hits :: h in candidates
  {
    RankShape(candidates, score);
    forall h | h in Take(Rank(candidates, score), limit)
      ensures h in candidates
    {
      assert h in Rank(candidates, score);
    }
  }

  /**
   * The hits are the best `limit` of the first `maxsim_k` prefiltered regions: distinct, in
   * order, and no unreturned candidate is better than a returned one.
   */
  lemma HitsAreBest(ids: seq<RegionId>, kind: RegionId -> RegionKind, routed: set<RegionKind>, s: Scores, b: Bounds)
    requires Distinct(ids) && BoundsOk(b, |ids|)
    ensures var hits := Hits(ids, kind, routed, s, b);
            var candidates := Take(Prefiltered(ids, kind, routed, s, b), b.maxsimK);
            && |candidates| == b.maxsimK && |hits| == b.limit && Distinct(hits)
            && (forall h | h in hits :: h in candidates)
            && Sorted(hits, BetterBy(s.maxsim))
            && (forall h, c | h in hits && c in candidates && c !in hits :: Better(s.maxsim, h, c))
  {
    CandidatesShape(ids, kind, routed, s, b);
    var candidates := Take(Prefiltered(ids, kind, routed, s, b), b.maxsimK);
    CutShape(candidates, s.maxsim, b.limit);
    forall h, c | h in Take(Rank(candidates, s.maxsim), b.limit) && c in candidates &&
                  c !in Take(Rank(candidates, s.maxsim), b.limit)
      ensures Better(s.maxsim, h, c)
    {
      CutBeatsRest(candidates, s.maxsim, b.limit, h, c);
    }
  }

  /**
   * With `top_n` and `maxsim_k` equal to the pack size the cascade is exhaustive MaxSim,
   * whatever the BM25 and dense scores, the RRF constant and the routed types are.
   */
  lemma FullCascadeIsExhaustive(ids: seq<RegionId>, kind: RegionId -> RegionKind, routed: set<RegionKind>,
                                s: Scores, b: Bounds)
    requires Distinct(ids) && BoundsOk(b, |ids|) && b.topN == |ids| && b.maxsimK == |ids|
    ensures Hits(ids, kind, routed, s, b) == Take(Rank(ids, s.maxsim), b.limit)
  {
    var o := CutOrders(ids, s, b);
    RankShape(ids, s.bm25);
    RankShape(ids, s.dense);
    FusedShape(ids, s, b);
    var fused := FusedIds(o);
    RankShape(fused, Boosted(Rrf(o, b.rrfK), kind, routed));
    assert o.sparse == Rank(ids, s.bm25);
    assert fused[..|ids|] == o.sparse && fused == o.sparse;
    assert multiset(Prefiltered(ids, kind, routed, s, b)) == multiset(ids);
    BetterIsTotalOrder(s.maxsim);
    SortOfPermutation(Prefiltered(ids, kind, routed, s, b), ids, BetterBy(s.maxsim));
  }

  /** Rescoring more candidates never lowers the MaxSim score at any hit rank. */
  lemma MoreCandidatesNeverWorse(ids: seq<RegionId>, kind: RegionId -> RegionKind, routed: set<RegionKind>,
                                 s: Scores, b: Bounds, wider: int, r: nat)
    requires Distinct(ids) && BoundsOk(b, |ids|) && BoundsOk(b.(maxsimK := wider), |ids|)
    requires b.maxsimK <= wider && r < b.limit
    ensures var few := Hits(ids, kind, routed, s, b);
            var more := Hits(ids, kind, routed, s, b.(maxsimK := wider));
            r < |few| && r < |more| && s.maxsim(more[r]) >= s.maxsim(few[r])
  {
    CandidatesShape(ids, kind, routed, s, b);
    CandidatesShape(ids, kind, routed, s, b.(maxsimK := wider));
    WiderCut(Prefiltered(ids, kind, routed, s, b), s.maxsim, b.maxsimK, wider, b.limit, r);
  }

  lemma WiderCut(pre: seq<RegionId>, score: RegionId -> real, few: nat, wider: nat, limit: nat, r: nat)
    requires Distinct(Take(pre, few)) && |Take(pre, few)| == few && Distinct(Take(pre, wider)) &&
             |Take(pre, wider)| == wider
    requires r < limit <= few <= wider
    ensures var a, b := Take(Rank(Take(pre, few), score), limit), Take(Rank(Take(pre, wider), score), limit);
            r < |a| && r < |b| && score(b[r]) >= score(a[r])
  {
    CutShape(Take(pre, few), score, limit);
    CutShape(Take(pre, wider), score, limit);
    var first, rest := pre[..few], pre[few..wider];
    assert Take(pre, few) == first && Take(pre, wider) == first + rest;
    BetterIsTotalOrder(score);
    SortImproves(first, rest, BetterBy(score), r);
  }

  // ---- domination ----

  lemma {:induction false} ShareAt(order: seq<RegionId>, rrfK: int, p: nat)
    requires rrfK >= 1 && Distinct(order) && p < |order|
    ensures Share(order, order[p], rrfK) == 1.0 / ((rrfK + p + 1) as real) > 0.0
  {
    if p < |order| - 1 { ShareAt(order[..|order| - 1], rrfK, p); }
  }

  lemma {:induction false} ShareNonNegative(order: seq<RegionId>, id: RegionId, rrfK: int)
    requires rrfK >= 1
    ensures Share(order, id, rrfK) >= 0.0
    ensures Share(order, id, rrfK) > 0.0 <==> id in order
  {
    if order != [] {
      ShareNonNegative(order[..|order| - 1], id, rrfK);
    }
  }

  ghost predicate Precedes(order: seq<RegionId>, a: RegionId, b: RegionId) {
    exists i, j :: 0 <= i < j < |order| && order[i] == a && order[j] == b
  }

  /**
   * In one order cut at `n`, the earlier region has at least the share of the later one, and more
   * if the later is kept.
   */
  lemma EarlierSharesMore(order: seq<RegionId>, n: nat, a: RegionId, b: RegionId, rrfK: int)
    requires rrfK >= 1 && Distinct(order) && Precedes(order, a, b)
    ensures Share(Take(order, n), a, rrfK) >= Share(Take(order, n), b, rrfK)
    ensures b in Take(order, n) ==>
            a in Take(order, n) && Share(Take(order, n), a, rrfK) > Share(Take(order, n), b, rrfK)
  {
    var i, j :| 0 <= i < j < |order| && order[i] == a && order[j] == b;
    var cut := Take(order, n);
    if b in cut {
      assert j < |cut|;
      ShareAt(cut, rrfK, i);
      ShareAt(cut, rrfK, j);
      Inverse((rrfK + i + 1) as real, (rrfK + j + 1) as real);
    } else {
      AbsentShare(cut, b, rrfK);
      ShareNonNegative(cut, a, rrfK);
    }
  }

  lemma Inverse(x: real, y: real)
    requires 0.0 < x < y
    ensures 1.0 / x > 1.0 / y
  {
    CrossMultiply(1.0, y, 1.0, x);
  }

  /**
   * A region ahead of a fused one in both orders is fused too, with a strictly larger RRF
   * score, and comes before it in the prefilter unless only the other has the type bonus.
   */
  lemma AheadInBothIsAhead(ids: seq<RegionId>, kind: RegionId -> RegionKind, routed: set<RegionKind>, s: Scores,
                           b: Bounds, x: RegionId, y: RegionId)
    requires Distinct(ids) && BoundsOk(b, |ids|)
    requires Precedes(Rank(ids, s.bm25), x, y) && Precedes(Rank(ids, s.dense), x, y)
    requires y in FusedIds(CutOrders(ids, s, b))
    ensures var o := CutOrders(ids, s, b);
            && x in FusedIds(o)
            && Rrf(o, b.rrfK)(x) > Rrf(o, b.rrfK)(y)
            && (!(kind(y) in routed && kind(x) !in routed) ==> Precedes(Prefiltered(ids, kind, routed, s, b), x, y))
  {
    var o := CutOrders(ids, s, b);
    RankShape(ids, s.bm25);
    RankShape(ids, s.dense);
    FusedShape(ids, s, b);
    EarlierSharesMore(Rank(ids, s.bm25), b.topN, x, y, b.rrfK);
    EarlierSharesMore(Rank(ids, s.dense), b.topN, x, y, b.rrfK);
    if !(kind(y) in routed && kind(x) !in routed) {
      var key := Boosted(Rrf(o, b.rrfK), kind, routed);
      HigherPrecedes(FusedIds(o), key, x, y);
    }
  }

  lemma HigherPrecedes(ids: seq<RegionId>, score: RegionId -> real, x: RegionId, y: RegionId)
    requires x in ids && y in ids && score(x) > score(y)
    ensures Precedes(Rank(ids, score), x, y)
  {
    RankShape(ids, score);
    var ranked := Rank(ids, score);
    assert x in ranked && y in ranked;
    var i :| 0 <= i < |ranked| && ranked[i] == x;
    var j :| 0 <= j < |ranked| && ranked[j] == y;
    var low, high := if i < j then i else j, if i < j then j else i;
    assert BetterBy(score)(ranked[low], ranked[high]);
  }

  // ---- what the type bonus does ----

  lemma RankOrderExactly(ids: seq<RegionId>, score: RegionId -> real, x: RegionId, y: RegionId)
    requires Distinct(ids) && x in ids && y in ids && x != y
    ensures Precedes(Rank(ids, score), x, y) <==> score(x) > score(y) || (score(x) == score(y) && TextLe(x, y))
  {
    RankShape(ids, score);
    var ranked := Rank(ids, score);
    assert x in ranked && y in ranked;
    var i :| 0 <= i < |ranked| && ranked[i] == x;
    var j :| 0 <= j < |ranked| && ranked[j] == y;
    TextTotal(x, y);
    if i < j {
      assert BetterBy(score)(ranked[i], ranked[j]);
    } else {
      assert BetterBy(score)(ranked[j], ranked[i]);
      forall m, n | 0 <= m < n < |ranked| && ranked[m] == x ensures ranked[n] != y {}
    }
  }

  /**
   * Of two fused regions the one with the larger fused score comes first, unless only the other is
   * of a routed type and the lead is less than 0.001; at exactly that lead, or without a lead and a
   * difference in routing, the smaller id comes first.
   */
  lemma BonusDecidesExactly(ids: seq<RegionId>, kind: RegionId -> RegionKind, routed: set<RegionKind>, s: Scores,
                            b: Bounds, x: RegionId, y: RegionId)
    requires Distinct(ids) && BoundsOk(b, |ids|) && x != y
    requires var o := CutOrders(ids, s, b); (x in o.sparse || x in o.dense) && (y in o.sparse || y in o.dense)
    ensures var fused := Rrf(CutOrders(ids, s, b), b.rrfK);
            var lead := fused(x) - fused(y);
            var needed := (if kind(y) in routed then 0.001 else 0.0) - (if kind(x) in routed then 0.001 else 0.0);
            Precedes(Prefiltered(ids, kind, routed, s, b), x, y) <==> lead > needed || (lead == needed && TextLe(x, y))
  {
    FusedShape(ids, s, b);
    var o := CutOrders(ids, s, b);
    RankOrderExactly(FusedIds(o), Boosted(Rrf(o, b.rrfK), kind, routed), x, y);
  }

  /** A routed region comes before every region of another type with the same fused score. */
  lemma RoutedComesFirst(ids: seq<RegionId>, kind: RegionId -> RegionKind, routed: set<RegionKind>, s: Scores,
                         b: Bounds, x: RegionId, y: RegionId)
    requires Distinct(ids) && BoundsOk(b, |ids|)
    requires var o := CutOrders(ids, s, b); (x in o.sparse || x in o.dense) && (y in o.sparse || y in o.dense)
    requires Rrf(CutOrders(ids, s, b), b.rrfK)(x) == Rrf(CutOrders(ids, s, b), b.rrfK)(y)
    requires kind(x) in routed && kind(y) !in routed
    ensures Precedes(Prefiltered(ids, kind, routed, s, b), x, y)
  {
    BonusDecidesExactly(ids, kind, routed, s, b, x, y);
  }

  // ---- the fused score ----

  /** How many regions of the pack have a higher score, or the same and a smaller id. */
  function Ahead(ids: seq<RegionId>, score: RegionId -> real, id: RegionId): nat {
    |set y | y in ids && y != id && (score(y) > score(id) || (score(y) == score(id) && TextLe(y, id)))|
  }

  /** The region at index `p` of an order has `p` regions ahead of it. */
  lemma AheadOf(ids: seq<RegionId>, score: RegionId -> real, p: nat)
    requires Distinct(ids) && p < |Rank(ids, score)|
    ensures Ahead(ids, score, Rank(ids, score)[p]) == p
  {
    var ranked := Rank(ids, score);
    var id, front := ranked[p], ranked[..p];
    RankShape(ids, score);
    forall y
      ensures y in ids && y != id && (score(y) > score(id) || (score(y) == score(id) && TextLe(y, id))) <==> y in front
    {
      TextTotal(y, id);
      if y in ids && y != id {
        var k :| 0 <= k < |ranked| && ranked[k] == y;
        assert if k < p then BetterBy(score)(y, id) else BetterBy(score)(id, y);
      }
    }
    ElementsSize(front);
    assert Elements(front) ==
      set y | y in ids && y != id && (score(y) > score(id) || (score(y) == score(id) && TextLe(y, id)));
  }

  /** What an order cut at `n` gives a region with `ahead` others ahead of it. */
  function PlaceShare(ahead: nat, n: int, rrfK: int): real
    requires rrfK >= 1
  {
    if ahead < n then 1.0 / ((rrfK + ahead + 1) as real) else 0.0
  }

  lemma CutShare(ids: seq<RegionId>, score: RegionId -> real, n: nat, rrfK: int, id: RegionId)
    requires Distinct(ids) && id in ids && n <= |ids| && rrfK >= 1
    ensures Share(Take(Rank(ids, score), n), id, rrfK) == PlaceShare(Ahead(ids, score, id), n, rrfK)
    ensures id in Take(Rank(ids, score), n) <==> Ahead(ids, score, id) < n
  {
    var ranked, cut := Rank(ids, score), Take(Rank(ids, score), n);
    RankShape(ids, score);
    var p :| 0 <= p < |ranked| && ranked[p] == id;
    AheadOf(ids, score, p);
    if p < n {
      assert cut[p] == id;
      ShareAt(cut, rrfK, p);
    } else {
      AbsentShare(cut, id, rrfK);
    }
  }

  /**
   * A region is fused exactly when fewer than `top_n` regions are ahead of it by BM25 or by the dense
   * score, and each of the two gives it one over the constant plus its rank, counted from 1.
   */
  lemma FusedScoreExactly(ids: seq<RegionId>, s: Scores, b: Bounds, id: RegionId)
    requires Distinct(ids) && BoundsOk(b, |ids|) && id in ids
    ensures var sparse, dense := Ahead(ids, s.bm25, id), Ahead(ids, s.dense, id);
            && (id in FusedIds(CutOrders(ids, s, b)) <==> sparse < b.topN || dense < b.topN)
            && Rrf(CutOrders(ids, s, b), b.rrfK)(id) ==
               PlaceShare(sparse, b.topN, b.rrfK) + PlaceShare(dense, b.topN, b.rrfK)
  {
    FusedShape(ids, s, b);
    CutShare(ids, s.bm25, b.topN, b.rrfK, id);
    CutShare(ids, s.dense, b.topN, b.rrfK, id);
  }
}
