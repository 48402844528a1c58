/** `_query_metrics`: what its numbers mean, and how they move when a ranking changes. */
module QueryRanking {
  import opened Fractions
  import opened Prelude
  import opened Ordering
  import opened RankingMetrics

  datatype Metrics = Metrics(returned: nat, ndcg: real, recall: real, averagePrecision: real,
                             reciprocalRank: real, hardNegatives: nat, abstained: bool)

  function Hits(js: seq<Judgment>, order: seq<CaseId>): nat { Count(order, id => Relevant(js, id)) }

  /** The sum of the precisions at the ranks of the relevant cases. */
  function PrecisionSum(js: seq<Judgment>, order: seq<CaseId>): real {
    if order == [] then 0.0
    else PrecisionSum(js, order[..|order| - 1])
         + (if Relevant(js, order[|order| - 1]) then (Hits(js, order) as real) / (|order| as real) else 0.0)
  }

  /** Rank of the first relevant case, 0 if there is none. */
  function FirstRelevant(js: seq<Judgment>, order: seq<CaseId>): nat {
    if order == [] then 0
    else if FirstRelevant(js, order[..|order| - 1]) > 0 then FirstRelevant(js, order[..|order| - 1])
    else if Relevant(js, order[|order| - 1]) then |order| else 0
  }

  function Ratio(a: real, b: real): real { if b != 0.0 then a / b else 0.0 }

  function Ndcg(js: seq<Judgment>, order: seq<CaseId>, k: nat, d: Discount): real {
    Ratio(Dcg(Gains(js, Take(order, k)), d), Dcg(Take(Ideal(js), k), d))
  }

  function Recall(js: seq<Judgment>, order: seq<CaseId>, k: nat): real {
    Ratio(Hits(js, Take(order, k)) as real, |js| as real)
  }

  function AveragePrecision(js: seq<Judgment>, order: seq<CaseId>): real {
    Ratio(PrecisionSum(js, order), |js| as real)
  }

  function ReciprocalRank(js: seq<Judgment>, order: seq<CaseId>): real {
    Ratio(if FirstRelevant(js, order) > 0 then 1.0 else 0.0, FirstRelevant(js, order) as real)
  }

  function HardNegatives(q: Query, order: seq<CaseId>, k: nat): nat { Count(Take(order, k), id => id in q.hard) }

  function MetricsOf(q: Query, order: seq<CaseId>, k: nat, d: Discount): Metrics {
    Metrics(|order|, Ndcg(q.judgments, order, k, d), Recall(q.judgments, order, k),
            AveragePrecision(q.judgments, order), ReciprocalRank(q.judgments, order),
            HardNegatives(q, order, k), order == [])
  }

  /** The loop over the candidates with `relevant_seen`, `precision_sum` and `first_relevant_rank`. */
  method QueryMetrics(q: Query, order: seq<CaseId>, k: nat, d: Discount) returns (m: Metrics)
    requires QueryOk(q)
    ensures m == MetricsOf(q, order, k, d)
    ensures m.ndcg == Ndcg(q.judgments, order, k, d) && m.recall == Recall(q.judgments, order, k)
    ensures m.averagePrecision == AveragePrecision(q.judgments, order)
    ensures m.reciprocalRank == ReciprocalRank(q.judgments, order) && m.hardNegatives == HardNegatives(q, order, k)
    ensures m.returned == |order| && (m.abstained <==> order == [])
  {
    var js := q.judgments;
    var top := Take(order, k);
    var dcg, idcg := Dcg(Gains(js, top), d), Dcg(Take(Ideal(js), k), d);
    var relevantSeen, precisionSum := 0, 0.0;
    var first: Option<nat> := None;
    var rank := 0;
    while rank < |order|
      invariant 0 <= rank <= |order|
      invariant relevantSeen == Hits(js, order[..rank]) && precisionSum == PrecisionSum(js, order[..rank])
      invariant first == if FirstRelevant(js, order[..rank]) > 0 then Some(FirstRelevant(js, order[..rank])) else None
    {
      assert order[..rank + 1][..rank] == order[..rank];
      if Relevant(js, order[rank]) {
        relevantSeen := relevantSeen + 1;
        precisionSum := precisionSum + (relevantSeen as real) / ((rank + 1) as real);
        if first.None? {
          first := Some(rank + 1);
        }
      }
      rank := rank + 1;
    }
    assert order[..|order|] == order;
    m := Metrics(|order|,
                 if idcg != 0.0 then dcg / idcg else 0.0,
                 (Hits(js, top) as real) / (|js| as real),
                 precisionSum / (|js| as real),
                 if first.Some? then 1.0 / (first.value as real) else 0.0,
                 Count(top, id => id in q.hard),
                 order == []);
  }

  // ---- ranges ----

  lemma DiscountPositive(d: Discount, n: nat)
    requires Discounts(d) && n >= 1
    ensures d(n) > 0.0
  {
    assert d(n + 1) < d(n);
  }

  lemma {:induction false} DcgNonNegative(gains: seq<int>, d: Discount)
    requires Discounts(d) && forall g | g in gains :: g >= 0
    ensures Dcg(gains, d) >= 0.0
    ensures gains != [] && gains[0] >= 1 ==> Dcg(gains, d) > 0.0
  {
    if gains != [] {
      var front := gains[..|gains| - 1];
      forall g | g in front ensures g >= 0 { assert g in gains; }
      DcgNonNegative(front, d);
      DiscountPositive(d, |gains|);
      assert gains[|gains| - 1] in gains;
      assert Discounted(gains[|gains| - 1], |gains|, d) >= 0.0;
    }
  }

  lemma GainsNonNegative(js: seq<Judgment>, order: seq<CaseId>)
    ensures forall g | g in Gains(js, order) :: g >= 0
  {
    forall i | 0 <= i < |order| ensures Gain(js, order[i]) >= 0 { Pow2Grows(GradeOf(js, order[i])); }
  }

  lemma RatioInUnit(a: real, b: real)
    requires 0.0 <= a <= b && b > 0.0
    ensures 0.0 <= Ratio(a, b) <= 1.0
    ensures Ratio(a, b) == 1.0 <==> a == b
  {
    assert Ratio(a, b) * b == a;
  }

  /** nDCG lies in [0, 1], and is 1 exactly when the top k are as good as the ideal list. */
  lemma NdcgInUnit(q: Query, order: seq<CaseId>, k: nat, d: Discount)
    requires QueryOk(q) && Discounts(d) && Distinct(order) && k >= 1
    ensures 0.0 <= Ndcg(q.judgments, order, k, d) <= 1.0
    ensures Ndcg(q.judgments, order, k, d) == 1.0
            <==> Padded(Gains(q.judgments, order), k) == Padded(Ideal(q.judgments), k)
  {
    var js := q.judgments;
    DcgAtMostIdeal(js, order, k, d);
    GainsNonNegative(js, Take(order, k));
    DcgNonNegative(Gains(js, Take(order, k)), d);
    IdealNonNegative(js);
    var best := Take(Ideal(js), k);
    forall g | g in best ensures g >= 1 { assert g in Ideal(js); }
    assert best[0] in best;
    DcgNonNegative(best, d);
    RatioInUnit(Dcg(Gains(js, Take(order, k)), d), Dcg(best, d));
  }

  function Ids(js: seq<Judgment>): set<CaseId> { set j | j in js :: j.id }

  lemma {:induction false} IdsSize(js: seq<Judgment>)
    requires DistinctIds(js)
    ensures |Ids(js)| == |js|
    ensures forall id :: id in Ids(js) <==> Relevant(js, id)
  {
    if js != [] {
      var front, last := js[..|js| - 1], js[|js| - 1];
      IdsSize(front);
      assert js == front + [last];
      assert Ids(js) == Ids(front) + {last.id};
      assert last.id !in Ids(front);
    }
  }

  lemma {:induction false} CountIsFilter<T>(s: seq<T>, p: T -> bool)
    ensures Count(s, p) == |Filter(s, p)|
  {
    if s != [] { CountIsFilter(s[..|s| - 1], p); }
  }

  lemma HitsBounded(js: seq<Judgment>, order: seq<CaseId>)
    requires DistinctIds(js) && Distinct(order)
    ensures Hits(js, order) <= |js|
    ensures Hits(js, order) == |js| ==> forall j | j in js :: j.id in order
  {
    var p := id => Relevant(js, id);
    var found := Filter(order, p);
    CountIsFilter(order, p);
    FilterDistinct(order, p);
    IdsSize(js);
    forall x ensures x in found <==> x in order && p(x) { FilterMember(order, p, x); }
    DistinctFitsIn(found, Ids(js));
    if Hits(js, order) == |js| {
      forall j | j in js ensures j.id in order {
        assert j.id in Ids(js);
        assert j.id in found;
      }
    }
  }

  /** Precision is 1 at every relevant rank exactly when the relevant cases come first. */
  lemma {:induction false} PrecisionSumBound(js: seq<Judgment>, order: seq<CaseId>)
    ensures Hits(js, order) <= |order|
    ensures 0.0 <= PrecisionSum(js, order) <= Hits(js, order) as real
    ensures PrecisionSum(js, order) == Hits(js, order) as real
            <==> forall i | 0 <= i < Hits(js, order) :: Relevant(js, order[i])
  {
    if order != [] {
      var front, n := order[..|order| - 1], |order|;
      PrecisionSumBound(js, front);
      if Relevant(js, order[n - 1]) {
        var h := Hits(js, order);
        assert h == Hits(js, front) + 1;
        RatioInUnit(h as real, n as real);
        if PrecisionSum(js, order) == h as real {
          assert h == n;
        }
        if forall i | 0 <= i < h :: Relevant(js, order[i]) {
          if h < n {
            AllHitsCounted(js, front, h);
          }
        }
      }
    }
  }

  lemma {:induction false} AllHitsCounted(js: seq<Judgment>, order: seq<CaseId>, n: nat)
    requires n <= |order| && forall i | 0 <= i < n :: Relevant(js, order[i])
    ensures Hits(js, order) >= n
  {
    if n < |order| {
      AllHitsCounted(js, order[..|order| - 1], n);
    } else if n > 0 {
      AllHitsCounted(js, order[..|order| - 1], n - 1);
    }
  }

  /** Average precision lies in [0, 1] and is 1 exactly when the relevant cases fill the first ranks. */
  lemma AveragePrecisionOne(q: Query, order: seq<CaseId>)
    requires QueryOk(q) && Distinct(order)
    ensures 0.0 <= AveragePrecision(q.judgments, order) <= 1.0
    ensures AveragePrecision(q.judgments, order) == 1.0 <==>
            |order| >= |q.judgments| && forall i | 0 <= i < |q.judgments| :: Relevant(q.judgments, order[i])
  {
    var js := q.judgments;
    PrecisionSumBound(js, order);
    HitsBounded(js, order);
    RatioInUnit(PrecisionSum(js, order), |js| as real);
    if |order| >= |js| && forall i | 0 <= i < |js| :: Relevant(js, order[i]) {
      AllHitsCounted(js, order, |js|);
    }
  }

  // ---- moving a relevant case up ----

  /** `order` with positions `i` and `i + 1` exchanged. */
  function Swapped(order: seq<CaseId>, i: nat): seq<CaseId>
    requires i + 1 < |order|
  {
    order[..i] + [order[i + 1], order[i]] + order[i + 2..]
  }

  ghost predicate Improvable(js: seq<Judgment>, order: seq<CaseId>, i: nat) {
    i + 1 < |order| && !Relevant(js, order[i]) && Relevant(js, order[i + 1])
  }

  lemma SwappedFront(order: seq<CaseId>, i: nat)
    requires i + 2 < |order|
    ensures Swapped(order, i)[..|order| - 1] == Swapped(order[..|order| - 1], i)
    ensures Swapped(order, i)[|order| - 1] == order[|order| - 1]
  {
  }

  lemma SwappedEnds(order: seq<CaseId>, i: nat)
    requires i + 2 == |order|
    ensures Swapped(order, i) == (order[..i] + [order[i + 1]]) + [order[i]]
    ensures order == (order[..i] + [order[i]]) + [order[i + 1]]
    ensures (order[..i] + [order[i + 1]])[..i] == order[..i] == (order[..i] + [order[i]])[..i]
  {
  }

  lemma {:induction false} SwapKeepsCount(order: seq<CaseId>, i: nat, p: CaseId -> bool)
    requires i + 1 < |order|
    ensures Count(Swapped(order, i), p) == Count(order, p)
    decreases |order|
  {
    assert order == order[..i] + [order[i], order[i + 1]] + order[i + 2..];
    CountPermutation(Swapped(order, i), order, p);
  }

  lemma PrecisionSumAppend(js: seq<Judgment>, order: seq<CaseId>, id: CaseId)
    ensures PrecisionSum(js, order + [id]) == PrecisionSum(js, order) +
            (if Relevant(js, id) then ((Hits(js, order) + 1) as real) / ((|order| + 1) as real) else 0.0)
  {
    assert (order + [id])[..|order|] == order;
  }

  /** By how much the precision of the moved case rises: it has the same hits ahead of it, over one rank less. */
  function PrecisionRise(js: seq<Judgment>, order: seq<CaseId>, i: nat): real
    requires i + 1 < |order|
  {
    var hits := (Hits(js, order[..i]) + 1) as real;
    hits / ((i + 1) as real) - hits / ((i + 2) as real)
  }

  lemma {:induction false} SwapRaisesPrecision(js: seq<Judgment>, order: seq<CaseId>, i: nat)
    requires Improvable(js, order, i)
    ensures PrecisionSum(js, Swapped(order, i)) - PrecisionSum(js, order) == PrecisionRise(js, order, i) > 0.0
    decreases |order|
  {
    if i + 2 < |order| {
      assert order[..|order| - 1][..i] == order[..i];
      var front := order[..|order| - 1];
      SwappedFront(order, i);
      SwapRaisesPrecision(js, front, i);
      SwapKeepsCount(order, i, id => Relevant(js, id));
    } else {
      var start := order[..i];
      SwappedEnds(order, i);
      PrecisionSumAppend(js, start, order[i]);
      PrecisionSumAppend(js, start, order[i + 1]);
      PrecisionSumAppend(js, start + [order[i]], order[i + 1]);
      PrecisionSumAppend(js, start + [order[i + 1]], order[i]);
      EarlierIsMore((Hits(js, start) + 1) as real, (i + 1) as real, (i + 2) as real);
    }
  }

  lemma EarlierIsMore(h: real, a: real, b: real)
    requires h > 0.0 && 0.0 < a < b
    ensures h / a > h / b
  {
    ProductSign(h, b - a);
    assert h * b - h * a == h * (b - a);
    CrossMultiply(h, b, h, a);
  }

  lemma GainsAppend(js: seq<Judgment>, order: seq<CaseId>, id: CaseId)
    ensures Gains(js, order + [id]) == Gains(js, order) + [Gain(js, id)]
  {
  }

  lemma {:induction false} GainOfRelevant(js: seq<Judgment>, id: CaseId)
    ensures !Relevant(js, id) ==> Gain(js, id) == 0
    ensures Gain(js, id) >= 0
  {
    Pow2Grows(GradeOf(js, id));
    if js != [] {
      var front := js[..|js| - 1];
      GainOfRelevant(front, id);
      if Relevant(front, id) {
        var j :| j in front && j.id == id;
        assert j in js;
      }
      assert js[|js| - 1] in js;
    }
  }

  lemma DcgAppend(js: seq<Judgment>, order: seq<CaseId>, id: CaseId, d: Discount)
    ensures Dcg(Gains(js, order + [id]), d) == Dcg(Gains(js, order), d) + Discounted(Gain(js, id), |order| + 1, d)
  {
    GainsAppend(js, order, id);
  }

  /** What the exchange of positions `i` and `i + 1` adds to the gains when only the second has one. */
  function DcgRise(gain: int, i: nat, k: nat, d: Discount): real {
    if k <= i then 0.0
    else if k == i + 1 then Discounted(gain, i + 1, d)
    else Discounted(gain, i + 1, d) - Discounted(gain, i + 2, d)
  }

  lemma DcgTwo(js: seq<Judgment>, start: seq<CaseId>, a: CaseId, b: CaseId, d: Discount)
    requires Gain(js, a) == 0
    ensures Dcg(Gains(js, (start + [b]) + [a]), d) - Dcg(Gains(js, (start + [a]) + [b]), d)
            == DcgRise(Gain(js, b), |start|, |start| + 2, d)
    ensures Dcg(Gains(js, start + [b]), d) - Dcg(Gains(js, start + [a]), d)
            == DcgRise(Gain(js, b), |start|, |start| + 1, d)
  {
    DcgAppend(js, start, a, d);
    DcgAppend(js, start, b, d);
    DcgAppend(js, start + [a], b, d);
    DcgAppend(js, start + [b], a, d);
  }

  /** One more case at the end of both orders keeps the difference of their top k. */
  lemma SameTail(js: seq<Judgment>, better: seq<CaseId>, front: seq<CaseId>, last: CaseId, k: nat, d: Discount)
    requires |better| == |front|
    ensures Dcg(Gains(js, Take(better + [last], k)), d) - Dcg(Gains(js, Take(front + [last], k)), d)
            == Dcg(Gains(js, Take(better, k)), d) - Dcg(Gains(js, Take(front, k)), d)
  {
    if k <= |front| {
      assert Take(better + [last], k) == Take(better, k) && Take(front + [last], k) == Take(front, k);
    } else {
      DcgAppend(js, better, last, d);
      DcgAppend(js, front, last, d);
    }
  }

  /** How much discounted gain of the top k the exchange adds. */
  lemma {:induction false} SwapMovesDcg(js: seq<Judgment>, order: seq<CaseId>, i: nat, k: nat, d: Discount)
    requires Improvable(js, order, i)
    ensures Dcg(Gains(js, Take(Swapped(order, i), k)), d) - Dcg(Gains(js, Take(order, k)), d)
            == DcgRise(Gain(js, order[i + 1]), i, k, d)
    decreases |order|
  {
    var better := Swapped(order, i);
    if i + 2 < |order| {
      var front, last := order[..|order| - 1], order[|order| - 1];
      SwappedFront(order, i);
      SwapMovesDcg(js, front, i, k, d);
      assert better == Swapped(front, i) + [last] && order == front + [last];
      SameTail(js, Swapped(front, i), front, last, k, d);
    } else if k <= i {
      assert Take(better, k) == Take(order, k);
    } else {
      SwapLastTwo(js, order, i, k, d);
    }
  }

  lemma SwapLastTwo(js: seq<Judgment>, order: seq<CaseId>, i: nat, k: nat, d: Discount)
    requires Improvable(js, order, i) && |order| == i + 2 && k > i
    ensures Dcg(Gains(js, Take(Swapped(order, i), k)), d) - Dcg(Gains(js, Take(order, k)), d)
            == DcgRise(Gain(js, order[i + 1]), i, k, d)
  {
    var start := order[..i];
    GainOfRelevant(js, order[i]);
    SwappedEnds(order, i);
    DcgTwo(js, start, order[i], order[i + 1], d);
    if k == i + 1 {
      assert Take(Swapped(order, i), k) == start + [order[i + 1]] && Take(order, k) == start + [order[i]];
    }
  }

  /** The discounted gain of the top k does not fall. */
  lemma SwapKeepsDcg(js: seq<Judgment>, order: seq<CaseId>, i: nat, k: nat, d: Discount)
    requires Improvable(js, order, i) && Discounts(d)
    ensures Dcg(Gains(js, Take(Swapped(order, i), k)), d) >= Dcg(Gains(js, Take(order, k)), d)
  {
    SwapMovesDcg(js, order, i, k, d);
    GainOfRelevant(js, order[i + 1]);
    RiseNonNegative(Gain(js, order[i + 1]), i, k, d);
  }

  lemma RiseNonNegative(gain: int, i: nat, k: nat, d: Discount)
    requires gain >= 0 && Discounts(d)
    ensures DcgRise(gain, i, k, d) >= 0.0
  {
    assert 0.0 < d(i + 2) < d(i + 1);
    WeightsFall(gain as real, d(i + 1), d(i + 2));
  }

  lemma WeightsFall(g: real, a: real, b: real)
    requires g >= 0.0 && 0.0 < b < a
    ensures g * a >= g * b >= 0.0
  {
  }

  /** How a count over the top k moves when the case entering it satisfies `p` and the one leaving does not. */
  lemma SwapMovesTopCount(order: seq<CaseId>, i: nat, k: nat, p: CaseId -> bool)
    requires i + 1 < |order|
    ensures Count(Take(Swapped(order, i), k), p) == Count(Take(order, k), p) +
            (if k == i + 1 then (if p(order[i + 1]) then 1 else 0) - (if p(order[i]) then 1 else 0) else 0)
  {
    var better := Swapped(order, i);
    if k <= i {
      assert Take(better, k) == Take(order, k);
    } else if k == i + 1 {
      assert Take(better, k) == order[..i] + [order[i + 1]] && Take(order, k) == order[..i] + [order[i]];
    } else {
      assert Take(better, k) == Swapped(Take(order, k), i);
      SwapKeepsCount(Take(order, k), i, p);
    }
  }

  lemma {:induction false} FirstRelevantMeans(js: seq<Judgment>, order: seq<CaseId>)
    ensures var r := FirstRelevant(js, order);
            && r <= |order|
            && (r > 0 ==> Relevant(js, order[r - 1]) && forall i | 0 <= i < r - 1 :: !Relevant(js, order[i]))
            && (r == 0 ==> forall i | 0 <= i < |order| :: !Relevant(js, order[i]))
  {
    if order != [] { FirstRelevantMeans(js, order[..|order| - 1]); }
  }

  lemma SwapKeepsFirst(js: seq<Judgment>, order: seq<CaseId>, i: nat)
    requires Improvable(js, order, i)
    ensures ReciprocalRank(js, Swapped(order, i)) >= ReciprocalRank(js, order)
  {
    var better := Swapped(order, i);
    FirstRelevantMeans(js, order);
    FirstRelevantMeans(js, better);
    var r, r' := FirstRelevant(js, order), FirstRelevant(js, better);
    assert Relevant(js, order[i + 1]) && better[i] == order[i + 1];
    assert r <= i ==> better[r - 1] == order[r - 1];
    assert 0 < r' <= r;
    if r' < r { EarlierIsMore(1.0, r' as real, r as real); }
  }

  lemma RatioMonotone(a: real, a': real, b: real)
    requires a <= a' && b >= 0.0
    ensures Ratio(a, b) <= Ratio(a', b)
    ensures a < a' && b > 0.0 ==> Ratio(a, b) < Ratio(a', b)
  {
    if b > 0.0 {
      ProductSign(a' - a, b);
      assert (a' - a) * b == a' * b - a * b;
      CrossMultiply(a, b, a', b);
    }
  }

  lemma RatioTimes(a: real, b: real)
    requires b > 0.0
    ensures Ratio(a, b) * b == a
  {
  }

  /** Of the judged cases' average, the exchange raises one precision, by exactly its `PrecisionRise`. */
  lemma AveragePrecisionRises(js: seq<Judgment>, order: seq<CaseId>, i: nat)
    requires js != [] && Improvable(js, order, i)
    ensures var before, after := AveragePrecision(js, order), AveragePrecision(js, Swapped(order, i));
            after > before && (after - before) * (|js| as real) == PrecisionRise(js, order, i)
  {
    var n, p, p' := |js| as real, PrecisionSum(js, order), PrecisionSum(js, Swapped(order, i));
    SwapRaisesPrecision(js, order, i);
    RatioTimes(p, n);
    RatioTimes(p', n);
    assert (Ratio(p', n) - Ratio(p, n)) * n == Ratio(p', n) * n - Ratio(p, n) * n;
    FactorSign(Ratio(p', n) - Ratio(p, n), n);
  }

  lemma NdcgKept(q: Query, order: seq<CaseId>, i: nat, k: nat, d: Discount)
    requires QueryOk(q) && Discounts(d) && Improvable(q.judgments, order, i)
    ensures Ndcg(q.judgments, Swapped(order, i), k, d) >= Ndcg(q.judgments, order, k, d)
  {
    var js := q.judgments;
    SwapKeepsDcg(js, order, i, k, d);
    IdealNonNegative(js);
    assert forall g | g in Take(Ideal(js), k) :: g in Ideal(js);
    DcgNonNegative(Take(Ideal(js), k), d);
    RatioMonotone(Dcg(Gains(js, Take(order, k)), d), Dcg(Gains(js, Take(Swapped(order, i), k)), d),
                  Dcg(Take(Ideal(js), k), d));
  }

  /**
   * Exchanging a non-relevant case with the relevant one just below it strictly raises
   * average precision, never lowers nDCG, recall or reciprocal rank, and never adds a hard
   * negative to the top k.
   */
  lemma MovingRelevantUp(q: Query, order: seq<CaseId>, i: nat, k: nat, d: Discount)
    requires QueryOk(q) && Discounts(d) && Improvable(q.judgments, order, i)
    ensures var before, after := MetricsOf(q, order, k, d), MetricsOf(q, Swapped(order, i), k, d);
            && after.averagePrecision > before.averagePrecision
            && after.ndcg >= before.ndcg
            && after.recall >= before.recall
            && after.reciprocalRank >= before.reciprocalRank
            && after.hardNegatives <= before.hardNegatives
            && after.returned == before.returned
  {
    var js := q.judgments;
    AveragePrecisionRises(js, order, i);
    NdcgKept(q, order, i, k, d);
    SwapMovesTopCount(order, i, k, id => Relevant(js, id));
    RatioMonotone(Hits(js, Take(order, k)) as real, Hits(js, Take(Swapped(order, i), k)) as real, |js| as real);
    SwapKeepsFirst(js, order, i);
    SwapMovesTopCount(order, i, k, id => id in q.hard);
    assert order[i + 1] !in q.hard;
  }
}
