module RankingMetrics {
  // Retrieval metrics of one query: nDCG at k, recall at k, average precision, reciprocal rank.

  import opened Prelude
  import opened Ordering

  type CaseId = string

  datatype Judgment = Judgment(id: CaseId, grade: nat)

  datatype Query = Query(judgments: seq<Judgment>, hard: set<CaseId>)

  /** What `load_query_registry` guarantees of every query record. */
  ghost predicate QueryOk(q: Query) {
    && q.judgments != []
    && DistinctIds(q.judgments)
    && (forall i | 0 <= i < |q.judgments| :: q.judgments[i].grade in {1, 2} && q.judgments[i].id !in q.hard)
  }

  /** `1 / log2(rank + 1)`, of which only this is used: positive and strictly decreasing from rank 1 on. */
  type Discount = nat -> real

  ghost predicate Discounts(d: Discount) {
    forall a: nat, b: nat | 1 <= a < b :: 0.0 < d(b) < d(a)
  }

  // ---- gains ----

  function Pow2(n: nat): int { if n == 0 then 1 else 2 * Pow2(n - 1) }

  lemma {:induction false} Pow2Grows(n: nat)
    ensures Pow2(n) >= n + 1
  {
    if n > 0 { Pow2Grows(n - 1); }
  }

  /** `grades.get(id, 0)` where `grades = dict(judgments)`. */
  function GradeOf(js: seq<Judgment>, id: CaseId): nat {
    if js == [] then 0
    else if js[|js| - 1].id == id then js[|js| - 1].grade
    else GradeOf(js[..|js| - 1], id)
  }

  predicate Relevant(js: seq<Judgment>, id: CaseId) {
    exists j | j in js :: j.id == id
  }

  function Gain(js: seq<Judgment>, id: CaseId): int { Pow2(GradeOf(js, id)) - 1 }

  function Gains(js: seq<Judgment>, order: seq<CaseId>): seq<int> {
    seq(|order|, i requires 0 <= i < |order| => Gain(js, order[i]))
  }

  function GradeGains(js: seq<Judgment>): seq<int> {
    seq(|js|, i requires 0 <= i < |js| => Pow2(js[i].grade) - 1)
  }

  predicate Descending(a: int, b: int) { a >= b }

  /** The gains of all judged cases, best first. */
  function Ideal(js: seq<Judgment>): seq<int> { Sort(GradeGains(js), Descending) }

  /** The top `k`, filled up with zeros. */
  function Padded(s: seq<int>, k: nat): seq<int> {
    seq(k, i requires 0 <= i < k => if i < |s| then s[i] else 0)
  }

  function Sum(s: seq<int>): int {
    if s == [] then 0 else Sum(s[..|s| - 1]) + s[|s| - 1]
  }

  function Discounted(gain: int, rank: nat, d: Discount): real { (gain as real) * d(rank) }

  function Dcg(gains: seq<int>, d: Discount): real {
    if gains == [] then 0.0 else Dcg(gains[..|gains| - 1], d) + Discounted(gains[|gains| - 1], |gains|, d)
  }

  // ---- the rearrangement inequality ----

  function Lead(x: seq<int>, y: seq<int>): real { (Sum(y) - Sum(x)) as real }

  function Gap(x: seq<int>, y: seq<int>, d: Discount): real { Dcg(y, d) - Dcg(x, d) }

  lemma GapStep(x: seq<int>, y: seq<int>, d: Discount)
    requires |x| == |y| > 0
    ensures var x0, y0 := x[..|x| - 1], y[..|y| - 1];
            Gap(x, y, d) == Gap(x0, y0, d) + (Lead(x, y) - Lead(x0, y0)) * d(|x|)
  {
    var a, b := x[|x| - 1], y[|y| - 1];
    assert Lead(x, y) - Lead(x[..|x| - 1], y[..|y| - 1]) == b as real - a as real;
    assert (b as real - a as real) * d(|x|) == (b as real) * d(|x|) - (a as real) * d(|x|);
  }

  /** One step of the summation by parts, with the discounts before and after it. */
  lemma AbelStep(g0: real, s0: real, s: real, before: real, now: real)
    requires 0.0 < now < before && s0 >= 0.0 && s >= 0.0 && g0 >= before * s0
    ensures g0 + (s - s0) * now >= now * s >= 0.0
    ensures g0 + (s - s0) * now == 0.0 ==> s == 0.0 && s0 == 0.0 && g0 == 0.0
  {
    assert g0 + (s - s0) * now - now * s == (g0 - before * s0) + (before - now) * s0;
    assert (before - now) * s0 >= 0.0;
    if g0 + (s - s0) * now == 0.0 {
      assert now * s == 0.0;
      assert s == 0.0;
      assert (before - now) * s0 == 0.0;
      assert s0 == 0.0;
    }
  }

  ghost predicate PrefixesBelow(x: seq<int>, y: seq<int>) {
    |x| == |y| && forall m | 0 <= m <= |x| :: Sum(x[..m]) <= Sum(y[..m])
  }

  lemma PrefixesBelowFront(x: seq<int>, y: seq<int>)
    requires PrefixesBelow(x, y) && x != []
    ensures PrefixesBelow(x[..|x| - 1], y[..|y| - 1])
    ensures Lead(x, y) >= 0.0 && Lead(x[..|x| - 1], y[..|y| - 1]) >= 0.0
  {
    var x0, y0 := x[..|x| - 1], y[..|y| - 1];
    forall m | 0 <= m <= |x0| ensures Sum(x0[..m]) <= Sum(y0[..m]) {
      assert x0[..m] == x[..m] && y0[..m] == y[..m];
    }
    assert x[..|x|] == x && y[..|y|] == y;
    assert Sum(x[..|x| - 1]) <= Sum(y[..|x| - 1]);
  }

  lemma EarlierDiscount(d: Discount, n: nat)
    requires Discounts(d) && n >= 1
    ensures 0.0 < d(n) < if n == 1 then d(1) + 1.0 else d(n - 1)
  {
    assert 0.0 < d(n + 1) < d(n);
  }

  /** Lists with equal fronts and equal sums are equal. */
  lemma SameEnd(x: seq<int>, y: seq<int>)
    requires |x| == |y| > 0
    ensures x[..|x| - 1] == y[..|y| - 1] && Lead(x, y) == 0.0 && Lead(x[..|x| - 1], y[..|y| - 1]) == 0.0 ==> x == y
  {
    assert x == x[..|x| - 1] + [x[|x| - 1]] && y == y[..|y| - 1] + [y[|y| - 1]];
  }

  /**
   * Abel summation. If every prefix of `x` sums to at most the same prefix of `y`, then `x`
   * has no more discounted gain than `y`, and as much only if the two are equal.
   */
  lemma {:induction false} PrefixSumsDecide(x: seq<int>, y: seq<int>, d: Discount, before: real)
    requires Discounts(d) && PrefixesBelow(x, y)
    requires if x == [] then before == d(1) + 1.0 else before == d(|x|)
    ensures Gap(x, y, d) >= before * Lead(x, y) && Gap(x, y, d) >= 0.0
    ensures Gap(x, y, d) == 0.0 ==> x == y
  {
    var n := |x|;
    if n > 0 {
      var x0, y0 := x[..n - 1], y[..n - 1];
      var earlier := if n == 1 then d(1) + 1.0 else d(n - 1);
      PrefixesBelowFront(x, y);
      PrefixSumsDecide(x0, y0, d, earlier);
      GapStep(x, y, d);
      EarlierDiscount(d, n);
      AbelStep(Gap(x0, y0, d), Lead(x0, y0), Lead(x, y), earlier, d(n));
      SameEnd(x, y);
    }
  }

  // ---- no ranking beats the ideal order ----

  function TopSum(s: seq<int>, m: nat): int { Sum(Take(s, m)) }

  lemma TopSumStep(s: seq<int>, m: nat)
    requires m < |s|
    ensures TopSum(s, m + 1) == TopSum(s, m) + s[m]
  {
    assert Take(s, m + 1)[..m] == Take(s, m);
  }

  lemma DescendingIsTotal()
    ensures TotalOrder(Descending)
  {
  }

  /** Adding a gain to a best-first list: it can replace the last of the first `m`. */
  lemma {:induction false} InsertTop(x: int, s: seq<int>, m: nat)
    requires Sorted(s, Descending) && m >= 1
    ensures TopSum(Insert(x, s, Descending), m) >= x + TopSum(s, m - 1)
  {
    var all := Insert(x, s, Descending);
    InsertPermutes(x, s, Descending);
    if s == [] {
      assert Take(all, m) == [x] && all[..0] == [];
    } else if Descending(s[|s| - 1], x) {
      if m <= |s| {
        assert Take(all, m) == Take(s, m);
        TopSumStep(s, m - 1);
        assert m - 1 < |s| - 1 ==> Descending(s[m - 1], s[|s| - 1]);
      } else {
        assert all[..|s|] == s;
      }
    } else {
      var front := s[..|s| - 1];
      var rest := Insert(x, front, Descending);
      InsertPermutes(x, front, Descending);
      assert Take(s, m - 1) == if m <= |s| then Take(front, m - 1) else s;
      if m <= |s| {
        InsertTop(x, front, m);
        assert Take(all, m) == Take(rest, m);
      } else {
        InsertTop(x, front, |s|);
        assert all[..|s|] == rest && Take(all, m) == all;
      }
    }
  }

  lemma {:induction false} InsertNeverLowers(x: int, s: seq<int>, m: nat)
    requires Sorted(s, Descending) && x >= 0
    ensures TopSum(Insert(x, s, Descending), m) >= TopSum(s, m)
  {
    if m > 0 {
      InsertTop(x, s, m);
      if m <= |s| {
        InsertNeverLowers(x, s, m - 1);
        var all := Insert(x, s, Descending);
        InsertPermutes(x, s, Descending);
        TopSumStep(all, m - 1);
        TopSumStep(s, m - 1);
        DescendingIsTotal();
        InsertImproves(x, s, Descending, m - 1);
      }
    }
  }

  function SumOver(js: seq<Judgment>, order: seq<CaseId>): int { Sum(Gains(js, order)) }

  lemma {:induction false} UnjudgedAddsNothing(js: seq<Judgment>, order: seq<CaseId>)
    requires js != [] && js[|js| - 1].id !in order
    ensures SumOver(js, order) == SumOver(js[..|js| - 1], order)
  {
    assert Gains(js, order) == Gains(js[..|js| - 1], order);
  }

  lemma {:induction false} SumSplit(s: seq<int>, t: seq<int>)
    ensures Sum(s + t) == Sum(s) + Sum(t)
  {
    if t == [] {
      assert s + t == s;
    } else {
      SumSplit(s, t[..|t| - 1]);
      assert (s + t)[..|s + t| - 1] == s + t[..|t| - 1];
    }
  }

  lemma TakeOut(js: seq<Judgment>, order: seq<CaseId>, p: nat)
    requires p < |order|
    ensures SumOver(js, order) == SumOver(js, order[..p] + order[p + 1..]) + Gain(js, order[p])
  {
    var a, b := Gains(js, order[..p]), Gains(js, order[p + 1..]);
    assert Gains(js, order) == (a + [Gain(js, order[p])]) + b;
    assert Gains(js, order[..p] + order[p + 1..]) == a + b;
    SumSplit(a + [Gain(js, order[p])], b);
    SumSplit(a, b);
    assert (a + [Gain(js, order[p])])[..|a|] == a;
  }

  lemma GradeGainsFront(js: seq<Judgment>)
    requires js != []
    ensures GradeGains(js)[..|js| - 1] == GradeGains(js[..|js| - 1])
    ensures Ideal(js) == Insert(Pow2(js[|js| - 1].grade) - 1, Ideal(js[..|js| - 1]), Descending)
  {
  }

  lemma RemainDistinct<T>(s: seq<T>, p: nat)
    requires Distinct(s) && p < |s|
    ensures Distinct(s[..p] + s[p + 1..]) && s[p] !in s[..p] + s[p + 1..]
  {
  }

  ghost predicate DistinctIds(js: seq<Judgment>) {
    forall i, j | 0 <= i < j < |js| :: js[i].id != js[j].id
  }

  /** No `m` distinct cases carry more gain than the `m` best judged cases. */
  lemma {:induction false} BestPossible(js: seq<Judgment>, order: seq<CaseId>)
    requires Distinct(order) && DistinctIds(js)
    ensures SumOver(js, order) <= TopSum(Ideal(js), |order|)
  {
    if js == [] {
      NoJudgmentsNoGain(order);
      assert Ideal(js) == [];
    } else {
      var front, x := js[..|js| - 1], Pow2(js[|js| - 1].grade) - 1;
      GradeGainsFront(js);
      DescendingIsTotal();
      SortSorts(GradeGains(front), Descending);
      Pow2Grows(js[|js| - 1].grade);
      if js[|js| - 1].id in order {
        var p :| 0 <= p < |order| && order[p] == js[|js| - 1].id;
        var rest := order[..p] + order[p + 1..];
        RemainDistinct(order, p);
        TakeOut(js, order, p);
        UnjudgedAddsNothing(js, rest);
        BestPossible(front, rest);
        InsertTop(x, Ideal(front), |order|);
      } else {
        UnjudgedAddsNothing(js, order);
        BestPossible(front, order);
        InsertNeverLowers(x, Ideal(front), |order|);
      }
    }
  }

  lemma {:induction false} NoJudgmentsNoGain(order: seq<CaseId>)
    ensures SumOver([], order) == 0
  {
    if order != [] {
      NoJudgmentsNoGain(order[..|order| - 1]);
      assert Gains([], order)[..|order| - 1] == Gains([], order[..|order| - 1]);
    }
  }

  // ---- padding ----

  lemma {:induction false} PaddedSum(s: seq<int>, k: nat, m: nat)
    requires m <= k
    ensures Sum(Padded(s, k)[..m]) == TopSum(s, m)
  {
    if m == 0 {
      assert Take(s, 0) == [];
    } else {
      PaddedSum(s, k, m - 1);
      assert Padded(s, k)[..m][..m - 1] == Padded(s, k)[..m - 1];
      if m <= |s| { TopSumStep(s, m - 1); }
    }
  }

  lemma {:induction false} PaddedDcg(s: seq<int>, k: nat, d: Discount)
    ensures Dcg(Padded(s, k), d) == Dcg(Take(s, k), d)
  {
    if k > 0 {
      PaddedDcg(s, k - 1, d);
      assert Padded(s, k)[..k - 1] == Padded(s, k - 1);
      if k <= |s| {
        assert Take(s, k)[..k - 1] == Take(s, k - 1);
      }
    }
  }

  lemma TopGains(js: seq<Judgment>, order: seq<CaseId>, m: nat)
    ensures Take(Gains(js, order), m) == Gains(js, Take(order, m))
  {
  }

  lemma PrefixNotAboveIdeal(js: seq<Judgment>, order: seq<CaseId>, k: nat, m: nat)
    requires Distinct(order) && DistinctIds(js) && m <= k
    ensures Sum(Padded(Gains(js, order), k)[..m]) <= Sum(Padded(Ideal(js), k)[..m])
  {
    PaddedSum(Gains(js, order), k, m);
    PaddedSum(Ideal(js), k, m);
    TopGains(js, order, m);
    BestPossible(js, Take(order, m));
    if m > |order| { MoreRoomIsMore(js, |order|, m); }
  }

  /**
   * For every duplicate-free ranking and every positive, strictly decreasing discount, DCG at
   * k is at most the ideal DCG, and reaches it exactly when the top-k gains, filled up with
   * zeros, are the ideal list.
   */
  lemma DcgAtMostIdeal(js: seq<Judgment>, order: seq<CaseId>, k: nat, d: Discount)
    requires Discounts(d) && Distinct(order) && DistinctIds(js)
    ensures Dcg(Gains(js, Take(order, k)), d) <= Dcg(Take(Ideal(js), k), d)
    ensures Dcg(Gains(js, Take(order, k)), d) == Dcg(Take(Ideal(js), k), d)
            <==> Padded(Gains(js, order), k) == Padded(Ideal(js), k)
  {
    var x, y := Padded(Gains(js, order), k), Padded(Ideal(js), k);
    forall m | 0 <= m <= k ensures Sum(x[..m]) <= Sum(y[..m]) {
      PrefixNotAboveIdeal(js, order, k, m);
    }
    PrefixSumsDecide(x, y, d, if k == 0 then d(1) + 1.0 else d(k));
    PaddedDcg(Gains(js, order), k, d);
    PaddedDcg(Ideal(js), k, d);
    TopGains(js, order, k);
  }

  lemma IdealNonNegative(js: seq<Judgment>)
    ensures |Ideal(js)| == |js| && forall g | g in Ideal(js) :: g >= 0
    ensures (forall j | j in js :: j.grade >= 1) ==> forall g | g in Ideal(js) :: g >= 1
  {
    SortPermutes(GradeGains(js), Descending);
    forall g | g in Ideal(js) ensures exists i :: 0 <= i < |js| && g == Pow2(js[i].grade) - 1 {
      assert g in multiset(GradeGains(js));
      var i :| 0 <= i < |js| && GradeGains(js)[i] == g;
    }
    forall i | 0 <= i < |js| ensures Pow2(js[i].grade) - 1 >= js[i].grade { Pow2Grows(js[i].grade); }
  }

  lemma {:induction false} MoreRoomIsMore(js: seq<Judgment>, m: nat, n: nat)
    requires m <= n
    ensures TopSum(Ideal(js), m) <= TopSum(Ideal(js), n)
    decreases n
  {
    if m < n {
      MoreRoomIsMore(js, m, n - 1);
      if n <= |Ideal(js)| {
        TopSumStep(Ideal(js), n - 1);
        IdealNonNegative(js);
        assert Ideal(js)[n - 1] in Ideal(js);
      }
    }
  }
}
