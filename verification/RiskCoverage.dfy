/**
 * The area under the risk-coverage curve of `_score_metrics`.
 *
 * Cases are ranked by score, best first and ties by id. At every rank the risk is the share
 * of wrong cases up to there, and the area is the mean of these risks. The lemmas say what
 * the number means: its range and when the ends are reached, what moving one case does to
 * it, and that it does not depend on the order of the input.
 */
module RiskCoverage {
  import opened Fractions
  import opened Ordering
  import opened Prelude
  import opened TextOrder
  import opened VisualMetrics

  function IdsOf(ps: seq<Prediction>): seq<string> {
    seq(|ps|, i requires 0 <= i < |ps| => ps[i].caseId)
  }

  function Lookup(ps: seq<Prediction>, id: string): Option<Prediction> {
    if ps == [] then None
    else if ps[|ps| - 1].caseId == id then Some(ps[|ps| - 1])
    else Lookup(ps[..|ps| - 1], id)
  }

  function ScoreOf(ps: seq<Prediction>): string -> real {
    (id: string) => match Lookup(ps, id) case Some(p) => p.score case None => 0.0
  }

  predicate IsWrong(ps: seq<Prediction>, id: string) { Lookup(ps, id).Some? && !IsPositive(Lookup(ps, id).value) }

  /** The cases, best score first and ties by id. */
  function Ranked(ps: seq<Prediction>): seq<string> { Rank(IdsOf(ps), ScoreOf(ps)) }

  function Wrongs(ps: seq<Prediction>, order: seq<string>): seq<bool> {
    seq(|order|, i requires 0 <= i < |order| => IsWrong(ps, order[i]))
  }

  predicate Yes(b: bool) { b }

  function Share(count: nat, n: nat): real { if n == 0 then 0.0 else (count as real) / (n as real) }

  /** The sum, over all ranks, of the share of wrong cases up to there. */
  function RiskSum(wrong: seq<bool>, share: (nat, nat) -> real): real {
    if wrong == [] then 0.0 else RiskSum(wrong[..|wrong| - 1], share) + share(Count(wrong, Yes), |wrong|)
  }

  function AreaUnderRisk(ps: seq<Prediction>): real
    requires ps != []
  {
    RiskSum(Wrongs(ps, Ranked(ps)), Share) / (|ps| as real)
  }

  /** The ranking loop of `_score_metrics`. */
  method Aurc(ps: seq<Prediction>) returns (aurc: real)
    requires ps != [] && CasesDistinct(ps)
    ensures aurc == AreaUnderRisk(ps) && 0.0 <= aurc <= 1.0
    ensures aurc == 0.0 <==> forall p | p in ps :: IsPositive(p)
    ensures aurc == 1.0 <==> forall p | p in ps :: !IsPositive(p)
  {
    var ordered := Ranked(ps);
    var sum := SumRisks(ps, ordered);
    RankedCases(ps);
    aurc := sum / (|ordered| as real);
    AreaRange(ps);
  }

  method SumRisks(ps: seq<Prediction>, ordered: seq<string>) returns (sum: real)
    ensures sum == RiskSum(Wrongs(ps, ordered), Share)
  {
    var wrong := 0;
    sum := 0.0;
    ghost var wrongs := Wrongs(ps, ordered);
    for i := 0 to |ordered|
      invariant wrong == Count(wrongs[..i], Yes) && sum == RiskSum(wrongs[..i], Share)
    {
      assert wrongs[..i + 1] == wrongs[..i] + [wrongs[i]];
      OneMoreRank(wrongs[..i], wrongs[i], Share);
      if IsWrong(ps, ordered[i]) { wrong := wrong + 1; }
      sum := sum + Share(wrong, i + 1);
    }
    assert wrongs[..|ordered|] == wrongs;
  }

  // ---- what the area says ----

  lemma {:induction false} CountAtMost(wrong: seq<bool>)
    ensures Count(wrong, Yes) <= |wrong|
    ensures Count(wrong, Yes) == 0 <==> forall i | 0 <= i < |wrong| :: !wrong[i]
    ensures Count(wrong, Yes) == |wrong| <==> forall i | 0 <= i < |wrong| :: wrong[i]
  {
    if wrong != [] { CountAtMost(wrong[..|wrong| - 1]); }
  }

  lemma ShareRange(count: nat, n: nat)
    requires count <= n && n > 0
    ensures 0.0 <= Share(count, n) <= 1.0
    ensures Share(count, n) == 0.0 <==> count == 0
    ensures Share(count, n) == 1.0 <==> count == n
  {
    QuotientRange(count as real, n as real);
  }

  /** The sum lies between 0 and the number of ranks; the ends are reached only by rankings all right or all wrong. */
  lemma {:induction false} RiskSumRange(wrong: seq<bool>)
    ensures 0.0 <= RiskSum(wrong, Share) <= |wrong| as real
    ensures RiskSum(wrong, Share) == 0.0 <==> Count(wrong, Yes) == 0
    ensures RiskSum(wrong, Share) == |wrong| as real <==> Count(wrong, Yes) == |wrong|
  {
    if wrong != [] {
      RiskSumRange(wrong[..|wrong| - 1]);
      CountAtMost(wrong[..|wrong| - 1]);
      CountAtMost(wrong);
      ShareRange(Count(wrong, Yes), |wrong|);
    }
  }

  lemma {:induction false} LookupFound(ps: seq<Prediction>, p: Prediction)
    requires CasesDistinct(ps) && p in ps
    ensures Lookup(ps, p.caseId) == Some(p)
  {
    var front, last := ps[..|ps| - 1], ps[|ps| - 1];
    if p != last {
      var k :| 0 <= k < |front| && front[k] == p;
      assert ps[k].caseId != ps[|ps| - 1].caseId;
      LookupFound(front, p);
    }
  }

  lemma {:induction false} LookupSound(ps: seq<Prediction>, id: string)
    ensures match Lookup(ps, id)
            case Some(p) => p in ps && p.caseId == id
            case None => forall p | p in ps :: p.caseId != id
  {
    if ps != [] {
      LookupSound(ps[..|ps| - 1], id);
      assert ps == ps[..|ps| - 1] + [ps[|ps| - 1]];
    }
  }

  lemma RankedCases(ps: seq<Prediction>)
    requires CasesDistinct(ps)
    ensures |Ranked(ps)| == |ps|
    ensures forall p | p in ps :: p.caseId in Ranked(ps) && Lookup(ps, p.caseId) == Some(p)
    ensures forall id | id in Ranked(ps) :: exists p | p in ps :: p.caseId == id
  {
    RankShape(IdsOf(ps), ScoreOf(ps));
    forall p | p in ps ensures p.caseId in IdsOf(ps) && Lookup(ps, p.caseId) == Some(p) {
      LookupFound(ps, p);
      var k :| 0 <= k < |ps| && ps[k] == p;
      assert IdsOf(ps)[k] == p.caseId;
    }
    forall id | id in IdsOf(ps) ensures exists p | p in ps :: p.caseId == id {
      var k :| 0 <= k < |ps| && IdsOf(ps)[k] == id;
      assert ps[k] in ps;
    }
  }

  lemma AreaRange(ps: seq<Prediction>)
    requires ps != [] && CasesDistinct(ps)
    ensures 0.0 <= AreaUnderRisk(ps) <= 1.0
    ensures AreaUnderRisk(ps) == 0.0 <==> forall p | p in ps :: IsPositive(p)
    ensures AreaUnderRisk(ps) == 1.0 <==> forall p | p in ps :: !IsPositive(p)
  {
    var wrongs := Wrongs(ps, Ranked(ps));
    RankedCases(ps);
    WrongsOf(ps);
    CountAtMost(wrongs);
    RiskSumRange(wrongs);
    QuotientRange(RiskSum(wrongs, Share), |ps| as real);
  }

  /** The rank of a prediction. */
  lemma RankOf(ps: seq<Prediction>, p: Prediction) returns (k: nat)
    requires CasesDistinct(ps) && p in ps
    ensures k < |Ranked(ps)| && Wrongs(ps, Ranked(ps))[k] == !IsPositive(p)
  {
    RankedCases(ps);
    k :| 0 <= k < |Ranked(ps)| && Ranked(ps)[k] == p.caseId;
  }

  /** The prediction at a rank. */
  lemma AtRank(ps: seq<Prediction>, k: nat) returns (p: Prediction)
    requires CasesDistinct(ps) && k < |Ranked(ps)|
    ensures p in ps && Wrongs(ps, Ranked(ps))[k] == !IsPositive(p)
  {
    RankedCases(ps);
    assert Ranked(ps)[k] in Ranked(ps);
    p :| p in ps && p.caseId == Ranked(ps)[k];
  }

  lemma WrongsOf(ps: seq<Prediction>)
    requires CasesDistinct(ps)
    ensures var wrongs := Wrongs(ps, Ranked(ps));
            && ((forall i | 0 <= i < |wrongs| :: wrongs[i]) <==> forall p | p in ps :: !IsPositive(p))
            && ((forall i | 0 <= i < |wrongs| :: !wrongs[i]) <==> forall p | p in ps :: IsPositive(p))
  {
    var wrongs := Wrongs(ps, Ranked(ps));
    forall p | p in ps ensures exists i :: 0 <= i < |wrongs| && wrongs[i] == !IsPositive(p) {
      var k := RankOf(ps, p);
    }
    forall i | 0 <= i < |wrongs| ensures exists p | p in ps :: !IsPositive(p) == wrongs[i] {
      var p := AtRank(ps, i);
    }
  }

  lemma QuotientRange(sum: real, n: real)
    requires 0.0 <= sum <= n && n > 0.0
    ensures 0.0 <= sum / n <= 1.0 && (sum / n == 0.0 <==> sum == 0.0) && (sum / n == 1.0 <==> sum == n)
  {
    var q := sum / n;
    assert q * n == sum;
  }

  lemma OneMoreRank(front: seq<bool>, b: bool, share: (nat, nat) -> real)
    ensures Count(front + [b], Yes) == Count(front, Yes) + (if b then 1 else 0)
    ensures RiskSum(front + [b], share) == RiskSum(front, share) + share(Count(front + [b], Yes), |front| + 1)
  {
    CountAppend(front, b, Yes);
    assert (front + [b])[..|front|] == front;
  }

  lemma TwoRanks(front: seq<bool>, share: (nat, nat) -> real)
    ensures Count(front + [true, false], Yes) == Count(front + [false, true], Yes) == Count(front, Yes) + 1
    ensures RiskSum(front + [true, false], share) - share(Count(front, Yes) + 1, |front| + 1) ==
            RiskSum(front + [false, true], share) - share(Count(front, Yes), |front| + 1)
  {
    assert front + [true, false] == (front + [true]) + [false] && front + [false, true] == (front + [false]) + [true];
    OneMoreRank(front, true, share);
    OneMoreRank(front + [true], false, share);
    OneMoreRank(front, false, share);
    OneMoreRank(front + [false], true, share);
  }

  lemma LastRank(s: seq<bool>, back: seq<bool>, share: (nat, nat) -> real)
    requires back != []
    ensures var rest, last := back[..|back| - 1], back[|back| - 1];
            && Count(s + back, Yes) == Count(s + rest, Yes) + (if last then 1 else 0)
            && RiskSum(s + back, share) == RiskSum(s + rest, share) + share(Count(s + back, Yes), |s| + |back|)
  {
    var rest, last := back[..|back| - 1], back[|back| - 1];
    assert s + back == (s + rest) + [last];
    OneMoreRank(s + rest, last, share);
  }

  /** Swapping a wrong case with a right one behind it changes the sum by what the wrong one weighed there. */
  lemma {:induction false} SwapChangesOneTerm(front: seq<bool>, back: seq<bool>, share: (nat, nat) -> real)
    ensures Count(front + [true, false] + back, Yes) == Count(front + [false, true] + back, Yes)
    ensures RiskSum(front + [true, false] + back, share) - share(Count(front, Yes) + 1, |front| + 1) ==
            RiskSum(front + [false, true] + back, share) - share(Count(front, Yes), |front| + 1)
  {
    if back == [] {
      TwoRanks(front, share);
      assert front + [true, false] + back == front + [true, false] &&
             front + [false, true] + back == front + [false, true];
    } else {
      var rest, last := back[..|back| - 1], back[|back| - 1];
      SwapChangesOneTerm(front, rest, share);
      LastRank(front + [true, false], back, share);
      LastRank(front + [false, true], back, share);
    }
  }

  lemma ShareStep(count: nat, n: nat)
    requires n > 0
    ensures Share(count + 1, n) == Share(count, n) + 1.0 / (n as real)
  {
    var c, d := count as real, n as real;
    assert (c + 1.0) / d == c / d + 1.0 / d;
  }

  /** Moving a right case ahead of a wrong one takes exactly one over its rank off the sum. */
  lemma RightFirstIsLower(front: seq<bool>, back: seq<bool>)
    ensures RiskSum(front + [true, false] + back, Share) ==
            RiskSum(front + [false, true] + back, Share) + 1.0 / ((|front| + 1) as real)
  {
    SwapChangesOneTerm(front, back, Share);
    ShareStep(Count(front, Yes), |front| + 1);
  }

  // ---- the order of the predictions ----

  lemma SameMembersSameMultiset<T>(s: seq<T>, t: seq<T>)
    requires Distinct(s) && Distinct(t) && forall x :: x in s <==> x in t
    ensures multiset(s) == multiset(t)
  {
    DistinctIsOnce(s);
    DistinctIsOnce(t);
    forall x ensures multiset(s)[x] == multiset(t)[x] {
      assert x in multiset(s) <==> x in s;
      assert x in multiset(t) <==> x in t;
    }
  }

  lemma IdsDistinct(ps: seq<Prediction>)
    requires CasesDistinct(ps)
    ensures Distinct(IdsOf(ps))
  {
  }

  /** The area does not depend on the order in which the predictions are given. */
  lemma AreaIsOrderFree(ps: seq<Prediction>, qs: seq<Prediction>)
    requires ps != [] && qs != [] && CasesDistinct(ps) && CasesDistinct(qs) && forall p :: p in ps <==> p in qs
    ensures AreaUnderRisk(ps) == AreaUnderRisk(qs)
  {
    forall id
      ensures Lookup(ps, id) == Lookup(qs, id) && ScoreOf(ps)(id) == ScoreOf(qs)(id)
    {
      LookupAgrees(ps, qs, id);
    }
    IdsDistinct(ps);
    IdsDistinct(qs);
    forall id ensures id in IdsOf(ps) <==> id in IdsOf(qs) {
      IdKnown(ps, id);
      IdKnown(qs, id);
    }
    SameMembersSameMultiset(IdsOf(ps), IdsOf(qs));
    SameLength(IdsOf(ps), IdsOf(qs));
    RankAgrees(IdsOf(ps), ScoreOf(ps), ScoreOf(qs));
    BetterIsTotalOrder(ScoreOf(qs));
    SortOfPermutation(IdsOf(ps), IdsOf(qs), BetterBy(ScoreOf(qs)));
    assert Wrongs(ps, Ranked(ps)) == Wrongs(qs, Ranked(qs));
  }

  lemma LookupAgrees(ps: seq<Prediction>, qs: seq<Prediction>, id: string)
    requires CasesDistinct(qs) && forall p :: p in ps <==> p in qs
    ensures Lookup(ps, id) == Lookup(qs, id)
  {
    LookupSound(ps, id);
    LookupSound(qs, id);
    if Lookup(ps, id).Some? { LookupFound(qs, Lookup(ps, id).value); }
  }

  lemma IdKnown(ps: seq<Prediction>, id: string)
    ensures id in IdsOf(ps) <==> Lookup(ps, id).Some?
  {
    LookupSound(ps, id);
    if id in IdsOf(ps) {
      var k :| 0 <= k < |ps| && IdsOf(ps)[k] == id;
      assert ps[k] in ps;
    }
    if Lookup(ps, id).Some? {
      var k :| 0 <= k < |ps| && ps[k] == Lookup(ps, id).value;
      assert IdsOf(ps)[k] == id;
    }
  }

  // ---- the least area ----

  /** The summed risk of `n` ranks of which the first `rights` are right and all others wrong. */
  function LeastRisk(rights: nat, n: nat): real {
    if n == 0 then 0.0 else LeastRisk(rights, n - 1) + Share(if n > rights then n - rights else 0, n)
  }

  ghost predicate RightsFirst(wrong: seq<bool>, rights: nat) {
    forall i | 0 <= i < |wrong| :: wrong[i] <==> i >= rights
  }

  lemma ShareGrows(a: nat, b: nat, n: nat)
    requires a <= b && n > 0
    ensures Share(a, n) <= Share(b, n) && (Share(a, n) == Share(b, n) <==> a == b)
  {
    var x, y, m := a as real, b as real, n as real;
    assert y / m - x / m == (y - x) / m;
    if a < b { assert (y - x) / m > 0.0; }
  }

  /** With at most so many right ones the sum is no less, and equal only if they come first. */
  lemma {:induction false} LeastRiskExactly(wrong: seq<bool>, rights: nat)
    requires |wrong| <= Count(wrong, Yes) + rights
    ensures RiskSum(wrong, Share) >= LeastRisk(rights, |wrong|)
    ensures RiskSum(wrong, Share) == LeastRisk(rights, |wrong|) <==> RightsFirst(wrong, rights)
  {
    if wrong != [] {
      var front, n := wrong[..|wrong| - 1], |wrong|;
      var least := if n > rights then n - rights else 0;
      LeastRiskExactly(front, rights);
      ShareGrows(least, Count(wrong, Yes), n);
      if RightsFirst(front, rights) { CountRightsFirst(front, rights); }
      assert RightsFirst(wrong, rights) <==> RightsFirst(front, rights) && (wrong[n - 1] <==> n - 1 >= rights);
    }
  }

  lemma {:induction false} CountRightsFirst(wrong: seq<bool>, rights: nat)
    requires RightsFirst(wrong, rights)
    ensures Count(wrong, Yes) == if |wrong| > rights then |wrong| - rights else 0
  {
    if wrong != [] { CountRightsFirst(wrong[..|wrong| - 1], rights); }
  }

  lemma {:induction false} WrongsCount(ps: seq<Prediction>, order: seq<string>, wrong: string -> bool)
    requires forall id :: wrong(id) <==> IsWrong(ps, id)
    ensures Count(Wrongs(ps, order), Yes) == Count(order, wrong)
  {
    if order != [] {
      var front := order[..|order| - 1];
      WrongsCount(ps, front, wrong);
      assert Wrongs(ps, order)[..|order| - 1] == Wrongs(ps, front);
    }
  }

  /** Among the first `n` cases, those whose row is not a positive one. */
  lemma {:induction false} IdsCount(ps: seq<Prediction>, n: nat, wrong: string -> bool)
    requires n <= |ps| && forall p | p in ps :: wrong(p.caseId) <==> !IsPositive(p)
    ensures Count(IdsOf(ps)[..n], wrong) + Count(ps[..n], IsPositive) == n
  {
    if n > 0 {
      IdsCount(ps, n - 1, wrong);
      assert IdsOf(ps)[..n] == IdsOf(ps)[..n - 1] + [ps[n - 1].caseId] && ps[..n] == ps[..n - 1] + [ps[n - 1]];
      CountAppend(IdsOf(ps)[..n - 1], ps[n - 1].caseId, wrong);
      CountAppend(ps[..n - 1], ps[n - 1], IsPositive);
    }
  }

  lemma RankedCount(ps: seq<Prediction>)
    requires CasesDistinct(ps)
    ensures Count(Wrongs(ps, Ranked(ps)), Yes) + Positives(ps) == |ps|
  {
    var wrong := (id: string) => IsWrong(ps, id);
    RankedCases(ps);
    RankShape(IdsOf(ps), ScoreOf(ps));
    WrongsCount(ps, Ranked(ps), wrong);
    CountPermutation(Ranked(ps), IdsOf(ps), wrong);
    IdsCount(ps, |ps|, wrong);
    assert IdsOf(ps)[..|ps|] == IdsOf(ps) && ps[..|ps|] == ps;
  }

  /** The ranking puts `p` before `q`: a higher score, or the same and a smaller id. */
  predicate Before(p: Prediction, q: Prediction) {
    p.score > q.score || (p.score == q.score && p.caseId != q.caseId && TextLe(p.caseId, q.caseId))
  }

  ghost predicate Separated(ps: seq<Prediction>) {
    forall p, q | p in ps && q in ps && IsPositive(p) && !IsPositive(q) :: Before(p, q)
  }

  /** Earlier ranks have higher scores, or the same score and a smaller id. */
  lemma RankedByScore(ps: seq<Prediction>, i: nat, k: nat) returns (p: Prediction, q: Prediction)
    requires CasesDistinct(ps) && i < k < |Ranked(ps)|
    ensures p in ps && p.caseId == Ranked(ps)[i] && (Wrongs(ps, Ranked(ps))[i] <==> !IsPositive(p))
    ensures q in ps && q.caseId == Ranked(ps)[k] && (Wrongs(ps, Ranked(ps))[k] <==> !IsPositive(q))
    ensures Before(p, q) && !Before(q, p)
  {
    RankedCases(ps);
    IdsDistinct(ps);
    RankShape(IdsOf(ps), ScoreOf(ps));
    assert Ranked(ps)[i] in Ranked(ps) && Ranked(ps)[k] in Ranked(ps);
    p :| p in ps && p.caseId == Ranked(ps)[i];
    q :| q in ps && q.caseId == Ranked(ps)[k];
    assert BetterBy(ScoreOf(ps))(Ranked(ps)[i], Ranked(ps)[k]);
    TextTotal(p.caseId, q.caseId);
  }

  lemma SeparatedRanks(ps: seq<Prediction>)
    requires CasesDistinct(ps)
    ensures Separated(ps) <==>
            forall i, k | 0 <= i < k < |Ranked(ps)| :: Wrongs(ps, Ranked(ps))[i] ==> Wrongs(ps, Ranked(ps))[k]
  {
    var wrongs := Wrongs(ps, Ranked(ps));
    if Separated(ps) {
      forall i, k | 0 <= i < k < |wrongs| && wrongs[i] ensures wrongs[k] { var p, q := RankedByScore(ps, i, k); }
    }
    if forall i, k | 0 <= i < k < |wrongs| :: wrongs[i] ==> wrongs[k] {
      forall p, q | p in ps && q in ps && IsPositive(p) && !IsPositive(q) ensures Before(p, q) {
        InRanks(ps, p, q);
      }
    }
  }

  lemma InRanks(ps: seq<Prediction>, p: Prediction, q: Prediction)
    requires CasesDistinct(ps) && p in ps && q in ps && IsPositive(p) && !IsPositive(q)
    requires forall i, k | 0 <= i < k < |Ranked(ps)| :: Wrongs(ps, Ranked(ps))[i] ==> Wrongs(ps, Ranked(ps))[k]
    ensures Before(p, q)
  {
    RankedCases(ps);
    var i :| 0 <= i < |Ranked(ps)| && Ranked(ps)[i] == p.caseId;
    var k :| 0 <= k < |Ranked(ps)| && Ranked(ps)[k] == q.caseId;
    assert Wrongs(ps, Ranked(ps))[k] && !Wrongs(ps, Ranked(ps))[i];
    var first, second := RankedByScore(ps, i, k);
    SameCase(ps, p, first);
    SameCase(ps, q, second);
  }

  lemma SameCase(ps: seq<Prediction>, p: Prediction, q: Prediction)
    requires CasesDistinct(ps) && p in ps && q in ps && p.caseId == q.caseId
    ensures p == q
  {
    LookupFound(ps, p);
    LookupFound(ps, q);
  }

  lemma RightsFirstExactly(wrong: seq<bool>, rights: nat)
    requires Count(wrong, Yes) + rights == |wrong|
    ensures RightsFirst(wrong, rights) <==> forall i, k | 0 <= i < k < |wrong| :: wrong[i] ==> wrong[k]
  {
    if forall i, k | 0 <= i < k < |wrong| :: wrong[i] ==> wrong[k] {
      var first := FirstWrong(wrong);
      CountRightsFirst(wrong, first);
    }
  }

  lemma FirstWrong(wrong: seq<bool>) returns (first: nat)
    requires forall i, k | 0 <= i < k < |wrong| :: wrong[i] ==> wrong[k]
    ensures first <= |wrong| && RightsFirst(wrong, first)
  {
    first := 0;
    while first < |wrong| && !wrong[first]
      invariant first <= |wrong| && forall i | 0 <= i < first :: !wrong[i]
    {
      first := first + 1;
    }
  }

  /**
   * For so many positives the area is never below the least one, and it is the least exactly
   * when every positive scores higher than every other case, ties going to the smaller id.
   */
  lemma AreaLeastExactly(ps: seq<Prediction>)
    requires ps != [] && CasesDistinct(ps)
    ensures var least := LeastRisk(Positives(ps), |ps|) / (|ps| as real);
            AreaUnderRisk(ps) >= least && (AreaUnderRisk(ps) == least <==> Separated(ps))
  {
    var wrongs := Wrongs(ps, Ranked(ps));
    RankedCases(ps);
    RankedCount(ps);
    LeastRiskExactly(wrongs, Positives(ps));
    RightsFirstExactly(wrongs, Positives(ps));
    SeparatedRanks(ps);
    QuotientsCompare(RiskSum(wrongs, Share), LeastRisk(Positives(ps), |ps|), |ps| as real);
  }

  lemma QuotientsCompare(x: real, y: real, n: real)
    requires x >= y && n > 0.0
    ensures x / n >= y / n && (x / n == y / n <==> x == y)
  {
    assert x == (x / n) * n && y == (y / n) * n;
  }
}
