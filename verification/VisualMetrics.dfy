/** Threshold calibration of the visual verifier. Scores are reals. */
module VisualMetrics {
  import opened Fractions
  import opened Prelude
  import opened Ordering
  import opened Texts

  datatype Split = Development | Calibration | Evaluation

  datatype Label = Positive | WrongFigure | WrongView | WrongPackage | WrongVariant

  predicate WrongVisual(kind: Label) { kind in {WrongFigure, WrongView} }

  predicate WrongIdentity(kind: Label) { kind in {WrongPackage, WrongVariant} }

  datatype Prediction = Prediction(caseId: string, group: string, split: Split, kind: Label, score: real)

  /** What `Prediction.parse` guarantees. */
  ghost predicate Parsed(ps: seq<Prediction>) {
    forall p | p in ps :: 0.0 <= p.score <= 1.0
  }

  predicate IsPositive(p: Prediction) { p.kind == Positive }

  predicate InCalibration(p: Prediction) { p.split == Calibration }

  predicate Accepts(p: Prediction, threshold: real) { p.score > threshold }

  function Accepted(ps: seq<Prediction>, t: real): nat { Count(ps, p => Accepts(p, t)) }

  function AcceptedPositives(ps: seq<Prediction>, t: real): nat { Count(ps, p => Accepts(p, t) && IsPositive(p)) }

  function AcceptedWrongVisual(ps: seq<Prediction>, t: real): nat {
    Count(ps, p => Accepts(p, t) && WrongVisual(p.kind))
  }

  function AcceptedWrongIdentity(ps: seq<Prediction>, t: real): nat {
    Count(ps, p => Accepts(p, t) && WrongIdentity(p.kind))
  }

  function Positives(ps: seq<Prediction>): nat { Count(ps, IsPositive) }

  function WrongVisualRate(ps: seq<Prediction>, t: real): real {
    if Accepted(ps, t) > 0 then (AcceptedWrongVisual(ps, t) as real) / (Accepted(ps, t) as real) else 0.0
  }

  predicate Feasible(ps: seq<Prediction>, t: real, maxRate: real) {
    AcceptedWrongIdentity(ps, t) == 0 && WrongVisualRate(ps, t) <= maxRate
  }

  // ---- what the rate bounds ----

  /** The predictions a threshold accepts. */
  function Kept(ps: seq<Prediction>, t: real): seq<Prediction> { Filter(ps, (p: Prediction) => p.score > t) }

  predicate IsWrongVisual(p: Prediction) { p.kind == WrongFigure || p.kind == WrongView }

  predicate IsWrongIdentity(p: Prediction) { p.kind == WrongPackage || p.kind == WrongVariant }

  /** No accepted case is of the wrong package or variant, and few enough show the wrong figure or view. */
  ghost predicate Permitted(accepted: seq<Prediction>, maxRate: real) {
    && (forall p | p in accepted :: !IsWrongIdentity(p))
    && Count(accepted, IsWrongVisual) as real <= maxRate * (|accepted| as real)
  }

  lemma {:induction false} CountKept(ps: seq<Prediction>, t: real, q: Prediction -> bool, both: Prediction -> bool)
    requires forall p :: both(p) <==> p.score > t && q(p)
    ensures Count(Kept(ps, t), q) == Count(ps, both)
  {
    if ps != [] {
      var front, last := ps[..|ps| - 1], ps[|ps| - 1];
      CountKept(front, t, q, both);
      assert ps == front + [last];
      FilterAppend(front, last, (p: Prediction) => p.score > t);
      if last.score > t { CountAppend(Kept(front, t), last, q); } else { assert Kept(front, t) + [] == Kept(front, t); }
    }
  }

  lemma {:induction false} CountAll(ps: seq<Prediction>)
    ensures Count(ps, p => true) == |ps|
  {
    if ps != [] { CountAll(ps[..|ps| - 1]); }
  }

  lemma {:induction false} CountZero(ps: seq<Prediction>, q: Prediction -> bool)
    ensures Count(ps, q) == 0 <==> forall p | p in ps :: !q(p)
  {
    if ps != [] {
      CountZero(ps[..|ps| - 1], q);
      assert ps == ps[..|ps| - 1] + [ps[|ps| - 1]];
    }
  }

  lemma KeptCounts(ps: seq<Prediction>, t: real)
    ensures Accepted(ps, t) == |Kept(ps, t)|
    ensures AcceptedPositives(ps, t) == Count(Kept(ps, t), IsPositive)
    ensures AcceptedWrongVisual(ps, t) == Count(Kept(ps, t), IsWrongVisual)
    ensures AcceptedWrongIdentity(ps, t) == 0 <==> forall p | p in Kept(ps, t) :: !IsWrongIdentity(p)
  {
    CountKept(ps, t, p => true, p => Accepts(p, t));
    CountAll(Kept(ps, t));
    CountKept(ps, t, IsPositive, p => Accepts(p, t) && IsPositive(p));
    CountKept(ps, t, IsWrongVisual, p => Accepts(p, t) && WrongVisual(p.kind));
    CountKept(ps, t, IsWrongIdentity, p => Accepts(p, t) && WrongIdentity(p.kind));
    CountZero(Kept(ps, t), IsWrongIdentity);
  }

  lemma RateBounds(w: nat, n: nat, rate: real)
    requires w <= n && rate >= 0.0
    ensures (if n > 0 then (w as real) / (n as real) else 0.0) <= rate <==> w as real <= rate * (n as real)
  {
    if n > 0 {
      var x, m := w as real, n as real;
      var q := x / m;
      assert q * m == x;
      assert (rate - q) * m == rate * m - q * m;
      FactorSign(rate - q, m);
      ProductSign(rate - q, m);
    }
  }

  /** A threshold is feasible exactly when what it accepts is permitted. */
  lemma FeasibleExactly(ps: seq<Prediction>, t: real, maxRate: real)
    requires maxRate >= 0.0
    ensures Feasible(ps, t, maxRate) <==> Permitted(Kept(ps, t), maxRate)
  {
    KeptCounts(ps, t);
    CountShort(Kept(ps, t), IsWrongVisual);
    RateBounds(AcceptedWrongVisual(ps, t), Accepted(ps, t), maxRate);
  }

  lemma {:induction false} CountShort(ps: seq<Prediction>, q: Prediction -> bool)
    ensures Count(ps, q) <= |ps|
  {
    if ps != [] { CountShort(ps[..|ps| - 1], q); }
  }

  /** Predictions that a threshold rejects count neither for nor against it. */
  lemma RejectedDoNotMatter(ps: seq<Prediction>, p: Prediction, t: real, maxRate: real)
    requires p.score <= t
    ensures Feasible(ps + [p], t, maxRate) <==> Feasible(ps, t, maxRate)
    ensures AcceptedPositives(ps + [p], t) == AcceptedPositives(ps, t)
  {
    CountAppend(ps, p, q => Accepts(q, t));
    CountAppend(ps, p, q => Accepts(q, t) && IsPositive(q));
    CountAppend(ps, p, q => Accepts(q, t) && WrongVisual(q.kind));
    CountAppend(ps, p, q => Accepts(q, t) && WrongIdentity(q.kind));
  }

  predicate Ascending(a: real, b: real) { a <= b }

  function Scores(ps: seq<Prediction>): seq<real> {
    seq(|ps|, i requires 0 <= i < |ps| => ps[i].score)
  }

  /** `sorted({1.0, *scores})`. */
  function Candidates(ps: seq<Prediction>): seq<real> { Sort(WithoutRepeats([1.0] + Scores(ps)), Ascending) }

  function WithoutRepeats(s: seq<real>): seq<real> {
    if s == [] then []
    else
      var front := WithoutRepeats(s[..|s| - 1]);
      if s[|s| - 1] in front then front else front + [s[|s| - 1]]
  }

  /** The key `max` compares: accepted positives first, then the stricter threshold. */
  predicate BetterChoice(ps: seq<Prediction>, a: real, b: real) {
    AcceptedPositives(ps, a) > AcceptedPositives(ps, b) ||
    (AcceptedPositives(ps, a) == AcceptedPositives(ps, b) && a >= b)
  }

  ghost predicate Frozen(ps: seq<Prediction>, maxRate: real, t: real) {
    && t in Candidates(ps) && Feasible(ps, t, maxRate)
    && forall c | c in Candidates(ps) && Feasible(ps, c, maxRate) :: BetterChoice(ps, t, c)
  }

  // ---- the validated input ----

  datatype PolicyError =
    | NoPredictions | RepeatedCase | GroupLeaks | NoCalibration | NoPositives
    | BadDigest | BadRate | BadCoverage | BadSemantics | BadCalibrationName | MissingText

  ghost predicate CasesDistinct(ps: seq<Prediction>) {
    forall i, j | 0 <= i < j < |ps| :: ps[i].caseId != ps[j].caseId
  }

  ghost predicate GroupsSealed(ps: seq<Prediction>) {
    forall p, q | p in ps && q in ps && p.group == q.group :: p.split == q.split
  }

  ghost predicate GroupsSeen(ps: seq<Prediction>, groups: map<string, Split>) {
    && (forall p | p in ps :: p.group in groups && groups[p.group] == p.split)
    && (forall g | g in groups :: exists p | p in ps :: p.group == g)
  }

  lemma OneMoreCase(ps: seq<Prediction>, i: nat)
    requires i < |ps| && CasesDistinct(ps[..i])
    ensures CasesDistinct(ps[..i + 1]) <==> ps[i].caseId !in CaseIds(ps[..i])
    ensures CasesDistinct(ps) ==> ps[i].caseId !in CaseIds(ps[..i])
    ensures CaseIds(ps[..i + 1]) == CaseIds(ps[..i]) + {ps[i].caseId}
  {
    var front := ps[..i];
    assert ps[..i + 1] == front + [ps[i]];
    if ps[i].caseId in CaseIds(front) {
      var k :| 0 <= k < i && front[k].caseId == ps[i].caseId;
      assert ps[..i + 1][k].caseId == ps[..i + 1][i].caseId;
    }
  }

  function CaseIds(ps: seq<Prediction>): set<string> { set p | p in ps :: p.caseId }

  /** `_validated_predictions`: no repeated case, and no document group in two splits. */
  method Validate(ps: seq<Prediction>) returns (error: Option<PolicyError>)
    ensures error.None? <==> ps != [] && CasesDistinct(ps) && GroupsSealed(ps)
  {
    if ps == [] { return Some(NoPredictions); }
    var ids: set<string>, groups: map<string, Split> := {}, map[];
    for i := 0 to |ps|
      invariant ids == CaseIds(ps[..i]) && GroupsSeen(ps[..i], groups)
      invariant CasesDistinct(ps[..i]) && GroupsSealed(ps[..i])
    {
      OneMoreCase(ps, i);
      if ps[i].caseId in ids { return Some(RepeatedCase); }
      ids := ids + {ps[i].caseId};
      if ps[i].group !in groups {
        groups := groups[ps[i].group := ps[i].split];
      }
      if groups[ps[i].group] != ps[i].split { return Some(GroupLeaks); }
      assert ps[..i + 1] == ps[..i] + [ps[i]];
    }
    assert ps[..|ps|] == ps;
    return None;
  }

  function CalibrationOf(ps: seq<Prediction>): seq<Prediction> { Filter(ps, InCalibration) }

  datatype Semantics = Similarity | CalibratedProbability | OtherSemantics

  /** What a policy is told about its model and data. */
  datatype Names = Names(model: Text, modelSha: string, preprocessing: Text, datasetSha: string,
                         semantics: Semantics, calibration: Option<Text>)

  predicate CalibrationNameOk(n: Names) {
    match n.semantics
    case Similarity => n.calibration.None?
    case CalibratedProbability => n.calibration.Some? && HasText(n.calibration.value)
    case OtherSemantics => false
  }

  predicate NamesOk(n: Names) {
    IsSha256(n.modelSha) && IsSha256(n.datasetSha) && CalibrationNameOk(n) && HasText(n.model) &&
    HasText(n.preprocessing)
  }

  ghost predicate Freezable(ps: seq<Prediction>, n: Names, maxRate: real, minCoverage: real) {
    && ps != [] && CasesDistinct(ps) && GroupsSealed(ps) && Positives(CalibrationOf(ps)) > 0
    && 0.0 <= maxRate <= 1.0 && 0.0 <= minCoverage <= 1.0 && NamesOk(n)
  }

  /**
   * What the threshold accepts is permitted, and no score in the data, nor 1.0, whose acceptances
   * are permitted accepts more positives, or as many and is stricter.
   */
  ghost predicate BestPermitted(ps: seq<Prediction>, maxRate: real, t: real) {
    && (t == 1.0 || exists p | p in ps :: p.score == t)
    && Permitted(Kept(ps, t), maxRate)
    && forall u | (u == 1.0 || exists p | p in ps :: p.score == u) && Permitted(Kept(ps, u), maxRate) ::
         Count(Kept(ps, u), IsPositive) < Count(Kept(ps, t), IsPositive) ||
         (Count(Kept(ps, u), IsPositive) == Count(Kept(ps, t), IsPositive) && u <= t)
  }

  lemma FrozenIsBest(ps: seq<Prediction>, maxRate: real, t: real)
    requires maxRate >= 0.0
    ensures Frozen(ps, maxRate, t) <==> BestPermitted(ps, maxRate, t)
  {
    CandidateMembers(ps, t);
    FeasibleExactly(ps, t, maxRate);
    forall u
      ensures u in Candidates(ps) <==> u == 1.0 || exists p | p in ps :: p.score == u
      ensures Feasible(ps, u, maxRate) <==> Permitted(Kept(ps, u), maxRate)
      ensures AcceptedPositives(ps, u) == Count(Kept(ps, u), IsPositive)
    {
      CandidateMembers(ps, u);
      FeasibleExactly(ps, u, maxRate);
      KeptCounts(ps, u);
    }
  }

  /** `freeze_policy`. */
  method FreezePolicy(ps: seq<Prediction>, n: Names, maxRate: real, minCoverage: real)
    returns (r: Result<real, PolicyError>)
    requires Parsed(ps)
    ensures r.Ok? <==> Freezable(ps, n, maxRate, minCoverage)
    ensures r.Ok? ==> Frozen(CalibrationOf(ps), maxRate, r.value)
    ensures r.Ok? ==> BestPermitted(CalibrationOf(ps), maxRate, r.value)
    ensures forall p :: p in CalibrationOf(ps) <==> p in ps && p.split == Calibration
  {
    forall p ensures p in CalibrationOf(ps) <==> p in ps && p.split == Calibration {
      FilterMember(ps, InCalibration, p);
    }
    var error := Validate(ps);
    if error.Some? { return Err(error.value); }
    var calibration := CalibrationOf(ps);
    if calibration == [] { return Err(NoCalibration); }
    if Positives(calibration) == 0 { return Err(NoPositives); }
    if !IsSha256(n.modelSha) || !IsSha256(n.datasetSha) { return Err(BadDigest); }
    if !(0.0 <= maxRate <= 1.0) { return Err(BadRate); }
    if !(0.0 <= minCoverage <= 1.0) { return Err(BadCoverage); }
    if n.semantics.OtherSemantics? { return Err(BadSemantics); }
    var threshold := BestThreshold(calibration, maxRate);
    if !CalibrationNameOk(n) { return Err(BadCalibrationName); }
    if !HasText(n.model) || !HasText(n.preprocessing) { return Err(MissingText); }
    FrozenIsBest(calibration, maxRate, threshold);
    return Ok(threshold);
  }

  /** Keep the feasible candidate thresholds, then take the best. */
  method BestThreshold(calibration: seq<Prediction>, maxRate: real) returns (best: real)
    requires Parsed(calibration) && 0.0 <= maxRate <= 1.0
    ensures Frozen(calibration, maxRate, best)
  {
    var candidates := Candidates(calibration);
    var feasible: seq<real> := [];
    for i := 0 to |candidates|
      invariant forall c | c in feasible :: c in candidates && Feasible(calibration, c, maxRate)
      invariant forall k | 0 <= k < i && Feasible(calibration, candidates[k], maxRate) :: candidates[k] in feasible
    {
      if AcceptedWrongIdentity(calibration, candidates[i]) == 0 &&
         WrongVisualRate(calibration, candidates[i]) <= maxRate
      {
        feasible := feasible + [candidates[i]];
      }
    }
    AbstainAllIsFeasible(calibration, maxRate);
    best := feasible[0];
    for i := 1 to |feasible|
      invariant best in feasible
      invariant forall k | 0 <= k < i :: BetterChoice(calibration, best, feasible[k])
    {
      if !BetterChoice(calibration, best, feasible[i]) { best := feasible[i]; }
    }
  }

  // ---- candidates ----

  lemma {:induction false} WithoutRepeatsMembers(s: seq<real>, x: real)
    ensures x in WithoutRepeats(s) <==> x in s
  {
    if s != [] {
      WithoutRepeatsMembers(s[..|s| - 1], x);
      WithoutRepeatsMembers(s[..|s| - 1], s[|s| - 1]);
      assert s == s[..|s| - 1] + [s[|s| - 1]];
    }
  }

  lemma CandidateMembers(ps: seq<Prediction>, x: real)
    ensures x in Candidates(ps) <==> x == 1.0 || exists p | p in ps :: p.score == x
  {
    var raw := [1.0] + Scores(ps);
    SortMembers(WithoutRepeats(raw), Ascending, x);
    WithoutRepeatsMembers(raw, x);
    if x in Scores(ps) {
      var i :| 0 <= i < |ps| && Scores(ps)[i] == x;
      assert ps[i] in ps;
    }
    if exists p | p in ps :: p.score == x {
      var p :| p in ps && p.score == x;
      var i :| 0 <= i < |ps| && ps[i] == p;
      assert Scores(ps)[i] == x;
    }
  }

  lemma {:induction false} CountNone(ps: seq<Prediction>, p: Prediction -> bool)
    requires forall q | q in ps :: !p(q)
    ensures Count(ps, p) == 0
  {
    if ps != [] { CountNone(ps[..|ps| - 1], p); }
  }

  /** Threshold 1.0 accepts nothing, so a feasible choice always exists. */
  lemma AbstainAllIsFeasible(ps: seq<Prediction>, maxRate: real)
    requires Parsed(ps) && maxRate >= 0.0
    ensures 1.0 in Candidates(ps) && Feasible(ps, 1.0, maxRate) && Accepted(ps, 1.0) == 0
  {
    CandidateMembers(ps, 1.0);
    CountNone(ps, p => Accepts(p, 1.0));
    CountNone(ps, p => Accepts(p, 1.0) && WrongIdentity(p.kind));
  }

  lemma {:induction false} CountAgrees(ps: seq<Prediction>, p: Prediction -> bool, q: Prediction -> bool)
    requires forall x | x in ps :: p(x) <==> q(x)
    ensures Count(ps, p) == Count(ps, q)
  {
    if ps != [] { CountAgrees(ps[..|ps| - 1], p, q); }
  }

  /** Thresholds that accept the same predictions are interchangeable. */
  lemma SameAcceptance(ps: seq<Prediction>, t: real, u: real, maxRate: real)
    requires forall p | p in ps :: Accepts(p, t) <==> Accepts(p, u)
    ensures AcceptedPositives(ps, t) == AcceptedPositives(ps, u)
    ensures Feasible(ps, t, maxRate) <==> Feasible(ps, u, maxRate)
  {
    CountAgrees(ps, p => Accepts(p, t), p => Accepts(p, u));
    CountAgrees(ps, p => Accepts(p, t) && IsPositive(p), p => Accepts(p, u) && IsPositive(p));
    CountAgrees(ps, p => Accepts(p, t) && WrongVisual(p.kind), p => Accepts(p, u) && WrongVisual(p.kind));
    CountAgrees(ps, p => Accepts(p, t) && WrongIdentity(p.kind), p => Accepts(p, u) && WrongIdentity(p.kind));
  }

  /** The largest score not above `u`. */
  lemma {:induction false} ScoreBelow(ps: seq<Prediction>, u: real) returns (c: real)
    requires exists p | p in ps :: p.score <= u
    ensures (exists p | p in ps :: p.score == c) && c <= u
    ensures forall p | p in ps :: p.score <= c || p.score > u
  {
    var front, last := ps[..|ps| - 1], ps[|ps| - 1];
    assert ps == front + [last];
    if exists p | p in front :: p.score <= u {
      c := ScoreBelow(front, u);
      if c < last.score <= u { c := last.score; }
    } else {
      c := last.score;
    }
  }

  ghost predicate IsMinimum(ps: seq<Prediction>, low: real) {
    (exists p | p in ps :: p.score == low) && forall p | p in ps :: p.score >= low
  }

  /** No feasible real threshold at or above the smallest score accepts more positives than the frozen one. */
  lemma FrozenIsOptimal(ps: seq<Prediction>, maxRate: real, t: real, low: real, u: real)
    requires Frozen(ps, maxRate, t) && IsMinimum(ps, low)
    requires u >= low && Feasible(ps, u, maxRate)
    ensures AcceptedPositives(ps, u) <= AcceptedPositives(ps, t)
  {
    var c := ScoreBelow(ps, u);
    CandidateMembers(ps, c);
    SameAcceptance(ps, c, u, maxRate);
  }

  /** Ties go to the strictest candidate, so there is only one frozen threshold. */
  lemma FrozenIsUnique(ps: seq<Prediction>, maxRate: real, t: real, u: real)
    requires Frozen(ps, maxRate, t) && Frozen(ps, maxRate, u)
    ensures t == u
  {
    assert BetterChoice(ps, t, u) && BetterChoice(ps, u, t);
  }

  lemma {:induction false} FilterMultiplicity<T>(s: seq<T>, p: T -> bool, x: T)
    ensures multiset(Filter(s, p))[x] == if p(x) then multiset(s)[x] else 0
  {
    if s != [] {
      FilterMultiplicity(s[..|s| - 1], p, x);
      assert s == s[..|s| - 1] + [s[|s| - 1]];
    }
  }

  /** The frozen threshold does not depend on the order of the predictions. */
  lemma OrderDoesNotMatter(ps: seq<Prediction>, qs: seq<Prediction>, maxRate: real, t: real)
    requires multiset(ps) == multiset(qs)
    ensures Frozen(CalibrationOf(ps), maxRate, t) <==> Frozen(CalibrationOf(qs), maxRate, t)
  {
    forall x ensures multiset(CalibrationOf(ps))[x] == multiset(CalibrationOf(qs))[x] {
      FilterMultiplicity(ps, InCalibration, x);
      FilterMultiplicity(qs, InCalibration, x);
    }
    assert multiset(CalibrationOf(ps)) == multiset(CalibrationOf(qs));
    if Frozen(CalibrationOf(ps), maxRate, t) { FrozenTransfers(CalibrationOf(ps), CalibrationOf(qs), maxRate, t); }
    if Frozen(CalibrationOf(qs), maxRate, t) { FrozenTransfers(CalibrationOf(qs), CalibrationOf(ps), maxRate, t); }
  }

  lemma SameCounts(ps: seq<Prediction>, qs: seq<Prediction>, t: real, maxRate: real)
    requires multiset(ps) == multiset(qs)
    ensures AcceptedPositives(ps, t) == AcceptedPositives(qs, t)
    ensures Feasible(ps, t, maxRate) <==> Feasible(qs, t, maxRate)
    ensures t in Candidates(ps) <==> t in Candidates(qs)
  {
    CountPermutation(ps, qs, p => Accepts(p, t));
    CountPermutation(ps, qs, p => Accepts(p, t) && IsPositive(p));
    CountPermutation(ps, qs, p => Accepts(p, t) && WrongVisual(p.kind));
    CountPermutation(ps, qs, p => Accepts(p, t) && WrongIdentity(p.kind));
    CandidateMembers(ps, t);
    CandidateMembers(qs, t);
    assert forall p :: p in ps <==> p in multiset(ps);
    assert forall p :: p in qs <==> p in multiset(qs);
  }

  lemma FrozenTransfers(ps: seq<Prediction>, qs: seq<Prediction>, maxRate: real, t: real)
    requires multiset(ps) == multiset(qs) && Frozen(ps, maxRate, t)
    ensures Frozen(qs, maxRate, t)
  {
    SameCounts(ps, qs, t, maxRate);
    forall c | c in Candidates(qs) && Feasible(qs, c, maxRate) ensures BetterChoice(qs, t, c) {
      SameCounts(ps, qs, c, maxRate);
    }
  }

  // ---- thresholds below every score ----

  lemma {:induction false} CountMonotone(ps: seq<Prediction>, p: Prediction -> bool, q: Prediction -> bool)
    requires forall x | x in ps :: p(x) ==> q(x)
    ensures Count(ps, p) <= Count(ps, q)
    ensures (exists x | x in ps :: q(x) && !p(x)) ==> Count(ps, p) < Count(ps, q)
  {
    if ps != [] {
      var front, last := ps[..|ps| - 1], ps[|ps| - 1];
      CountMonotone(front, p, q);
      assert ps == front + [last];
    }
  }

  lemma {:induction false} LabelsSplitAccepted(ps: seq<Prediction>, t: real)
    ensures Accepted(ps, t) == AcceptedPositives(ps, t) + AcceptedWrongVisual(ps, t) + AcceptedWrongIdentity(ps, t)
  {
    if ps != [] { LabelsSplitAccepted(ps[..|ps| - 1], t); }
  }

  lemma RateFalls(w: nat, w': nat, p: nat)
    requires w' <= w && p > 0
    ensures (w' as real) / ((w' + p) as real) <= (w as real) / ((w + p) as real)
  {
    var a, a', b := w as real, w' as real, p as real;
    ProductSign(a - a', b);
    assert a * (a' + b) - a' * (a + b) == (a - a') * b;
    CrossMultiply(a', a' + b, a, a + b);
    assert (w' + p) as real == a' + b && (w + p) as real == a + b;
  }

  /** If no positive has the smallest score, rejecting the smallest scores keeps every positive and stays feasible. */
  lemma SmallestScoreIsAsGood(ps: seq<Prediction>, maxRate: real, low: real)
    requires IsMinimum(ps, low) && Positives(ps) > 0
    requires Feasible(ps, low - 1.0, maxRate)
    requires forall p | p in ps && IsPositive(p) :: p.score != low
    ensures Feasible(ps, low, maxRate) &&
            AcceptedPositives(ps, low) == AcceptedPositives(ps, low - 1.0) == Positives(ps)
  {
    var all := low - 1.0;
    CountAgrees(ps, p => Accepts(p, low) && IsPositive(p), IsPositive);
    CountAgrees(ps, p => Accepts(p, all) && IsPositive(p), IsPositive);
    CountMonotone(ps, p => Accepts(p, low) && WrongVisual(p.kind), p => Accepts(p, all) && WrongVisual(p.kind));
    CountMonotone(ps, p => Accepts(p, low) && WrongIdentity(p.kind), p => Accepts(p, all) && WrongIdentity(p.kind));
    LabelsSplitAccepted(ps, low);
    LabelsSplitAccepted(ps, all);
    RateFalls(AcceptedWrongVisual(ps, all), AcceptedWrongVisual(ps, low), Positives(ps));
  }

  /**
   * Thresholds below every score are never tried. The frozen threshold is optimal among all
   * real thresholds exactly when accepting everything is infeasible or no positive case has
   * the smallest score.
   */
  lemma OptimalOverAllReals(ps: seq<Prediction>, maxRate: real, t: real, low: real)
    requires Parsed(ps) && Frozen(ps, maxRate, t) && IsMinimum(ps, low) && Positives(ps) > 0
    ensures (forall u: real :: Feasible(ps, u, maxRate) ==> AcceptedPositives(ps, u) <= AcceptedPositives(ps, t)) <==>
            !(Feasible(ps, low - 1.0, maxRate) && exists p | p in ps :: IsPositive(p) && p.score == low)
  {
    CandidateMembers(ps, t);
    if Feasible(ps, low - 1.0, maxRate) && exists p | p in ps :: IsPositive(p) && p.score == low {
      var p :| p in ps && IsPositive(p) && p.score == low;
      assert t >= low && !Accepts(p, t) && Accepts(p, low - 1.0);
      CountMonotone(ps, q => Accepts(q, t) && IsPositive(q), q => Accepts(q, low - 1.0) && IsPositive(q));
      assert AcceptedPositives(ps, low - 1.0) > AcceptedPositives(ps, t);
    } else {
      forall u: real | Feasible(ps, u, maxRate) ensures AcceptedPositives(ps, u) <= AcceptedPositives(ps, t) {
        if u >= low {
          FrozenIsOptimal(ps, maxRate, t, low, u);
        } else {
          SameAcceptance(ps, u, low - 1.0, maxRate);
          SmallestScoreIsAsGood(ps, maxRate, low);
          CandidateMembers(ps, low);
        }
      }
    }
  }

  /** A calibration set on which a threshold below every score would have accepted more. */
  lemma AcceptAllCanBeMissed()
    ensures var ps := [Prediction("a", "g", Calibration, Positive, 0.5)];
            && Frozen(ps, 0.0, 1.0)
            && Feasible(ps, 0.25, 0.0) && AcceptedPositives(ps, 0.25) > AcceptedPositives(ps, 1.0)
  {
    var p := Prediction("a", "g", Calibration, Positive, 0.5);
    var ps := [p];
    assert ps[..0] == [];
    forall c | c in Candidates(ps) ensures c == 1.0 || c == 0.5 { CandidateMembers(ps, c); }
    CandidateMembers(ps, 1.0);
  }
}
