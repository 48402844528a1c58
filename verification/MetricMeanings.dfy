module MetricMeanings {
  // What each metric of one query is, said without its loop: counts of judged cases, ranks and grades.

  import opened Fractions
  import opened Prelude
  import opened RankingMetrics
  import opened QueryRanking

  // ---- recall ----

  function IdsFound(js: seq<Judgment>, top: seq<CaseId>): set<CaseId> { set id | id in top && Relevant(js, id) }

  /** Distinct judged cases among distinct candidates: it does not matter which of the two lists is counted. */
  lemma CountedEitherWay(js: seq<Judgment>, top: seq<CaseId>)
    requires DistinctIds(js) && Distinct(top)
    ensures Hits(js, top) == Count(js, (j: Judgment) => j.id in top)
  {
    var relevant, listed := (id: CaseId) => Relevant(js, id), (j: Judgment) => j.id in top;
    var found, judged := Filter(top, relevant), Filter(js, listed);
    CountIsFilter(top, relevant);
    CountIsFilter(js, listed);
    FilterDistinct(top, relevant);
    ElementsSize(found);
    FilterKeepsIds(js, listed);
    IdsSize(judged);
    forall id ensures id in Elements(found) <==> id in IdsFound(js, top) { FilterMember(top, relevant, id); }
    forall id ensures id in Ids(judged) <==> id in IdsFound(js, top) { JudgedMember(js, top, id); }
    assert Elements(found) == IdsFound(js, top) == Ids(judged);
  }

  lemma JudgedMember(js: seq<Judgment>, top: seq<CaseId>, id: CaseId)
    ensures id in Ids(Filter(js, (j: Judgment) => j.id in top)) <==> id in IdsFound(js, top)
  {
    var listed := (j: Judgment) => j.id in top;
    if id in Ids(Filter(js, listed)) {
      var j :| j in Filter(js, listed) && j.id == id;
      FilterMember(js, listed, j);
    }
    if id in IdsFound(js, top) {
      var j :| j in js && j.id == id;
      FilterMember(js, listed, j);
    }
  }

  lemma {:induction false} FilterKeepsIds(js: seq<Judgment>, keep: Judgment -> bool)
    requires DistinctIds(js)
    ensures DistinctIds(Filter(js, keep))
  {
    if js != [] {
      var front, last := js[..|js| - 1], js[|js| - 1];
      FilterKeepsIds(front, keep);
      forall j | j in Filter(front, keep) ensures j.id != last.id {
        FilterMember(front, keep, j);
        var i :| 0 <= i < |front| && front[i] == j;
        assert js[i].id != js[|js| - 1].id;
      }
    }
  }

  lemma {:induction false} CountFull<T>(s: seq<T>, p: T -> bool)
    ensures Count(s, p) <= |s|
    ensures Count(s, p) == |s| <==> forall x | x in s :: p(x)
  {
    if s != [] {
      CountFull(s[..|s| - 1], p);
      assert s == s[..|s| - 1] + [s[|s| - 1]];
    }
  }

  /** Recall at k is the share of the judged cases that are in the top k, and 1 exactly when all of them are. */
  lemma RecallExactly(q: Query, order: seq<CaseId>, k: nat)
    requires QueryOk(q) && Distinct(order)
    ensures var found := Count(q.judgments, (j: Judgment) => j.id in Take(order, k));
            Recall(q.judgments, order, k) * (|q.judgments| as real) == found as real
    ensures 0.0 <= Recall(q.judgments, order, k) <= 1.0
    ensures Recall(q.judgments, order, k) == 1.0 <==> forall j | j in q.judgments :: j.id in Take(order, k)
  {
    var js, top := q.judgments, Take(order, k);
    CountedEitherWay(js, top);
    CountFull(js, (j: Judgment) => j.id in top);
    ShareOf(Recall(js, order, k), Hits(js, top), |js|);
  }

  lemma ShareOf(r: real, found: nat, all: nat)
    requires found <= all && all > 0 && r == Ratio(found as real, all as real)
    ensures r * (all as real) == found as real && 0.0 <= r <= 1.0
    ensures r == 1.0 <==> found == all
  {
    RatioInUnit(found as real, all as real);
    RatioTimes(found as real, all as real);
  }

  // ---- hard negatives ----

  /** The hard negatives at k are the cases of the top k that the query lists as such, each counted once. */
  lemma HardNegativesExactly(q: Query, order: seq<CaseId>, k: nat)
    requires Distinct(order)
    ensures HardNegatives(q, order, k) == |set id | id in Take(order, k) && id in q.hard|
  {
    var top, hard := Take(order, k), (id: CaseId) => id in q.hard;
    CountIsFilter(top, hard);
    FilterDistinct(top, hard);
    ElementsSize(Filter(top, hard));
    forall id ensures id in Elements(Filter(top, hard)) <==> id in top && id in q.hard { FilterMember(top, hard, id); }
    assert Elements(Filter(top, hard)) == set id | id in top && id in q.hard;
  }

  // ---- reciprocal rank ----

  /** The reciprocal rank is at least 1/r exactly when one of the first r cases is relevant, and 0 if none is at all. */
  lemma ReciprocalRankExactly(js: seq<Judgment>, order: seq<CaseId>, r: nat)
    requires 1 <= r <= |order|
    ensures ReciprocalRank(js, order) >= 1.0 / (r as real) <==> exists i :: 0 <= i < r && Relevant(js, order[i])
    ensures ReciprocalRank(js, order) == 1.0 / (r as real) <==>
            Relevant(js, order[r - 1]) && forall i | 0 <= i < r - 1 :: !Relevant(js, order[i])
    ensures ReciprocalRank(js, order) == 0.0 <==> forall i | 0 <= i < |order| :: !Relevant(js, order[i])
  {
    FirstRelevantMeans(js, order);
    var first := FirstRelevant(js, order);
    if first == 0 {
      assert 1.0 / (r as real) > 0.0;
    } else if first < r {
      EarlierIsMore(1.0, first as real, r as real);
    } else if r < first {
      EarlierIsMore(1.0, r as real, first as real);
    }
  }

  // ---- gains ----

  lemma {:induction false} GradeFound(js: seq<Judgment>, j: Judgment)
    requires DistinctIds(js) && j in js
    ensures GradeOf(js, j.id) == j.grade
  {
    var front, last := js[..|js| - 1], js[|js| - 1];
    if j != last {
      var i :| 0 <= i < |front| && front[i] == j;
      assert js[i].id != js[|js| - 1].id;
      GradeFound(front, j);
    }
  }

  /** A candidate gains 3 for grade 2, 1 for grade 1, and nothing if it is not judged. */
  lemma GainsByGrade(q: Query, id: CaseId)
    requires QueryOk(q)
    ensures Gain(q.judgments, id) == 3 <==> exists j | j in q.judgments :: j.id == id && j.grade == 2
    ensures Gain(q.judgments, id) == 1 <==> exists j | j in q.judgments :: j.id == id && j.grade == 1
    ensures Gain(q.judgments, id) == 0 <==> !Relevant(q.judgments, id)
  {
    var js := q.judgments;
    assert Pow2(1) == 2 && Pow2(2) == 4;
    if Relevant(js, id) {
      var j :| j in js && j.id == id;
      GradeFound(js, j);
      forall other | other in js && other.id == id ensures other.grade == j.grade { GradeFound(js, other); }
    } else {
      GainOfRelevant(js, id);
    }
  }
}
