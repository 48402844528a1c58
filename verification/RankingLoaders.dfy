/** `load_ranking_artifact` and `load_full_corpus_ranking_artifact`, for the candidates of one query. */
module RankingLoaders {
  import opened Prelude
  import opened TextOrder

  datatype Candidate = Candidate(id: string, score: real)

  datatype LoadError = Injected | Repeated | OutOfOrder | Incomplete

  ghost predicate DistinctCandidates(raw: seq<Candidate>) {
    forall i, j | 0 <= i < j < |raw| :: raw[i].id != raw[j].id
  }

  ghost predicate PoolRanking(allowed: set<string>, raw: seq<Candidate>) {
    && (forall i | 0 <= i < |raw| :: raw[i].id in allowed)
    && DistinctCandidates(raw)
    && (forall i, j | 0 <= i < j < |raw| :: raw[j].score <= raw[i].score)
  }

  /** A judged-pool ranking is accepted exactly when it ranks distinct judged cases by descending score. */
  method LoadPoolRanking(allowed: set<string>, raw: seq<Candidate>) returns (r: Result<seq<Candidate>, LoadError>)
    ensures r.Ok? <==> PoolRanking(allowed, raw)
    ensures r.Ok? ==> r.value == raw
  {
    var seen: set<string> := {};
    var previous: Option<real> := None;
    for i := 0 to |raw|
      invariant seen == set k | 0 <= k < i :: raw[k].id
      invariant PoolRanking(allowed, raw[..i])
      invariant previous == if i == 0 then None else Some(raw[i - 1].score)
    {
      if raw[i].id !in allowed { return Err(Injected); }
      if raw[i].id in seen { return Err(Repeated); }
      if previous.Some? && raw[i].score > previous.value { return Err(OutOfOrder); }
      previous := Some(raw[i].score);
      seen := seen + {raw[i].id};
    }
    assert raw[..|raw|] == raw;
    return Ok(raw);
  }

  /** The comparison of the keys `(-score, case_id)`. */
  predicate KeyLe(a: Candidate, b: Candidate) {
    a.score > b.score || (a.score == b.score && TextLe(a.id, b.id))
  }

  ghost predicate InKeyOrder(raw: seq<Candidate>) {
    forall i | 0 < i < |raw| :: KeyLe(raw[i - 1], raw[i])
  }

  function Ids(raw: seq<Candidate>): set<string> { set c | c in raw :: c.id }

  ghost predicate FullRanking(expected: set<string>, raw: seq<Candidate>) {
    && DistinctCandidates(raw)
    && InKeyOrder(raw)
    && Ids(raw) == expected
  }

  /** The state of the loop after `done`. */
  ghost predicate Ranked(expected: set<string>, done: seq<Candidate>, seen: set<string>) {
    && seen == Ids(done) && |seen| == |done| && seen <= expected
    && DistinctCandidates(done) && InKeyOrder(done)
  }

  /** The checks of the source on the next candidate. */
  predicate NextOk(expected: set<string>, raw: seq<Candidate>, i: nat, seen: set<string>)
    requires i < |raw|
  {
    raw[i].id in expected && raw[i].id !in seen && (i > 0 ==> KeyLe(raw[i - 1], raw[i]))
  }

  lemma NextKeeps(expected: set<string>, raw: seq<Candidate>, i: nat, seen: set<string>)
    requires i < |raw| && Ranked(expected, raw[..i], seen) && NextOk(expected, raw, i, seen)
    ensures Ranked(expected, raw[..i + 1], seen + {raw[i].id})
  {
    OneMore(raw, i);
  }

  /**
   * A full-corpus ranking is accepted exactly when it ranks every expected case once, by
   * descending score with ties by id. The source compares keys with `<`; on distinct ids
   * that is the negation of `KeyLe` the other way round.
   */
  method LoadFullRanking(expected: set<string>, raw: seq<Candidate>) returns (r: Result<seq<Candidate>, LoadError>)
    ensures r.Ok? <==> FullRanking(expected, raw)
    ensures r.Ok? ==> r.value == raw
  {
    var seen: set<string> := {};
    for i := 0 to |raw|
      invariant Ranked(expected, raw[..i], seen)
    {
      if raw[i].id !in expected { return Err(Injected); }
      if raw[i].id in seen { return Err(Repeated); }
      if i > 0 && !KeyLe(raw[i - 1], raw[i]) { return Err(OutOfOrder); }
      NextKeeps(expected, raw, i, seen);
      seen := seen + {raw[i].id};
    }
    assert raw[..|raw|] == raw;
    if seen != expected || |raw| != |expected| {
      SubsetSize(seen, expected);
      return Err(Incomplete);
    }
    return Ok(raw);
  }

  lemma OneMore(raw: seq<Candidate>, i: nat)
    requires i < |raw| && DistinctCandidates(raw[..i]) && InKeyOrder(raw[..i])
    ensures Ids(raw[..i + 1]) == Ids(raw[..i]) + {raw[i].id}
    ensures raw[i].id in Ids(raw)
    ensures DistinctCandidates(raw[..i + 1]) <==> raw[i].id !in Ids(raw[..i])
    ensures DistinctCandidates(raw) ==> raw[i].id !in Ids(raw[..i])
    ensures InKeyOrder(raw[..i + 1]) <==> i == 0 || KeyLe(raw[i - 1], raw[i])
    ensures InKeyOrder(raw) ==> InKeyOrder(raw[..i + 1])
  {
    assert raw[..i + 1] == raw[..i] + [raw[i]];
    if raw[i].id in Ids(raw[..i]) {
      var k :| 0 <= k < i && raw[k].id == raw[i].id;
      assert raw[..i + 1][k].id == raw[..i + 1][i].id;
    }
    if i > 0 && InKeyOrder(raw[..i + 1]) {
      assert KeyLe(raw[..i + 1][i - 1], raw[..i + 1][i]);
    }
  }

  lemma SubsetSize<T>(a: set<T>, b: set<T>)
    requires a <= b
    ensures |a| <= |b|
    ensures |a| == |b| ==> a == b
  {
    assert b == a + (b - a);
  }
}
