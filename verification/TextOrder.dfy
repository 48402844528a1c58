/**
 * Python's order on strings: by character, a proper prefix first.
 *
 * Every ranking of the project is ordered by a key of the form `(-score, id)`: better scores
 * first, ties by id. `Better` is that comparison for a score given as a function of the id,
 * and the lemmas show that both comparisons are total orders, which is what `Ordering` needs
 * to know about them.
 */
module TextOrder {
  import opened Ordering
  import opened Prelude

  predicate TextLe(a: string, b: string) {
    a == "" || (b != "" && (a[0] < b[0] || (a[0] == b[0] && TextLe(a[1..], b[1..]))))
  }

  lemma {:induction false} TextTotal(a: string, b: string)
    ensures TextLe(a, b) || TextLe(b, a)
    ensures TextLe(a, b) && TextLe(b, a) ==> a == b
  {
    if a != "" && b != "" {
      TextTotal(a[1..], b[1..]);
      assert a == [a[0]] + a[1..] && b == [b[0]] + b[1..];
    }
  }

  lemma {:induction false} TextTransitive(a: string, b: string, c: string)
    requires TextLe(a, b) && TextLe(b, c)
    ensures TextLe(a, c)
  {
    if a != "" && a[0] == b[0] == c[0] { TextTransitive(a[1..], b[1..], c[1..]); }
  }

  lemma TextIsTotalOrder()
    ensures TotalOrder(TextLe)
  {
    forall a, b ensures (TextLe(a, b) || TextLe(b, a)) && (TextLe(a, b) && TextLe(b, a) ==> a == b) { TextTotal(a, b); }
    forall a, b, c | TextLe(a, b) && TextLe(b, c) ensures TextLe(a, c) { TextTransitive(a, b, c); }
  }

  /** Score descending, then text ascending. */
  predicate Better(score: string -> real, a: string, b: string) {
    score(a) > score(b) || (score(a) == score(b) && TextLe(a, b))
  }

  function BetterBy(score: string -> real): (string, string) -> bool {
    (a, b) => Better(score, a, b)
  }

  lemma BetterIsTotalOrder(score: string -> real)
    ensures TotalOrder(BetterBy(score))
  {
    var le := BetterBy(score);
    TextIsTotalOrder();
    forall a, b ensures (le(a, b) || le(b, a)) && (le(a, b) && le(b, a) ==> a == b) {}
    forall a, b, c | le(a, b) && le(b, c) ensures le(a, c) {}
  }

  // ---- ranking ----

  /** `sorted(ids, key=lambda id: (-score[id], id))`. */
  function Rank(ids: seq<string>, score: string -> real): seq<string> { Sort(ids, BetterBy(score)) }

  lemma {:induction false} InsertAgrees(x: string, ids: seq<string>, f: string -> real, g: string -> real)
    requires f(x) == g(x) && forall id | id in ids :: f(id) == g(id)
    ensures Insert(x, ids, BetterBy(f)) == Insert(x, ids, BetterBy(g))
  {
    if ids != [] { InsertAgrees(x, ids[..|ids| - 1], f, g); }
  }

  /** Ranking looks at the scores of the ranked regions only. */
  lemma {:induction false} RankAgrees(ids: seq<string>, f: string -> real, g: string -> real)
    requires forall id | id in ids :: f(id) == g(id)
    ensures Rank(ids, f) == Rank(ids, g)
  {
    if ids != [] {
      var front := ids[..|ids| - 1];
      RankAgrees(front, f, g);
      forall id | id in Rank(front, f) ensures f(id) == g(id) { SortMembers(front, BetterBy(f), id); }
      InsertAgrees(ids[|ids| - 1], Rank(front, f), f, g);
    }
  }

  lemma RankShape(ids: seq<string>, score: string -> real)
    ensures |Rank(ids, score)| == |ids| && multiset(Rank(ids, score)) == multiset(ids)
    ensures Sorted(Rank(ids, score), BetterBy(score))
    ensures Distinct(ids) ==> Distinct(Rank(ids, score))
    ensures forall id :: id in Rank(ids, score) <==> id in ids
  {
    BetterIsTotalOrder(score);
    SortPermutes(ids, BetterBy(score));
    SortSorts(ids, BetterBy(score));
    if Distinct(ids) { SortDistinct(ids, BetterBy(score)); }
    forall id ensures id in Rank(ids, score) <==> id in ids { SortMembers(ids, BetterBy(score), id); }
  }
}
