/**
 * Sorting by a total order. Python's `sorted` is modelled by the function `Sort`.
 *
 * The lemmas say that its result is the only ordered rearrangement of its input, so that it
 * does not depend on the order of the input; that a list has no repeats exactly when its
 * multiset counts nothing twice; and that sorting a longer list never makes any position
 * worse. The order is a parameter: scores with ties by id, thresholds and gains all use it.
 */
module Ordering {
  import opened Prelude

  ghost predicate TotalOrder<T(!new)>(le: (T, T) -> bool) {
    && (forall x, y :: le(x, y) || le(y, x))
    && (forall x, y :: le(x, y) && le(y, x) ==> x == y)
    && (forall x, y, z :: le(x, y) && le(y, z) ==> le(x, z))
  }

  ghost predicate Sorted<T>(s: seq<T>, le: (T, T) -> bool) {
    forall i, j | 0 <= i < j < |s| :: le(s[i], s[j])
  }

  function Insert<T>(x: T, s: seq<T>, le: (T, T) -> bool): seq<T> {
    if s == [] then [x]
    else if le(s[|s| - 1], x) then s + [x]
    else Insert(x, s[..|s| - 1], le) + [s[|s| - 1]]
  }

  function Sort<T>(s: seq<T>, le: (T, T) -> bool): seq<T> {
    if s == [] then [] else Insert(s[|s| - 1], Sort(s[..|s| - 1], le), le)
  }

  lemma {:induction false} InsertPermutes<T>(x: T, s: seq<T>, le: (T, T) -> bool)
    ensures multiset(Insert(x, s, le)) == multiset(s) + multiset{x}
    ensures |Insert(x, s, le)| == |s| + 1
  {
    if s != [] && !le(s[|s| - 1], x) {
      InsertPermutes(x, s[..|s| - 1], le);
      assert s == s[..|s| - 1] + [s[|s| - 1]];
    }
  }

  lemma {:induction false} InsertKeepsSorted<T(!new)>(x: T, s: seq<T>, le: (T, T) -> bool)
    requires TotalOrder(le) && Sorted(s, le)
    ensures Sorted(Insert(x, s, le), le)
  {
    if s != [] {
      var last := s[|s| - 1];
      var front := s[..|s| - 1];
      if le(last, x) {
        forall i | 0 <= i < |s| ensures le(s[i], x) {
          assert i < |s| - 1 ==> le(s[i], last);
        }
      } else {
        InsertKeepsSorted(x, front, le);
        InsertPermutes(x, front, le);
        var longer := Insert(x, front, le);
        forall i | 0 <= i < |longer| ensures le(longer[i], last) {
          assert longer[i] in multiset(longer);
          assert longer[i] == x || longer[i] in front;
        }
      }
    }
  }

  /** `Sort` rearranges its input. */
  lemma {:induction false} SortPermutes<T>(s: seq<T>, le: (T, T) -> bool)
    ensures multiset(Sort(s, le)) == multiset(s)
    ensures |Sort(s, le)| == |s|
  {
    if s != [] {
      SortPermutes(s[..|s| - 1], le);
      InsertPermutes(s[|s| - 1], Sort(s[..|s| - 1], le), le);
      assert s == s[..|s| - 1] + [s[|s| - 1]];
    }
  }

  /** `Sort` orders its input. */
  lemma {:induction false} SortSorts<T(!new)>(s: seq<T>, le: (T, T) -> bool)
    requires TotalOrder(le)
    ensures Sorted(Sort(s, le), le)
  {
    if s != [] {
      SortSorts(s[..|s| - 1], le);
      InsertKeepsSorted(s[|s| - 1], Sort(s[..|s| - 1], le), le);
    }
  }

  lemma LastIsMaximal<T>(s: seq<T>, le: (T, T) -> bool, x: T)
    requires Sorted(s, le) && x in s
    ensures le(x, s[|s| - 1]) || x == s[|s| - 1]
  {
  }

  lemma DropLast<T>(s: seq<T>)
    requires s != []
    ensures multiset(s[..|s| - 1]) == multiset(s) - multiset{s[|s| - 1]}
  {
    assert s == s[..|s| - 1] + [s[|s| - 1]];
  }

  lemma FrontsAgree<T>(s: seq<T>, t: seq<T>)
    requires s != [] && t != [] && multiset(s) == multiset(t) && s[|s| - 1] == t[|t| - 1]
    ensures multiset(s[..|s| - 1]) == multiset(t[..|t| - 1])
  {
    DropLast(s);
    DropLast(t);
  }

  lemma SameLength<T>(s: seq<T>, t: seq<T>)
    requires multiset(s) == multiset(t)
    ensures |s| == |t|
  {
    assert |multiset(s)| == |multiset(t)|;
  }

  /** There is only one ordered rearrangement. */
  lemma {:induction false} SortedUnique<T(!new)>(s: seq<T>, t: seq<T>, le: (T, T) -> bool)
    requires TotalOrder(le) && Sorted(s, le) && Sorted(t, le)
    requires multiset(s) == multiset(t)
    ensures s == t
  {
    SameLength(s, t);
    if s != [] {
      LastsAgree(s, t, le);
      FrontsAgree(s, t);
      SortedUnique(s[..|s| - 1], t[..|t| - 1], le);
    }
  }

  lemma LastsAgree<T(!new)>(s: seq<T>, t: seq<T>, le: (T, T) -> bool)
    requires TotalOrder(le) && Sorted(s, le) && Sorted(t, le) && s != [] && t != []
    requires multiset(s) == multiset(t)
    ensures s[|s| - 1] == t[|t| - 1]
  {
    var a, b := s[|s| - 1], t[|t| - 1];
    assert a in multiset(t) && b in multiset(s);
    LastIsMaximal(t, le, a);
    LastIsMaximal(s, le, b);
  }

  lemma SortOfPermutation<T(!new)>(s: seq<T>, t: seq<T>, le: (T, T) -> bool)
    requires TotalOrder(le) && multiset(s) == multiset(t)
    ensures Sort(s, le) == Sort(t, le)
  {
    SortSorts(s, le);
    SortSorts(t, le);
    SortPermutes(s, le);
    SortPermutes(t, le);
    SortedUnique(Sort(s, le), Sort(t, le), le);
  }

  lemma SortMembers<T>(s: seq<T>, le: (T, T) -> bool, x: T)
    ensures x in Sort(s, le) <==> x in s
  {
    SortPermutes(s, le);
    assert x in multiset(s) <==> x in multiset(Sort(s, le));
  }

  lemma SortDistinct<T>(s: seq<T>, le: (T, T) -> bool)
    requires Distinct(s)
    ensures Distinct(Sort(s, le))
  {
    SortPermutes(s, le);
    DistinctIsOnce(s);
    OnceIsDistinct(Sort(s, le));
  }

  lemma {:induction false} DistinctIsOnce<T>(s: seq<T>)
    requires Distinct(s)
    ensures forall x :: multiset(s)[x] <= 1
  {
    if s != [] {
      var front := s[..|s| - 1];
      DistinctIsOnce(front);
      assert s == front + [s[|s| - 1]];
      assert s[|s| - 1] !in front;
    }
  }

  lemma OnceIsDistinct<T>(s: seq<T>)
    requires forall x :: multiset(s)[x] <= 1
    ensures Distinct(s)
  {
    forall i, j | 0 <= i < j < |s| ensures s[i] != s[j] {
      RepeatCountsTwice(s, i, j);
    }
  }

  lemma RepeatCountsTwice<T>(s: seq<T>, i: nat, j: nat)
    requires i < j < |s|
    ensures s[i] == s[j] ==> multiset(s)[s[i]] >= 2
  {
    assert s == s[..j] + [s[j]] + s[j + 1..];
    assert s[i] in s[..j];
  }

  lemma {:induction false} RepeatFound<T>(s: seq<T>, x: T) returns (i: nat, j: nat)
    requires multiset(s)[x] >= 2
    ensures i < j < |s| && s[i] == x == s[j]
  {
    var front, last := s[..|s| - 1], s[|s| - 1];
    assert s == front + [last];
    if last == x {
      assert x in multiset(front);
      i :| 0 <= i < |front| && front[i] == x;
      j := |front|;
    } else {
      i, j := RepeatFound(front, x);
    }
  }

  /** Inserting one more element never makes any position of a sorted list worse. */
  lemma {:induction false} InsertImproves<T(!new)>(x: T, s: seq<T>, le: (T, T) -> bool, r: nat)
    requires TotalOrder(le) && Sorted(s, le) && r < |s|
    ensures |Insert(x, s, le)| == |s| + 1 && le(Insert(x, s, le)[r], s[r])
  {
    InsertPermutes(x, s, le);
    if !le(s[|s| - 1], x) {
      var front := s[..|s| - 1];
      InsertPermutes(x, front, le);
      if r < |s| - 1 {
        InsertImproves(x, front, le, r);
      } else {
        InsertKeepsSorted(x, s, le);
      }
    }
  }

  /** Sorting a longer list gives, at every position of the shorter result, an element at least as good. */
  lemma {:induction false} SortImproves<T(!new)>(s: seq<T>, more: seq<T>, le: (T, T) -> bool, r: nat)
    requires TotalOrder(le) && r < |s|
    ensures |Sort(s, le)| == |s| && |Sort(s + more, le)| == |s| + |more|
    ensures le(Sort(s + more, le)[r], Sort(s, le)[r])
    decreases |more|
  {
    SortPermutes(s, le);
    SortPermutes(s + more, le);
    if more == [] {
      assert s + more == s;
    } else {
      var front := more[..|more| - 1];
      SortImproves(s, front, le, r);
      assert (s + more)[..|s + more| - 1] == s + front;
      SortSorts(s + front, le);
      SortPermutes(s + front, le);
      InsertImproves(more[|more| - 1], Sort(s + front, le), le, r);
    }
  }
}
