/**
 * Small vocabulary shared by every module of the project:
 *
 * - options and results;
 * - lists without repeats (`Distinct`) and the set of their elements;
 * - filtering and counting by a predicate, which list comprehensions and sums become;
 * - how all of these behave when one element, or one list, is appended, since the loops of
 *   the source build their lists at the end.
 */
module Prelude {

  datatype Option<+T> = None | Some(value: T)

  datatype Result<+T, +E> = Ok(value: T) | Err(error: E)

  predicate Distinct<T(==)>(s: seq<T>) {
    forall i, j | 0 <= i < j < |s| :: s[i] != s[j]
  }

  /** The first `limit` elements, or all of them. */
  function Take<T>(s: seq<T>, limit: nat): seq<T> { if |s| <= limit then s else s[..limit] }

  /** The elements of `s` that satisfy `keep`, in order. */
  function Filter<T>(s: seq<T>, keep: T -> bool): seq<T> {
    if s == [] then []
    else Filter(s[..|s| - 1], keep) + (if keep(s[|s| - 1]) then [s[|s| - 1]] else [])
  }

  lemma FilterAppend<T>(s: seq<T>, x: T, keep: T -> bool)
    ensures Filter(s + [x], keep) == Filter(s, keep) + (if keep(x) then [x] else [])
  {
    assert (s + [x])[..|s|] == s;
  }

  lemma {:induction false} FilterConcat<T>(s: seq<T>, t: seq<T>, keep: T -> bool)
    ensures Filter(s + t, keep) == Filter(s, keep) + Filter(t, keep)
  {
    if t == [] {
      assert s + t == s;
    } else {
      var front, last := t[..|t| - 1], t[|t| - 1];
      FilterConcat(s, front, keep);
      assert s + t == (s + front) + [last];
      FilterAppend(s + front, last, keep);
    }
  }

  /** Filtering twice is filtering by both. */
  lemma {:induction false} FilterTwice<T>(s: seq<T>, first: T -> bool, second: T -> bool, both: T -> bool)
    requires forall x | x in s :: both(x) <==> first(x) && second(x)
    ensures Filter(Filter(s, first), second) == Filter(s, both)
  {
    if s != [] {
      var front, last := s[..|s| - 1], s[|s| - 1];
      FilterTwice(front, first, second, both);
      assert s == front + [last];
      FilterAppend(front, last, first);
      FilterAppend(front, last, both);
      FilterAppend(Filter(front, first), last, second);
      assert Filter(front, first) + [] == Filter(front, first) && Filter(front, both) + [] == Filter(front, both);
    }
  }

  lemma {:induction false} FilterMember<T>(s: seq<T>, keep: T -> bool, x: T)
    ensures x in Filter(s, keep) <==> x in s && keep(x)
  {
    if s != [] {
      FilterMember(s[..|s| - 1], keep, x);
      assert s == s[..|s| - 1] + [s[|s| - 1]];
    }
  }

  lemma {:induction false} FilterDistinct<T>(s: seq<T>, keep: T -> bool)
    requires Distinct(s)
    ensures Distinct(Filter(s, keep))
  {
    if s != [] {
      var front := s[..|s| - 1];
      FilterDistinct(front, keep);
      FilterMember(front, keep, s[|s| - 1]);
    }
  }

  /** How many elements of `s` satisfy `p`. */
  function Count<T>(s: seq<T>, p: T -> bool): nat {
    if s == [] then 0 else Count(s[..|s| - 1], p) + (if p(s[|s| - 1]) then 1 else 0)
  }

  lemma CountAppend<T>(s: seq<T>, x: T, p: T -> bool)
    ensures Count(s + [x], p) == Count(s, p) + (if p(x) then 1 else 0)
  {
    assert (s + [x])[..|s|] == s;
  }

  lemma {:induction false} CountFound<T>(s: seq<T>, p: T -> bool) returns (x: T)
    requires Count(s, p) > 0
    ensures x in s && p(x)
  {
    if p(s[|s| - 1]) { x := s[|s| - 1]; } else { x := CountFound(s[..|s| - 1], p); }
  }

  lemma {:induction false} CountConcat<T>(s: seq<T>, t: seq<T>, p: T -> bool)
    ensures Count(s + t, p) == Count(s, p) + Count(t, p)
  {
    if t == [] {
      assert s + t == s;
    } else {
      var front := t[..|t| - 1];
      CountConcat(s, front, p);
      assert s + t == (s + front) + [t[|t| - 1]];
      CountAppend(s + front, t[|t| - 1], p);
    }
  }

  /** Counting does not look at the order of the elements. */
  lemma {:induction false} CountPermutation<T>(s: seq<T>, t: seq<T>, p: T -> bool)
    requires multiset(s) == multiset(t)
    ensures Count(s, p) == Count(t, p)
  {
    if s == [] {
      assert |multiset(t)| == |t|;
    } else {
      var x := s[|s| - 1];
      assert x in multiset(s);
      var k :| 0 <= k < |t| && t[k] == x;
      var rest := t[..k] + t[k + 1..];
      assert t == t[..k] + [x] + t[k + 1..];
      assert s == s[..|s| - 1] + [x];
      assert multiset(s[..|s| - 1]) == multiset(s) - multiset{x};
      assert multiset(rest) == multiset(t) - multiset{x};
      CountPermutation(s[..|s| - 1], rest, p);
      CountConcat(t[..k], t[k + 1..], p);
      CountConcat(t[..k] + [x], t[k + 1..], p);
      CountAppend(t[..k], x, p);
    }
  }

  /** A sequence without repeats whose elements all lie in `bound` is no longer than `bound`. */
  lemma {:induction false} DistinctFitsIn<T>(s: seq<T>, bound: set<T>)
    requires Distinct(s)
    requires forall x | x in s :: x in bound
    ensures |s| <= |bound|
    ensures |s| == |bound| ==> (forall x | x in bound :: x in s)
  {
    if s != [] {
      var x := s[|s| - 1];
      var front := s[..|s| - 1];
      assert forall y | y in front :: y in s;
      DistinctFitsIn(front, bound - {x});
      if |s| == |bound| {
        forall y | y in bound ensures y in s {
          if y != x { assert y in front; }
        }
      }
    }
  }

  function Elements<T>(s: seq<T>): set<T> { set x | x in s }

  lemma {:induction false} ElementsSize<T>(s: seq<T>)
    ensures |Elements(s)| <= |s|
    ensures Distinct(s) ==> |Elements(s)| == |s|
  {
    if s != [] {
      var front, last := s[..|s| - 1], s[|s| - 1];
      ElementsSize(front);
      assert s == front + [last];
      assert Elements(s) == Elements(front) + {last};
      if Distinct(s) { assert last !in Elements(front); }
    }
  }

  lemma ConcatDistinct<T>(a: seq<T>, b: seq<T>)
    requires Distinct(a) && Distinct(b) && forall x | x in b :: x !in a
    ensures Distinct(a + b)
  {
    forall i, j | 0 <= i < j < |a + b| ensures (a + b)[i] != (a + b)[j] {
      if i < |a| <= j { assert b[j - |a|] in b; }
    }
  }

  lemma DistinctAppend<T>(s: seq<T>, x: T)
    ensures Distinct(s + [x]) <==> Distinct(s) && x !in s
  {
    assert forall i | 0 <= i < |s| :: (s + [x])[i] == s[i];
    if x in s {
      var i :| 0 <= i < |s| && s[i] == x;
      assert (s + [x])[i] == (s + [x])[|s|];
    }
  }

  lemma PrefixDistinct<T>(s: seq<T>, n: nat)
    requires n <= |s|
    ensures Distinct(s) ==> Distinct(s[..n])
  {
  }

  lemma AppendDistinct<T>(a: seq<T>, b: seq<T>)
    ensures Distinct(a + b) <==> Distinct(a) && Distinct(b) && forall x | x in b :: x !in a
  {
    assert forall i | 0 <= i < |a| :: (a + b)[i] == a[i];
    assert forall i | 0 <= i < |b| :: (a + b)[|a| + i] == b[i];
    if Distinct(a) && Distinct(b) && forall x | x in b :: x !in a { ConcatDistinct(a, b); }
  }
}
