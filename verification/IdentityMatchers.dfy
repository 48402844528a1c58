/** The text matchers behind datasheet identity. */
module IdentityMatchers {
  // Unicode normalisation is outside the model: a phrase is the list of words it normalises to,
  // each non-empty and without a space.

  import opened Prelude

  ghost predicate Words(ws: seq<string>) {
    forall w | w in ws :: w != "" && ' ' !in w
  }

  predicate OccursAt(needle: string, text: string, i: int) {
    0 <= i && i + |needle| <= |text| && text[i..i + |needle|] == needle
  }

  /** Python's `needle in text`. */
  predicate Occurs(needle: string, text: string) {
    exists i | 0 <= i <= |text| :: OccursAt(needle, text, i)
  }

  /** `" ".join(words)`. */
  function Join(ws: seq<string>): string {
    if ws == [] then "" else if |ws| == 1 then ws[0] else ws[0] + " " + Join(ws[1..])
  }

  // ---- _contains_phrase ----

  function ContainsPhrase(haystack: seq<string>, needle: seq<string>): bool {
    Join(needle) != "" && Occurs(" " + Join(needle) + " ", " " + Join(haystack) + " ")
  }

  /** The words of the needle stand next to each other in the haystack. */
  ghost predicate ContiguousRun(haystack: seq<string>, needle: seq<string>) {
    exists k :: RunAt(haystack, needle, k)
  }

  ghost predicate RunAt(haystack: seq<string>, needle: seq<string>, k: int) {
    0 <= k && k + |needle| <= |haystack| && haystack[k..k + |needle|] == needle
  }

  /** Every word followed by one space. */
  function Spaced(ws: seq<string>): string {
    if ws == [] then "" else ws[0] + " " + Spaced(ws[1..])
  }

  lemma {:induction false} JoinIsSpaced(ws: seq<string>)
    requires ws != []
    ensures Join(ws) + " " == Spaced(ws)
  {
    if |ws| > 1 {
      JoinIsSpaced(ws[1..]);
      assert (ws[0] + " " + Join(ws[1..])) + " " == ws[0] + " " + (Join(ws[1..]) + " ");
    } else {
      assert Spaced(ws[1..]) == "";
    }
  }

  lemma {:induction false} SpacedConcat(a: seq<string>, b: seq<string>)
    ensures Spaced(a + b) == Spaced(a) + Spaced(b)
  {
    if a == [] {
      assert a + b == b;
    } else {
      SpacedConcat(a[1..], b);
      assert (a + b)[1..] == a[1..] + b;
      assert a[0] + " " + (Spaced(a[1..]) + Spaced(b)) == (a[0] + " " + Spaced(a[1..])) + Spaced(b);
    }
  }

  /** Every space of `" " + Spaced(ws)` stands in front of the spaced form of a suffix of `ws`. */
  lemma {:induction false} SpacesAreBoundaries(ws: seq<string>, i: nat) returns (k: nat)
    requires Words(ws) && i < |" " + Spaced(ws)| && (" " + Spaced(ws))[i] == ' '
    ensures k <= |ws| && (" " + Spaced(ws))[i..] == " " + Spaced(ws[k..])
  {
    var text := " " + Spaced(ws);
    if i == 0 {
      k := 0;
      assert ws[0..] == ws;
    } else {
      var w := ws[0];
      TailWords(ws);
      assert text == (" " + w) + (" " + Spaced(ws[1..]));
      FirstSpace(w, Spaced(ws[1..]));
      assert text[i] == (w + " " + Spaced(ws[1..]))[i - 1];
      assert i > |w|;
      assert (" " + Spaced(ws[1..]))[i - |w| - 1] == ' ';
      var rest := SpacesAreBoundaries(ws[1..], i - |w| - 1);
      k := rest + 1;
      assert ws[1..][rest..] == ws[k..];
      assert text[i..] == (" " + Spaced(ws[1..]))[i - |w| - 1..];
    }
  }

  /** The first space of a word and what follows it is where the word ends. */
  lemma FirstSpace(a: string, x: string)
    requires ' ' !in a
    ensures (a + " " + x)[|a|] == ' ' && forall i | 0 <= i < |a| :: (a + " " + x)[i] != ' '
  {
    forall i | 0 <= i < |a| ensures (a + " " + x)[i] != ' ' { assert a[i] in a; }
  }

  /** A word followed by a space can be read off the front of a text in one way only. */
  lemma FirstWord(a: string, b: string, x: string, y: string)
    requires ' ' !in a && ' ' !in b && a + " " + x <= b + " " + y
    ensures a == b && x <= y
  {
    var s, t := a + " " + x, b + " " + y;
    FirstSpace(a, x);
    FirstSpace(b, y);
    assert s[|a|] == t[|a|];
    assert |a| == |b|;
    assert a == s[..|a|] && b == t[..|b|] && s[..|a|] == t[..|a|];
    assert x == s[|a| + 1..] && y == t[|a| + 1..];
    assert s == t[..|s|];
    assert x == y[..|x|];
  }

  lemma TailWords(ws: seq<string>)
    requires Words(ws) && ws != []
    ensures Words(ws[1..]) && ' ' !in ws[0]
  {
    assert ws[0] in ws && forall w | w in ws[1..] :: w in ws;
  }

  lemma {:induction false} SpacedPrefix(ns: seq<string>, ws: seq<string>)
    requires Words(ns) && Words(ws) && Spaced(ns) <= Spaced(ws)
    ensures ns <= ws
  {
    if ns != [] {
      assert ws != [];
      TailWords(ns);
      TailWords(ws);
      FirstWord(ns[0], ws[0], Spaced(ns[1..]), Spaced(ws[1..]));
      SpacedPrefix(ns[1..], ws[1..]);
      assert ns == [ns[0]] + ns[1..] && ws == [ws[0]] + ws[1..];
    }
  }

  lemma PaddedJoin(ws: seq<string>)
    requires ws != []
    ensures " " + Join(ws) + " " == " " + Spaced(ws)
  {
    JoinIsSpaced(ws);
    assert " " + Join(ws) + " " == " " + (Join(ws) + " ");
  }

  lemma NoWordsNoJoin(ws: seq<string>)
    requires Words(ws)
    ensures Join(ws) == "" <==> ws == []
  {
    if ws != [] { assert ws[0] in ws; }
  }

  lemma OccurrenceIsRun(haystack: seq<string>, needle: seq<string>, i: nat)
    requires Words(haystack) && Words(needle)
    requires OccursAt(" " + Spaced(needle), " " + Spaced(haystack), i)
    ensures ContiguousRun(haystack, needle)
  {
    var text, pattern := " " + Spaced(haystack), " " + Spaced(needle);
    assert text[i] == pattern[0];
    var k := SpacesAreBoundaries(haystack, i);
    var rest := Spaced(haystack[k..]);
    assert pattern == text[i..i + |pattern|] == (" " + rest)[..|pattern|];
    assert Spaced(needle) == pattern[1..] == rest[..|pattern| - 1];
    forall w | w in haystack[k..] ensures w in haystack {}
    SpacedPrefix(needle, haystack[k..]);
    assert RunAt(haystack, needle, k);
  }

  lemma RunIsOccurrence(haystack: seq<string>, needle: seq<string>, k: nat)
    requires RunAt(haystack, needle, k)
    ensures Occurs(" " + Spaced(needle), " " + Spaced(haystack))
  {
    var before, after := haystack[..k], haystack[k + |needle|..];
    assert haystack == (before + needle) + after;
    SpacedConcat(before + needle, after);
    SpacedConcat(before, needle);
    SpacedEnds(before);
    Middle(Spaced(before), Spaced(needle), Spaced(after));
  }

  /** The space that ends `a`, or the leading one, starts the padded `b`. */
  lemma Middle(a: string, b: string, c: string)
    requires (" " + a)[|a|] == ' '
    ensures Occurs(" " + b, " " + ((a + b) + c))
  {
    var text := " " + ((a + b) + c);
    assert text[|a|..] == (" " + a)[|a|..] + (b + c);
    assert text[|a|..|a| + |" " + b|] == " " + b;
    assert OccursAt(" " + b, text, |a|);
  }

  /** The padded-substring test holds exactly when the needle's words form a contiguous run. */
  lemma PhraseIsContiguousRun(haystack: seq<string>, needle: seq<string>)
    requires Words(haystack) && Words(needle)
    ensures ContainsPhrase(haystack, needle) <==> needle != [] && ContiguousRun(haystack, needle)
  {
    NoWordsNoJoin(needle);
    if needle != [] && haystack == [] {
      assert needle[0] in needle;
      PaddedJoin(needle);
      assert |" " + Join(haystack) + " "| == 2 && |" " + Spaced(needle)| >= 3;
    } else if needle != [] {
      PaddedJoin(needle);
      PaddedJoin(haystack);
      var text, pattern := " " + Spaced(haystack), " " + Spaced(needle);
      if Occurs(pattern, text) {
        var i :| 0 <= i <= |text| && OccursAt(pattern, text, i);
        OccurrenceIsRun(haystack, needle, i);
      }
      if ContiguousRun(haystack, needle) {
        var k :| RunAt(haystack, needle, k);
        RunIsOccurrence(haystack, needle, k);
      }
    }
  }

  lemma {:induction false} SpacedEnds(ws: seq<string>)
    ensures (" " + Spaced(ws))[|Spaced(ws)|] == ' '
  {
    if ws != [] {
      SpacedEnds(ws[1..]);
      assert " " + Spaced(ws) == (" " + ws[0]) + (" " + Spaced(ws[1..]));
    }
  }

  // ---- _contains_ordered_tokens ----

  /** `at[i]` is the position in the haystack that matches word `i` of the needle. */
  ghost predicate Embeds(haystack: seq<string>, needle: seq<string>, at: seq<nat>) {
    && |at| == |needle|
    && (forall i, j | 0 <= i < j < |at| :: at[i] < at[j])
    && (forall i | 0 <= i < |at| :: at[i] < |haystack| && haystack[at[i]] == needle[i])
  }

  /** The needle is a subsequence of the haystack that spans at most `extra` further words. */
  ghost predicate OrderedWithin(haystack: seq<string>, needle: seq<string>, extra: nat) {
    exists at :: Fits(haystack, needle, extra, at)
  }

  ghost predicate Fits(haystack: seq<string>, needle: seq<string>, extra: nat, at: seq<nat>) {
    needle != [] && Embeds(haystack, needle, at) && at[|at| - 1] < at[0] + |needle| + extra
  }

  /** No choice from `start` that ends before `limit` matches more than `matched` words. */
  ghost predicate NoMore(haystack: seq<string>, needle: seq<string>, start: nat, limit: nat, matched: nat) {
    forall m, other |
      0 < m <= |needle| && Embeds(haystack, needle[..m], other) && other[0] == start && other[m - 1] < limit ::
      m <= matched
  }

  lemma OneMoreWord(haystack: seq<string>, needle: seq<string>, start: nat, next: nat, matched: nat)
    requires 1 <= matched <= |needle| && next < |haystack| && NoMore(haystack, needle, start, next, matched)
    ensures var more := matched < |needle| && haystack[next] == needle[matched];
            NoMore(haystack, needle, start, next + 1, if more then matched + 1 else matched)
  {
    forall m, other |
      0 < m <= |needle| && Embeds(haystack, needle[..m], other) && other[0] == start && other[m - 1] < next + 1
      ensures m <= matched || (m == matched + 1 && haystack[next] == needle[matched])
    {
      if m > 1 && other[m - 1] == next {
        assert Embeds(haystack, needle[..m - 1], other[..m - 1]);
        assert haystack[next] == needle[..m][m - 1];
      }
    }
  }

  /** The inner loop: words of the needle matched greedily from `start`, which matches the first one, up to `limit`. */
  method MatchFrom(haystack: seq<string>, needle: seq<string>, start: nat, limit: nat)
    returns (matched: nat, ghost at: seq<nat>)
    requires needle != [] && start < limit <= |haystack| && haystack[start] == needle[0]
    ensures 1 <= matched <= |needle| && Embeds(haystack, needle[..matched], at) && at[0] == start &&
            at[matched - 1] < limit
    ensures NoMore(haystack, needle, start, limit, matched)
  {
    matched, at := 1, [start];
    var next := start + 1;
    while next < limit
      invariant start + 1 <= next <= limit && 1 <= matched <= |needle|
      invariant Embeds(haystack, needle[..matched], at) && at[0] == start && at[matched - 1] < next
      invariant NoMore(haystack, needle, start, next, matched)
    {
      OneMoreWord(haystack, needle, start, next, matched);
      if matched < |needle| && haystack[next] == needle[matched] {
        at := at + [next];
        matched := matched + 1;
      }
      next := next + 1;
    }
  }

  /** The greedy loop holds exactly when some such subsequence exists. */
  method ContainsOrderedTokens(haystack: seq<string>, needle: seq<string>, extra: nat) returns (found: bool)
    ensures found <==> OrderedWithin(haystack, needle, extra)
  {
    if needle == [] { return false; }
    for start := 0 to |haystack|
      invariant forall at | Fits(haystack, needle, extra, at) :: at[0] >= start
    {
      if haystack[start] == needle[0] {
        var limit := if start + |needle| + extra < |haystack| then start + |needle| + extra else |haystack|;
        var matched, at := MatchFrom(haystack, needle, start, limit);
        if matched == |needle| {
          assert needle[..matched] == needle;
          assert Fits(haystack, needle, extra, at);
          return true;
        }
        forall other | Fits(haystack, needle, extra, other) ensures other[0] != start {
          assert needle[..|needle|] == needle;
        }
      }
    }
    return false;
  }

  /** A phrase match is also an ordered match, whatever slack is allowed. */
  lemma PhraseImpliesOrdered(haystack: seq<string>, needle: seq<string>, extra: nat)
    requires Words(haystack) && Words(needle) && ContainsPhrase(haystack, needle)
    ensures OrderedWithin(haystack, needle, extra)
  {
    PhraseIsContiguousRun(haystack, needle);
    var k :| RunAt(haystack, needle, k);
    var at: seq<nat> := seq(|needle|, i requires 0 <= i < |needle| => k + i);
    forall i | 0 <= i < |at| ensures haystack[at[i]] == needle[i] {
      assert haystack[k..k + |needle|][i] == haystack[k + i];
    }
    assert Fits(haystack, needle, extra, at);
  }

  // ---- _contains_exact_mpn ----

  /** `text.find(needle, start)`: the first occurrence at or after `start`, or -1. */
  method Find(text: string, needle: string, start: nat) returns (index: int)
    ensures index >= 0 ==> index >= start && OccursAt(needle, text, index)
    ensures index >= 0 ==> forall i | start <= i < index :: !OccursAt(needle, text, i)
    ensures index < 0 ==> forall i | i >= start :: !OccursAt(needle, text, i)
  {
    index := start;
    while index + |needle| <= |text|
      invariant index >= start
      invariant forall i | start <= i < index :: !OccursAt(needle, text, i)
    {
      if text[index..index + |needle|] == needle { return; }
      index := index + 1;
    }
    return -1;
  }

  /** An occurrence with no letter or digit directly before or after it. */
  ghost predicate BoundedAt(text: string, needle: string, isAlnum: char -> bool, i: int) {
    && OccursAt(needle, text, i)
    && (i == 0 || !isAlnum(text[i - 1]))
    && (i + |needle| == |text| || !isAlnum(text[i + |needle|]))
  }

  /** The scan holds exactly when some occurrence of the part number is bounded. */
  method ContainsExactMpn(text: string, needle: string, isAlnum: char -> bool) returns (found: bool)
    ensures found <==> needle != "" && exists i :: BoundedAt(text, needle, isAlnum, i)
  {
    if needle == "" { return false; }
    var start := 0;
    var index := Find(text, needle, start);
    while index >= 0
      invariant index >= 0 ==> index >= start && OccursAt(needle, text, index)
      invariant forall i | 0 <= i < (if index >= 0 then index else |text| + 1) :: !BoundedAt(text, needle, isAlnum, i)
      decreases if index >= 0 then |text| - index + 1 else 0
    {
      var end := index + |needle|;
      if (index == 0 || !isAlnum(text[index - 1])) && (end >= |text| || !isAlnum(text[end])) {
        assert BoundedAt(text, needle, isAlnum, index);
        return true;
      }
      start := index + 1;
      index := Find(text, needle, start);
    }
    assert forall i :: OccursAt(needle, text, i) ==> 0 <= i <= |text|;
    return false;
  }
}
