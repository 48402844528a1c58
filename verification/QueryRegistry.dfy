/** The query registry contract: `load_query_registry`. */
module QueryRegistry {
  import opened Prelude
  import opened Texts
  import opened AuthoringSubmission
  import opened VisualRegistry

  datatype Judgment = Judgment(caseId: Text, grade: int)

  datatype Record = Record(id: Text, group: Text, split: Text, text: Text, queryType: Word<Intent>,
                           judgments: seq<Judgment>, hardNegatives: seq<Text>, generator: Text, reviewed: bool)

  /** The text of a region type. */
  function TypeText(t: RegionType): Word<Intent> {
    match t
    case PinoutRegion => Exactly(Pinout)
    case TableRegion => Exactly(Table)
    case PackageRegion => Exactly(Package)
  }

  function CaseIds(judgments: seq<Judgment>): seq<Text> {
    seq(|judgments|, i requires 0 <= i < |judgments| => judgments[i].caseId)
  }

  // ---- the dictionaries of the source: the last entry with a key wins ----

  function ByGroup(entries: seq<Entry>, g: Text): Option<Entry> {
    if entries == [] then None
    else if Plain(entries[|entries| - 1].group.core) == g then Some(entries[|entries| - 1])
    else ByGroup(entries[..|entries| - 1], g)
  }

  function OwnIn(d: Entry, n: nat, x: Text): Option<Case>
    requires n <= |d.cases|
  {
    if n == 0 then None
    else if Plain(d.id.core + "/" + d.cases[n - 1].id.core) == x then Some(d.cases[n - 1])
    else OwnIn(d, n - 1, x)
  }

  function Owner(entries: seq<Entry>, x: Text): Option<(Entry, Case)> {
    if entries == [] then None
    else
      var d := entries[|entries| - 1];
      match OwnIn(d, |d.cases|, x)
      case Some(c) => Some((d, c))
      case None => Owner(entries[..|entries| - 1], x)
  }

  // ---- one record ----

  predicate RelevantOk(entries: seq<Entry>, q: Record, x: Text) {
    match Owner(entries, x)
    case None => false
    case Some((d, c)) => Plain(d.group.core) == q.group && c.caseLabel == Right && TypeText(c.regionType) == q.queryType
  }

  predicate HardNegativeOk(entries: seq<Entry>, q: Record, x: Text) {
    match Owner(entries, x)
    case None => false
    case Some((d, c)) =>
      Plain(d.group.core) == q.group && !(c.caseLabel == Right && TypeText(c.regionType) == q.queryType)
  }

  predicate ShapeOk(q: Record) {
    && HasText(q.id) && HasText(q.group) && HasText(q.split) && HasText(q.text) && HasText(q.generator)
    && q.judgments != [] && Distinct(CaseIds(q.judgments))
    && (forall j | j in q.judgments :: HasText(j.caseId) && 1 <= j.grade <= 2)
    && q.hardNegatives != [] && Distinct(q.hardNegatives) && (forall x | x in q.hardNegatives :: HasText(x))
    && (forall x | x in q.hardNegatives :: x !in CaseIds(q.judgments))
    && (q.split != Plain("development") ==> q.reviewed)
  }

  predicate RecordOk(entries: seq<Entry>, q: Record) {
    && ShapeOk(q)
    && (match ByGroup(entries, q.group) case None => false case Some(d) => q.split == Plain(d.split.core))
    && (forall j | j in q.judgments :: RelevantOk(entries, q, j.caseId))
    && (forall x | x in q.hardNegatives :: HardNegativeOk(entries, q, x))
  }

  function RecordIds(records: seq<Record>): seq<Text> {
    seq(|records|, i requires 0 <= i < |records| => records[i].id)
  }

  ghost predicate RecordsAccepted(entries: seq<Entry>, records: seq<Record>) {
    (forall q | q in records :: RecordOk(entries, q)) && Distinct(RecordIds(records))
  }

  /** `load_query_registry`, against a registry that has been loaded. */
  method LoadQueryRegistry(entries: seq<Entry>, records: seq<Record>) returns (accepted: bool)
    ensures accepted <==> RecordsAccepted(entries, records)
  {
    var ids: set<Text> := {};
    for i := 0 to |records|
      invariant forall q | q in records[..i] :: RecordOk(entries, q)
      invariant Distinct(RecordIds(records)[..i]) && ids == Elements(RecordIds(records)[..i])
    {
      var q := records[i];
      ghost var all := RecordIds(records);
      assert all[..i + 1] == all[..i] + [q.id] && q in records;
      DistinctAppend(all[..i], q.id);
      PrefixDistinct(all, i + 1);
      if q.id in ids || !RecordOk(entries, q) { return false; }
      ids := ids + {q.id};
    }
    assert RecordIds(records)[..|records|] == RecordIds(records) && records[..|records|] == records;
    return true;
  }

  // ---- owners are unique in an accepted registry ----

  lemma {:induction false} OwnInSound(d: Entry, n: nat, x: Text)
    requires n <= |d.cases|
    ensures match OwnIn(d, n, x)
            case Some(c) => c in d.cases && x == Plain(d.id.core + "/" + c.id.core)
            case None => forall i | 0 <= i < n :: x != Plain(d.id.core + "/" + d.cases[i].id.core)
  {
    if n > 0 { OwnInSound(d, n - 1, x); }
  }

  lemma {:induction false} OwnerSound(entries: seq<Entry>, x: Text)
    ensures match Owner(entries, x)
            case Some((d, c)) => d in entries && c in d.cases && x == Plain(d.id.core + "/" + c.id.core)
            case None => forall d, c | d in entries && c in d.cases :: x != Plain(d.id.core + "/" + c.id.core)
  {
    if entries != [] {
      var d, front := entries[|entries| - 1], entries[..|entries| - 1];
      OwnInSound(d, |d.cases|, x);
      OwnerSound(front, x);
      assert entries == front + [d];
    }
  }

  lemma {:induction false} OwnInFound(d: Entry, n: nat, i: nat)
    requires i < n <= |d.cases| && Distinct(QualifiedIds(d))
    ensures OwnIn(d, n, Plain(QualifiedIds(d)[i])) == Some(d.cases[i])
  {
    if i < n - 1 {
      assert QualifiedIds(d)[n - 1] != QualifiedIds(d)[i];
      OwnInFound(d, n - 1, i);
    }
  }

  lemma OwnInAbsent(d: Entry, x: string)
    ensures x in QualifiedIds(d) || OwnIn(d, |d.cases|, Plain(x)) == None
  {
    OwnInSound(d, |d.cases|, Plain(x));
    match OwnIn(d, |d.cases|, Plain(x))
    case None =>
    case Some(c) =>
      var m :| 0 <= m < |d.cases| && d.cases[m] == c;
      assert QualifiedIds(d)[m] == x;
  }

  /** With distinct qualified ids, a qualified id leads back to its own entry and case. */
  lemma {:induction false} OwnerFound(entries: seq<Entry>, k: nat, i: nat)
    requires k < |entries| && i < |entries[k].cases| && Distinct(AllIds(entries))
    ensures Owner(entries, Plain(QualifiedIds(entries[k])[i])) == Some((entries[k], entries[k].cases[i]))
  {
    var last, front := entries[|entries| - 1], entries[..|entries| - 1];
    var x := QualifiedIds(entries[k])[i];
    AppendDistinct(AllIds(front), QualifiedIds(last));
    if k == |entries| - 1 {
      OwnInFound(last, |last.cases|, i);
    } else {
      IdsInAll(front, k, i);
      OwnInAbsent(last, x);
      OwnerFound(front, k, i);
    }
  }

  lemma {:induction false} IdsInAll(entries: seq<Entry>, k: nat, i: nat)
    requires k < |entries| && i < |entries[k].cases|
    ensures QualifiedIds(entries[k])[i] in AllIds(entries)
  {
    if k < |entries| - 1 { IdsInAll(entries[..|entries| - 1], k, i); }
  }
}
