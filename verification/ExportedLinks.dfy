/**
 * The links of exported queries.
 *
 * A query names regions by id; the export keeps the ids it has mapped to cases, qualifies
 * them with the document id, and may fall back to other negatives. These lemmas follow one
 * id along that way: from the submission to a case, and from the qualified id back through
 * the query loader's table of owners.
 */
module ExportedLinks {
  import opened Prelude
  import opened Texts
  import opened AuthoringSubmission
  import opened VisualRegistry
  import opened QueryRegistry
  import opened CycleExport
  import opened ExportedCases

  // ---- region ids ----

  lemma SameRegion(regions: seq<Region>, r: Region, s: Region)
    requires DistinctRegions(regions) && r in regions && s in regions && r.id.core == s.id.core
    ensures r == s
  {
    var i :| 0 <= i < |regions| && regions[i] == r;
    var j :| 0 <= j < |regions| && regions[j] == s;
  }

  /** A linked id that is exported belongs to a region with exactly that id. */
  lemma LinkedRegion(regions: seq<Region>, x: Text, s: Region) returns (r: Region)
    requires DistinctRegions(regions) && s in regions && x == Plain(s.id.core) && x in ExportedIds(regions)
    ensures r == s && r in regions && Exported(r) && r.id == x
  {
    r :| r in regions && Exported(r) && r.id == x;
    SameRegion(regions, r, s);
  }

  lemma {:induction false} OtherNegativesMember(cases: seq<Case>, relevant: seq<Text>, x: Text)
    ensures x in OtherNegatives(cases, relevant) <==>
            exists c | c in cases :: c.id == x && x !in relevant && c.caseLabel != Right
  {
    if cases != [] {
      var last, front := cases[|cases| - 1], cases[..|cases| - 1];
      OtherNegativesMember(front, relevant, x);
      assert cases == front + [last];
    }
  }

  lemma ExportedNegativeUnlinked(regions: seq<Region>, r: Region, q: Query)
    requires DistinctRegions(regions) && LinksOk(q, regions) && r in regions && ExportedNegative(r)
    ensures r.id !in q.relevant
  {
    forall p | p in regions ensures !RelevantRegion(p, r.id, q.intent.word) {
      if p.id.core == r.id.core { SameRegion(regions, p, r); }
    }
  }

  /** A query of an accepted submission finds a hard negative exactly when some negative is exported. */
  lemma HardNegativesExist(regions: seq<Region>, identity: Identity, q: Query)
    requires DistinctRegions(regions) && LinksOk(q, regions)
    ensures HardNegatives(q, Oppose(CasesOf(regions, identity))) != [] <==> HasExportedNegative(regions)
  {
    var cases := Oppose(CasesOf(regions, identity));
    MappedAreExported(regions, identity);
    if HasExportedNegative(regions) {
      var r :| r in regions && ExportedNegative(r);
      var c := CaseFor(regions, identity, r);
      ExportedNegativeUnlinked(regions, r, q);
      OtherNegativesMember(cases, q.relevant, c.id);
    }
    if HardNegatives(q, cases) != [] { var r := HardNegativeSource(regions, identity, q, HardNegatives(q, cases)[0]); }
  }

  lemma HardNegativeSource(regions: seq<Region>, identity: Identity, q: Query, x: Text) returns (r: Region)
    requires DistinctRegions(regions) && LinksOk(q, regions) &&
             x in HardNegatives(q, Oppose(CasesOf(regions, identity)))
    ensures r in regions && ExportedNegative(r) && r.id == x
  {
    var cases := Oppose(CasesOf(regions, identity));
    MappedAreExported(regions, identity);
    KeptMember(q.hardNegatives, ExportedIds(regions), x);
    OtherNegativesMember(cases, q.relevant, x);
    if Kept(q.hardNegatives, MappedIds(cases)) == [] {
      var c :| c in cases && c.id == x && c.caseLabel != Right;
      r := CaseFrom(regions, identity, c);
    } else {
      var s :| s in regions && NegativeRegion(s, x);
      r := LinkedRegion(regions, x, s);
    }
  }

  // ---- qualified ids ----

  lemma QualifiedPlain(t: Text, u: Text)
    requires Trimmed(t) && Trimmed(u)
    ensures Qualified(t, u) == Plain(t.core + "/" + u.core)
  {
    assert t.core + "" + "/" + "" + u.core == t.core + "/" + u.core;
  }

  lemma QualifiedInjective(t: Text, u: Text, v: Text)
    requires Trimmed(t) && Trimmed(u) && Trimmed(v) && Qualified(t, u) == Qualified(t, v)
    ensures u == v
  {
    QualifiedPlain(t, u);
    QualifiedPlain(t, v);
    var n := |t.core + "/"|;
    assert u.core == (t.core + "/" + u.core)[n..] && v.core == (t.core + "/" + v.core)[n..];
  }

  lemma QualifyAllDistinct(t: Text, ids: seq<Text>)
    requires Trimmed(t) && forall x | x in ids :: Trimmed(x)
    ensures Distinct(QualifyAll(t, ids)) <==> Distinct(ids)
  {
    forall i, j | 0 <= i < j < |ids| ensures QualifyAll(t, ids)[i] == QualifyAll(t, ids)[j] <==> ids[i] == ids[j] {
      if Qualified(t, ids[i]) == Qualified(t, ids[j]) { QualifiedInjective(t, ids[i], ids[j]); }
    }
  }

  /** A trimmed case id leads the query loader back to its own case. */
  lemma OwnCase(entries: seq<Entry>, k: nat, c: Case)
    requires k < |entries| && c in entries[k].cases && Distinct(AllIds(entries)) && Trimmed(entries[k].id) &&
             Trimmed(c.id)
    ensures Owner(entries, Qualified(entries[k].id, c.id)) == Some((entries[k], c))
  {
    var i :| 0 <= i < |entries[k].cases| && entries[k].cases[i] == c;
    QualifiedPlain(entries[k].id, c.id);
    OwnerFound(entries, k, i);
  }

  // ---- links ----

  /** The relevant ids of an accepted query that the export keeps. */
  function KeptRelevant(d: Document, q: Query): seq<Text> { Kept(q.relevant, ExportedIds(d.regions)) }

  function KeptHard(d: Document, q: Query): seq<Text> { Kept(q.hardNegatives, ExportedIds(d.regions)) }

  predicate NegativesTrimmed(regions: seq<Region>) {
    forall r | r in regions && ExportedNegative(r) :: Trimmed(r.id)
  }

  /**
   * What a caller has to see to for one query: its intent carries no blanks, something relevant
   * survives, and nothing that survives is repeated; when no hard negative survives, there are
   * exported negatives and their ids are trimmed.
   */
  ghost predicate QueryUsable(d: Document, q: Query) {
    && q.intent.Exact()
    && KeptRelevant(d, q) != [] && Distinct(KeptRelevant(d, q))
    && (if KeptHard(d, q) == [] then HasExportedNegative(d.regions) && NegativesTrimmed(d.regions)
        else Distinct(KeptHard(d, q)))
  }

  lemma KeptMember(ids: seq<Text>, mapped: set<Text>, x: Text)
    ensures x in Kept(ids, mapped) <==> x in ids && x in mapped
  {
    FilterMember(ids, (y: Text) => y in mapped, x);
  }

  lemma RelevantCase(d: Document, identity: Identity, q: Query, x: Text) returns (c: Case)
    requires DistinctRegions(d.regions) && LinksOk(q, d.regions) && x in KeptRelevant(d, q)
    ensures Trimmed(x) && c in Oppose(CasesOf(d.regions, identity)) && c.id == x
    ensures c.caseLabel == Right && TypeOf(Positive, q.intent.word) == Some(c.regionType)
  {
    KeptMember(q.relevant, ExportedIds(d.regions), x);
    var s :| s in d.regions && RelevantRegion(s, x, q.intent.word);
    var r := LinkedRegion(d.regions, x, s);
    c := CaseFor(d.regions, identity, r);
  }

  lemma NegativeCase(d: Document, identity: Identity, q: Query, x: Text) returns (c: Case)
    requires DistinctRegions(d.regions) && LinksOk(q, d.regions) && x in KeptHard(d, q)
    ensures Trimmed(x) && c in Oppose(CasesOf(d.regions, identity)) && c.id == x && c.caseLabel != Right
    ensures x !in q.relevant
  {
    KeptMember(q.hardNegatives, ExportedIds(d.regions), x);
    var s :| s in d.regions && NegativeRegion(s, x);
    var r := LinkedRegion(d.regions, x, s);
    c := CaseFor(d.regions, identity, r);
  }

  /** Exported negatives are never among the relevant ids. */
  lemma FallbackCase(d: Document, identity: Identity, q: Query, x: Text) returns (c: Case, r: Region)
    requires x in OtherNegatives(Oppose(CasesOf(d.regions, identity)), q.relevant)
    ensures c in Oppose(CasesOf(d.regions, identity)) && c.id == x && c.caseLabel != Right && x !in q.relevant
    ensures r in d.regions && FromRegion(c, r, identity) && ExportedNegative(r)
  {
    var cases := Oppose(CasesOf(d.regions, identity));
    OtherNegativesMember(cases, q.relevant, x);
    c :| c in cases && c.id == x && c.caseLabel != Right;
    r := CaseFrom(d.regions, identity, c);
  }

  // ---- one record ----

  /** Entry `k` of a registry that has passed the visual checks, as the export of document `d`. */
  ghost predicate Placed(entries: seq<Entry>, k: nat, d: Document, identity: Identity) {
    && k < |entries| && Distinct(AllIds(entries)) && Distinct(EntryIds(entries))
    && (forall e | e in entries :: e.group == e.id)
    && entries[k].id == d.id && Trimmed(d.id)
    && entries[k].cases == Oppose(CasesOf(d.regions, identity))
  }

  /** A relevant link passes exactly when the query's intent carries no blanks. */
  lemma RelevantsPass(entries: seq<Entry>, k: nat, d: Document, identity: Identity, q: Query, author: Text, x: Text)
    requires Placed(entries, k, d, identity) && DistinctRegions(d.regions) && LinksOk(q, d.regions) &&
             q.intent.word in REGION_TYPES
    requires x in KeptRelevant(d, q)
    ensures RelevantOk(entries, RecordOf(entries[k], q, author), Qualified(d.id, x)) <==> q.intent.Exact()
  {
    var c := RelevantCase(d, identity, q, x);
    OwnCase(entries, k, c);
    assert q.intent.Exact() <==> q.intent == Exactly(q.intent.word);
  }

  lemma NegativePasses(entries: seq<Entry>, k: nat, q: Query, author: Text, c: Case)
    requires k < |entries| && Distinct(AllIds(entries)) && Trimmed(entries[k].id)
    requires forall e | e in entries :: e.group == e.id
    requires c in entries[k].cases && c.caseLabel != Right && Trimmed(c.id)
    ensures HardNegativeOk(entries, RecordOf(entries[k], q, author), Qualified(entries[k].id, c.id))
  {
    OwnCase(entries, k, c);
  }

  /** An untrimmed id does not read like a trimmed one behind the same prefix. */
  lemma UntrimmedStandsOut(t: Text, u: Text, v: Text)
    requires Trimmed(t) && Canonical(u) && Canonical(v) && HasText(v)
    requires Qualified(t, u) == Plain(t.core + "/" + v.core)
    ensures Trimmed(u)
  {
    var n := |t.core + "/"|;
    assert t.core + "" + "/" + u.left + u.core == t.core + "/" + (u.left + u.core);
    assert v.core == (t.core + "/" + v.core)[n..] == u.left + u.core;
    assert v.core[0] == (u.left + u.core)[0];
  }

  lemma SameEntry(entries: seq<Entry>, k: nat, e: Entry)
    requires k < |entries| && Distinct(EntryIds(entries)) && e in entries && e.id.core == entries[k].id.core
    ensures e == entries[k]
  {
    var j :| 0 <= j < |entries| && entries[j] == e;
    assert EntryIds(entries)[j] == EntryIds(entries)[k];
  }

  ghost predicate CanonicalRegions(regions: seq<Region>) { forall r | r in regions :: Canonical(r.id) && HasText(r.id) }

  lemma CanonicalCases(regions: seq<Region>, identity: Identity, c: Case)
    requires CanonicalRegions(regions) && c in Oppose(CasesOf(regions, identity))
    ensures Canonical(c.id) && HasText(c.id)
  {
    var r := CaseFrom(regions, identity, c);
  }

  /** A hard negative with an untrimmed id is unknown to the query loader. */
  lemma UntrimmedFails(entries: seq<Entry>, k: nat, d: Document, identity: Identity, q: Query, author: Text, c: Case)
    requires Placed(entries, k, d, identity) && CanonicalRegions(d.regions) && c in entries[k].cases
    ensures HardNegativeOk(entries, RecordOf(entries[k], q, author), Qualified(d.id, c.id)) ==> Trimmed(c.id)
  {
    var x := Qualified(d.id, c.id);
    OwnerSound(entries, x);
    match Owner(entries, x)
    case None =>
    case Some((e, b)) =>
      if Plain(e.group.core) == d.id {
        SameEntry(entries, k, e);
        CanonicalCases(d.regions, identity, b);
        CanonicalCases(d.regions, identity, c);
        UntrimmedStandsOut(d.id, c.id, b.id);
      }
  }

  lemma {:induction false} ByGroupFound(entries: seq<Entry>, k: nat)
    requires k < |entries| && Distinct(EntryIds(entries)) && Trimmed(entries[k].id)
    requires forall e | e in entries :: e.group == e.id
    ensures ByGroup(entries, entries[k].id) == Some(entries[k])
  {
    var front, last := entries[..|entries| - 1], entries[|entries| - 1];
    if k < |entries| - 1 {
      assert EntryIds(entries)[k] != EntryIds(entries)[|entries| - 1];
      assert EntryIds(front) == EntryIds(entries)[..|entries| - 1];
      ByGroupFound(front, k);
    }
  }

  lemma {:induction false} OwnIdsDistinct(entries: seq<Entry>, k: nat)
    requires k < |entries| && Distinct(AllIds(entries))
    ensures Distinct(QualifiedIds(entries[k]))
  {
    var front, last := entries[..|entries| - 1], entries[|entries| - 1];
    AppendDistinct(AllIds(front), QualifiedIds(last));
    if k < |entries| - 1 { OwnIdsDistinct(front, k); }
  }

  lemma {:induction false} OtherNegativesDistinct(d: Entry, n: nat, relevant: seq<Text>)
    requires n <= |d.cases| && Distinct(QualifiedIds(d))
    ensures Distinct(OtherNegatives(d.cases[..n], relevant))
  {
    if n > 0 {
      OtherNegativesDistinct(d, n - 1, relevant);
      var front, last := d.cases[..n - 1], d.cases[n - 1];
      assert d.cases[..n][..n - 1] == front && d.cases[..n][n - 1] == last;
      OtherNegativesMember(front, relevant, last.id);
      forall i | 0 <= i < n - 1 ensures d.cases[i].id != last.id {
        assert QualifiedIds(d)[i] != QualifiedIds(d)[n - 1];
      }
      DistinctAppend(OtherNegatives(front, relevant), last.id);
    }
  }
}
