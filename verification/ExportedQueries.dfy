/** The exported records of one document against the query registry contract. */
module ExportedQueries {
  import opened Prelude
  import opened Texts
  import opened AuthoringSubmission
  import opened VisualRegistry
  import opened QueryRegistry
  import opened CycleExport
  import opened ExportedCases
  import opened ExportedLinks

  // ---- the record as a whole ----

  /** What is known about a query once the submission is accepted and the export loop has got past it. */
  ghost predicate Sealed(d: Document, q: Query, pages: nat) {
    && RegionsAccepted(d.regions, pages) && CanonicalRegions(d.regions)
    && LinksOk(q, d.regions) && q.intent.word in REGION_TYPES && HasText(q.text)
    && KeptRelevant(d, q) != [] && HasExportedNegative(d.regions)
  }

  lemma QualifyAllMember(t: Text, ids: seq<Text>, y: Text)
    ensures y in QualifyAll(t, ids) <==> exists x | x in ids :: y == Qualified(t, x)
  {
    if exists x | x in ids :: y == Qualified(t, x) {
      var x :| x in ids && y == Qualified(t, x);
      var i :| 0 <= i < |ids| && ids[i] == x;
      assert QualifyAll(t, ids)[i] == y;
    }
  }

  lemma KeptTrimmed(d: Document, identity: Identity, q: Query, pages: nat)
    requires Sealed(d, q, pages)
    ensures forall x | x in KeptRelevant(d, q) :: Trimmed(x)
    ensures forall x | x in KeptHard(d, q) :: Trimmed(x) && x !in q.relevant
  {
    forall x | x in KeptRelevant(d, q) ensures Trimmed(x) { var c := RelevantCase(d, identity, q, x); }
    forall x | x in KeptHard(d, q) ensures Trimmed(x) && x !in q.relevant { var c := NegativeCase(d, identity, q, x); }
  }

  /** The judgments pass exactly when the query's intent carries no blanks; they repeat exactly when the kept ids do. */
  lemma JudgmentsExactly(entries: seq<Entry>, k: nat, d: Document, identity: Identity, q: Query, author: Text,
                         pages: nat)
    requires Placed(entries, k, d, identity) && Sealed(d, q, pages)
    ensures var record := RecordOf(entries[k], q, author);
            && ((forall j | j in record.judgments :: RelevantOk(entries, record, j.caseId)) <==> q.intent.Exact())
            && (forall j | j in record.judgments :: HasText(j.caseId) && j.grade == 2)
            && record.judgments != []
            && CaseIds(record.judgments) == QualifyAll(d.id, KeptRelevant(d, q))
            && (Distinct(CaseIds(record.judgments)) <==> Distinct(KeptRelevant(d, q)))
  {
    var kept, record := KeptRelevant(d, q), RecordOf(entries[k], q, author);
    MappedAreExported(d.regions, identity);
    KeptTrimmed(d, identity, q, pages);
    QualifyAllDistinct(d.id, kept);
    forall j | j in record.judgments
      ensures (RelevantOk(entries, record, j.caseId) <==> q.intent.Exact()) && HasText(j.caseId)
    {
      QualifyAllMember(d.id, kept, j.caseId);
      var x :| x in kept && j.caseId == Qualified(d.id, x);
      RelevantsPass(entries, k, d, identity, q, author, x);
    }
    assert record.judgments[0] in record.judgments;
  }

  function HardIds(d: Document, identity: Identity, q: Query): seq<Text> {
    HardNegatives(q, Oppose(CasesOf(d.regions, identity)))
  }

  /** The ids behind the exported hard negatives: exported negatives that are not relevant. */
  lemma HardIdCase(d: Document, identity: Identity, q: Query, pages: nat, x: Text) returns (c: Case)
    requires Sealed(d, q, pages) && x in HardIds(d, identity, q)
    ensures c in Oppose(CasesOf(d.regions, identity)) && c.id == x && c.caseLabel != Right && x !in q.relevant
    ensures KeptHard(d, q) != [] ==> Trimmed(x)
    ensures NegativesTrimmed(d.regions) ==> Trimmed(x)
  {
    MappedAreExported(d.regions, identity);
    if KeptHard(d, q) == [] {
      var r;
      c, r := FallbackCase(d, identity, q, x);
    } else {
      c := NegativeCase(d, identity, q, x);
    }
  }

  /** The hard negatives of the record pass exactly when their ids are trimmed. */
  lemma HardPassExactly(entries: seq<Entry>, k: nat, d: Document, identity: Identity, q: Query, author: Text,
                        pages: nat)
    requires Placed(entries, k, d, identity) && Sealed(d, q, pages)
    ensures var record := RecordOf(entries[k], q, author);
            (forall y | y in record.hardNegatives :: HardNegativeOk(entries, record, y)) <==>
            forall x | x in HardIds(d, identity, q) :: Trimmed(x)
  {
    var ids, record := HardIds(d, identity, q), RecordOf(entries[k], q, author);
    forall x | x in ids
      ensures HardNegativeOk(entries, record, Qualified(d.id, x)) <==> Trimmed(x)
      ensures Qualified(d.id, x) in record.hardNegatives
    {
      var c := HardIdCase(d, identity, q, pages, x);
      UntrimmedFails(entries, k, d, identity, q, author, c);
      if Trimmed(x) { NegativePasses(entries, k, q, author, c); }
      QualifyAllMember(d.id, ids, Qualified(d.id, x));
    }
    forall y | y in record.hardNegatives ensures exists x | x in ids :: y == Qualified(d.id, x) {
      QualifyAllMember(d.id, ids, y);
    }
  }

  /** With nothing kept, every exported negative is among the fallback ids. */
  lemma NegativeIsFallback(d: Document, identity: Identity, q: Query, pages: nat, r: Region)
    requires Sealed(d, q, pages) && KeptHard(d, q) == []
    requires r in d.regions && ExportedNegative(r)
    ensures r.id in HardIds(d, identity, q)
  {
    MappedAreExported(d.regions, identity);
    var c := CaseFor(d.regions, identity, r);
    ExportedNegativeUnlinked(d.regions, r, q);
    OtherNegativesMember(Oppose(CasesOf(d.regions, identity)), q.relevant, r.id);
  }

  lemma FallbackNeedsTrimmed(d: Document, identity: Identity, q: Query, pages: nat)
    requires Sealed(d, q, pages) && KeptHard(d, q) == [] && forall x | x in HardIds(d, identity, q) :: Trimmed(x)
    ensures NegativesTrimmed(d.regions)
  {
    forall r | r in d.regions && ExportedNegative(r) ensures Trimmed(r.id) {
      NegativeIsFallback(d, identity, q, pages, r);
    }
  }

  /** In terms of the submission: trimmed negatives when the export falls back to them. */
  lemma HardTrimmedExactly(d: Document, identity: Identity, q: Query, pages: nat)
    requires Sealed(d, q, pages)
    ensures (forall x | x in HardIds(d, identity, q) :: Trimmed(x)) <==>
            (KeptHard(d, q) == [] ==> NegativesTrimmed(d.regions))
  {
    forall x | x in HardIds(d, identity, q)
      ensures (KeptHard(d, q) != [] ==> Trimmed(x)) && (NegativesTrimmed(d.regions) ==> Trimmed(x))
    {
      var c := HardIdCase(d, identity, q, pages, x);
    }
    if KeptHard(d, q) == [] && forall x | x in HardIds(d, identity, q) :: Trimmed(x) {
      FallbackNeedsTrimmed(d, identity, q, pages);
    }
  }

  /** Relevant and hard-negative ids stay apart after qualification. */
  lemma LinksApart(d: Document, identity: Identity, q: Query, pages: nat)
    requires Sealed(d, q, pages) && Trimmed(d.id) && forall x | x in HardIds(d, identity, q) :: Trimmed(x)
    ensures forall y | y in QualifyAll(d.id, HardIds(d, identity, q)) :: y !in QualifyAll(d.id, KeptRelevant(d, q))
  {
    var hard, kept := HardIds(d, identity, q), KeptRelevant(d, q);
    KeptTrimmed(d, identity, q, pages);
    forall y | y in QualifyAll(d.id, hard) ensures y !in QualifyAll(d.id, kept) {
      QualifyAllMember(d.id, hard, y);
      QualifyAllMember(d.id, kept, y);
      var x :| x in hard && y == Qualified(d.id, x);
      var c := HardIdCase(d, identity, q, pages, x);
      forall z | z in kept ensures y != Qualified(d.id, z) {
        KeptMember(q.relevant, ExportedIds(d.regions), z);
        if y == Qualified(d.id, z) { QualifiedInjective(d.id, x, z); }
      }
    }
  }

  /** The record is well formed exactly when no exported link is repeated. */
  lemma ShapeExactly(entries: seq<Entry>, k: nat, d: Document, identity: Identity, q: Query, author: Text, pages: nat)
    requires Placed(entries, k, d, identity) && Sealed(d, q, pages) && HasText(d.id) && HasText(entries[k].split) &&
             HasText(author)
    requires forall x | x in HardIds(d, identity, q) :: Trimmed(x)
    ensures ShapeOk(RecordOf(entries[k], q, author)) <==>
            Distinct(KeptRelevant(d, q)) && Distinct(HardIds(d, identity, q))
  {
    var record, hard := RecordOf(entries[k], q, author), HardIds(d, identity, q);
    JudgmentsExactly(entries, k, d, identity, q, author, pages);
    HardNegativesExist(d.regions, identity, q);
    QualifyAllDistinct(d.id, hard);
    LinksApart(d, identity, q, pages);
    assert record.hardNegatives == QualifyAll(d.id, hard);
    forall y | y in record.hardNegatives ensures HasText(y) { QualifyAllMember(d.id, hard, y); }
  }

  lemma HardDistinctExactly(entries: seq<Entry>, k: nat, d: Document, identity: Identity, q: Query)
    requires Placed(entries, k, d, identity)
    ensures Distinct(HardIds(d, identity, q)) <==> (KeptHard(d, q) != [] ==> Distinct(KeptHard(d, q)))
  {
    MappedAreExported(d.regions, identity);
    OwnIdsDistinct(entries, k);
    OtherNegativesDistinct(entries[k], |entries[k].cases|, q.relevant);
    assert entries[k].cases[..|entries[k].cases|] == entries[k].cases;
  }

  /** The query loader accepts the record exactly when the query's links are usable and the split is trimmed. */
  lemma RecordExactly(entries: seq<Entry>, k: nat, d: Document, identity: Identity, q: Query, author: Text, pages: nat)
    requires Placed(entries, k, d, identity) && Sealed(d, q, pages) && HasText(d.id) && HasText(entries[k].split) &&
             HasText(author)
    ensures RecordOk(entries, RecordOf(entries[k], q, author)) <==> QueryUsable(d, q) && Trimmed(entries[k].split)
  {
    ByGroupFound(entries, k);
    JudgmentsExactly(entries, k, d, identity, q, author, pages);
    HardPassExactly(entries, k, d, identity, q, author, pages);
    HardTrimmedExactly(d, identity, q, pages);
    HardDistinctExactly(entries, k, d, identity, q);
    if forall x | x in HardIds(d, identity, q) :: Trimmed(x) {
      ShapeExactly(entries, k, d, identity, q, author, pages);
    }
  }
}
