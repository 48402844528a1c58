/** What the export theorem means for a caller: which refusals are left, and where ids clash. */
module ExportConsequences {
  import opened Prelude
  import opened Rects
  import opened Texts
  import opened AuthoringSubmission
  import opened VisualRegistry
  import opened CycleExport
  import opened ExportedCases
  import opened ExportedLinks
  import opened ExportedQueries
  import opened ExportAcceptance

  // ---- refusals ----

  /** The export of an accepted submission stops in its loop exactly at the first document with a fault. */
  lemma RefusalsExactly(x: Inputs, w: Wording, error: ExportError)
    requires Accepted(x, w) && error != VisualRejected && error != QueriesRejected
    ensures Export(x) == Err(error) <==> FirstFault(x.documents, Faults(x), |x.documents|) == Some(error)
  {
    ExportVerdict(x, w);
    if FirstFault(x.documents, Faults(x), |x.documents|) == None { NoLoopError(x, Export(x), error); }
  }

  lemma NoLoopError(x: Inputs, r: Result<Artifacts, ExportError>, error: ExportError)
    requires LoopPasses(x) && Judged(x, r) && error != VisualRejected && error != QueriesRejected
    ensures r != Err(error)
  {
  }

  /** No blanks around ids, kinds and intents. */
  predicate TrimmedRegion(r: Region) { Trimmed(r.id) && r.kind.Exact() && r.intent.Exact() }

  ghost predicate TrimmedRegions(d: Document) { forall r | r in d.regions :: TrimmedRegion(r) }

  lemma {:induction false} FilterAll<T>(s: seq<T>, keep: T -> bool)
    requires forall x | x in s :: keep(x)
    ensures Filter(s, keep) == s
  {
    if s != [] {
      FilterAll(s[..|s| - 1], keep);
      assert s == s[..|s| - 1] + [s[|s| - 1]];
    }
  }

  /** With trimmed regions every relevant link is exported. */
  lemma RelevantAllKept(d: Document, q: Query)
    requires TrimmedRegions(d) && LinksOk(q, d.regions) && q.intent.word in REGION_TYPES
    ensures KeptRelevant(d, q) == q.relevant
  {
    forall x | x in q.relevant ensures x in ExportedIds(d.regions) {
      var r :| r in d.regions && RelevantRegion(r, x, q.intent.word);
      assert TrimmedRegion(r) && r.id == x && Exported(r);
    }
    FilterAll(q.relevant, (x: Text) => x in ExportedIds(d.regions));
  }

  lemma TrimmedNegative(d: Document, pages: nat)
    requires TrimmedRegions(d) && RegionsAccepted(d.regions, pages)
    ensures HasExportedNegative(d.regions) && NegativesTrimmed(d.regions) && !HasUnlabelled(d.regions)
  {
    assert WrongPackage in NEGATIVE_KINDS;
    var r :| r in d.regions && r.kind.word == WrongPackage;
    assert TrimmedRegion(r) && ExportedNegative(r);
  }

  /** With trimmed regions a query is usable exactly when its intent is trimmed and no exported link is repeated. */
  lemma TrimmedQueryUsable(d: Document, q: Query, pages: nat)
    requires TrimmedRegions(d) && RegionsAccepted(d.regions, pages) && LinksOk(q, d.regions) &&
             q.intent.word in REGION_TYPES
    ensures QueryUsable(d, q) <==> q.intent.Exact() && Distinct(q.relevant) && Distinct(KeptHard(d, q))
  {
    RelevantAllKept(d, q);
    TrimmedNegative(d, pages);
  }

  /** With trimmed regions the loop only stops at a missing row. */
  lemma TrimmedLoopPasses(x: Inputs, w: Wording, error: ExportError)
    requires Accepted(x, w) && forall d | d in x.documents :: TrimmedRegions(d)
    ensures Export(x) == Err(error) ==> error == MissingRow || error == VisualRejected || error == QueriesRejected
  {
    if error != VisualRejected && error != QueriesRejected {
      RefusalsExactly(x, w, error);
      forall d | d in x.documents
        ensures Faults(x)(d) == None || Faults(x)(d) == Some(MissingRow)
      {
        TrimmedFault(x, d, w);
      }
      FaultsOf(x.documents, Faults(x), |x.documents|);
    }
  }

  lemma TrimmedFault(x: Inputs, d: Document, w: Wording)
    requires DocumentAccepted(d, x.packet, w) && TrimmedRegions(d)
    ensures DocumentFault(x, d) == None || DocumentFault(x, d) == Some(MissingRow)
  {
    TrimmedNegative(d, PagesOf(x.packet, d.id.core));
    forall q | q in d.queries ensures KeptRelevant(d, q) != [] {
      assert QueryOk(q, d.regions, w);
      RelevantAllKept(d, q);
    }
    PassedExactly(x, d, w);
  }

  lemma {:induction false} FaultsOf(documents: seq<Document>, fault: Document -> Option<ExportError>, n: nat)
    requires n <= |documents|
    ensures match FirstFault(documents, fault, n)
            case Some(error) => exists d | d in documents :: fault(d) == Some(error)
            case None => true
  {
    if n > 0 { FaultsOf(documents, fault, n - 1); }
  }

  // ---- clashes between documents ----

  lemma {:induction false} RegionIdMember(id: string, regions: seq<Region>, y: string)
    ensures y in RegionIdsOf(id, regions) <==> exists r | r in regions :: Exported(r) && y == id + "/" + r.id.core
  {
    if regions != [] {
      var front, last := regions[..|regions| - 1], regions[|regions| - 1];
      RegionIdMember(id, front, y);
      assert regions == front + [last];
    }
  }

  lemma {:induction false} SharedIdClashes(documents: seq<Document>, i: nat, j: nat, y: string)
    requires i < j < |documents|
    requires y in RegionIdsOf(documents[i].id.core, documents[i].regions) &&
             y in RegionIdsOf(documents[j].id.core, documents[j].regions)
    ensures !Distinct(AllRegionIds(documents))
  {
    var n := |documents| - 1;
    AppendDistinct(AllRegionIds(documents[..n]), RegionIdsOf(documents[n].id.core, documents[n].regions));
    if j < n { SharedIdClashes(documents[..n], i, j, y); } else { InAllRegionIds(documents[..n], i, y); }
  }

  lemma {:induction false} InAllRegionIds(documents: seq<Document>, i: nat, y: string)
    requires i < |documents| && y in RegionIdsOf(documents[i].id.core, documents[i].regions)
    ensures y in AllRegionIds(documents)
  {
    if i < |documents| - 1 { InAllRegionIds(documents[..|documents| - 1], i, y); }
  }

  lemma {:induction false} OwnIdsDiffer(id: string, regions: seq<Region>)
    requires DistinctRegions(regions)
    ensures Distinct(RegionIdsOf(id, regions))
  {
    if regions != [] {
      var front, last := regions[..|regions| - 1], regions[|regions| - 1];
      OwnIdsDiffer(id, front);
      var y := id + "/" + last.id.core;
      RegionIdMember(id, front, y);
      forall r | r in front ensures id + "/" + r.id.core != y {
        var i :| 0 <= i < |front| && regions[i] == r;
        assert (id + "/" + r.id.core)[|id| + 1..] == r.id.core && y[|id| + 1..] == last.id.core;
      }
      DistinctAppend(RegionIdsOf(id, front), y);
    }
  }

  /** `b` is `a`, a slash, and nothing or a text that a region id can start with. */
  predicate Extends(a: string, b: string) {
    a + "/" <= b && (|b| > |a| + 1 ==> !IsBlank(b[|a| + 1]))
  }

  ghost predicate NoExtensions(ids: seq<string>) {
    forall i, j | 0 <= i < |ids| && 0 <= j < |ids| && i != j :: !Extends(ids[i], ids[j])
  }

  /** Two qualified ids agree only when one document id, with a slash, starts the other. */
  lemma SharedIdExtends(a: string, r: string, b: string, s: string)
    requires a != b && |a| <= |b| && a + "/" + r == b + "/" + s
    ensures a + "/" <= b
    ensures r != "" && !IsBlank(r[0]) ==> Extends(a, b)
  {
    var y := a + "/" + r;
    assert y[..|b|] == b && y[..|a|] == a;
    assert b[..|a|] == a;
    assert |a| == |b| ==> a == b;
    assert b[|a|] == y[|a|] == '/';
    if |b| > |a| + 1 { assert b[|a| + 1] == y[|a| + 1] == r[0]; }
  }

  lemma SharedIdStarts(a: string, r: string, b: string, s: string)
    requires a != b && a + "/" + r == b + "/" + s
    ensures a + "/" <= b || b + "/" <= a
    ensures r != "" && s != "" && !IsBlank(r[0]) && !IsBlank(s[0]) ==> Extends(a, b) || Extends(b, a)
  {
    if |a| <= |b| { SharedIdExtends(a, r, b, s); } else { SharedIdExtends(b, s, a, r); }
  }

  /** The two documents have no qualified id in common. */
  ghost predicate Separate(e: Document, d: Document) {
    forall r, s | r in e.regions && s in d.regions :: e.id.core + "/" + r.id.core != d.id.core + "/" + s.id.core
  }

  lemma UnextendedSeparate(e: Document, d: Document)
    requires e.id.core != d.id.core && CanonicalRegions(e.regions) && CanonicalRegions(d.regions)
    requires !Extends(e.id.core, d.id.core) && !Extends(d.id.core, e.id.core)
    ensures Separate(e, d)
  {
    forall r, s | r in e.regions && s in d.regions ensures e.id.core + "/" + r.id.core != d.id.core + "/" + s.id.core {
      if e.id.core + "/" + r.id.core == d.id.core + "/" + s.id.core {
        SharedIdStarts(e.id.core, r.id.core, d.id.core, s.id.core);
      }
    }
  }

  lemma UnprefixedSeparate(e: Document, d: Document)
    requires e.id.core != d.id.core && !(e.id.core + "/" <= d.id.core) && !(d.id.core + "/" <= e.id.core)
    ensures Separate(e, d)
  {
    forall r, s | r in e.regions && s in d.regions ensures e.id.core + "/" + r.id.core != d.id.core + "/" + s.id.core {
      if e.id.core + "/" + r.id.core == d.id.core + "/" + s.id.core {
        SharedIdStarts(e.id.core, r.id.core, d.id.core, s.id.core);
      }
    }
  }

  lemma SlashNotIn(a: string, b: string)
    requires '/' !in b
    ensures !(a + "/" <= b)
  {
    assert (a + "/")[|a|] == '/';
  }

  /** When any two documents are separate, all qualified ids differ. */
  lemma {:induction false} SeparateIdsDiffer(documents: seq<Document>)
    requires forall d | d in documents :: DistinctRegions(d.regions)
    requires forall i, j | 0 <= i < j < |documents| :: Separate(documents[i], documents[j])
    ensures Distinct(AllRegionIds(documents))
    ensures forall y | y in AllRegionIds(documents) ::
              exists d | d in documents :: y in RegionIdsOf(d.id.core, d.regions)
  {
    if documents != [] {
      var n := |documents| - 1;
      var front, d := documents[..n], documents[n];
      SeparateIdsDiffer(front);
      OwnIdsDiffer(d.id.core, d.regions);
      AppendDistinct(AllRegionIds(front), RegionIdsOf(d.id.core, d.regions));
      forall y, e | y in RegionIdsOf(d.id.core, d.regions) && e in front
        ensures y !in RegionIdsOf(e.id.core, e.regions)
      {
        var i :| 0 <= i < n && documents[i] == e;
        RegionIdMember(e.id.core, e.regions, y);
        RegionIdMember(d.id.core, d.regions, y);
        assert Separate(documents[i], documents[n]);
      }
    }
  }

  /** When no document id extends another, nothing can clash. */
  lemma UnextendedIdsDiffer(documents: seq<Document>)
    requires forall d | d in documents :: DistinctRegions(d.regions) && CanonicalRegions(d.regions)
    requires Distinct(DocumentIds(documents)) && NoExtensions(DocumentIds(documents))
    ensures Distinct(AllRegionIds(documents))
  {
    var ids := DocumentIds(documents);
    forall i, j | 0 <= i < j < |documents| ensures Separate(documents[i], documents[j]) {
      assert ids[i] == documents[i].id.core && ids[j] == documents[j].id.core;
      assert documents[i] in documents && documents[j] in documents;
      UnextendedSeparate(documents[i], documents[j]);
    }
    SeparateIdsDiffer(documents);
  }

  ghost predicate NoPrefixes(ids: seq<string>) {
    forall i, j | 0 <= i < |ids| && 0 <= j < |ids| && i != j :: !(ids[i] + "/" <= ids[j])
  }

  /** When no document id, with a slash, starts another, nothing can clash, whatever the region ids look like. */
  lemma UnprefixedIdsDiffer(documents: seq<Document>)
    requires forall d | d in documents :: DistinctRegions(d.regions)
    requires Distinct(DocumentIds(documents)) && NoPrefixes(DocumentIds(documents))
    ensures Distinct(AllRegionIds(documents))
    ensures forall y | y in AllRegionIds(documents) ::
              exists d | d in documents :: y in RegionIdsOf(d.id.core, d.regions)
  {
    var ids := DocumentIds(documents);
    forall i, j | 0 <= i < j < |documents| ensures Separate(documents[i], documents[j]) {
      assert ids[i] == documents[i].id.core && ids[j] == documents[j].id.core;
      UnprefixedSeparate(documents[i], documents[j]);
    }
    SeparateIdsDiffer(documents);
  }

  /** Without a slash in document ids nothing can clash. */
  lemma SlashFreeIdsDiffer(documents: seq<Document>)
    requires forall d | d in documents :: '/' !in d.id.core && DistinctRegions(d.regions)
    requires Distinct(DocumentIds(documents))
    ensures Distinct(AllRegionIds(documents))
    ensures forall y | y in AllRegionIds(documents) ::
              exists d | d in documents :: y in RegionIdsOf(d.id.core, d.regions)
  {
    var ids := DocumentIds(documents);
    forall i, j | 0 <= i < |ids| && 0 <= j < |ids| && i != j ensures !(ids[i] + "/" <= ids[j]) {
      assert documents[j] in documents;
      SlashNotIn(ids[i], ids[j]);
    }
    UnprefixedIdsDiffer(documents);
  }

  /**
   * When one document id extends another, the two documents can clash: a region of the first holds
   * the rest of the id.
   */
  lemma ExtensionClashes(documents: seq<Document>, i: nat, j: nat, rest: string, r: Region, s: Region)
    requires i < |documents| && j < |documents| && i != j
    requires documents[j].id.core == documents[i].id.core + "/" + rest
    requires r in documents[i].regions && Exported(r) && r.id.core == rest + "/" + s.id.core
    requires s in documents[j].regions && Exported(s)
    ensures !Distinct(AllRegionIds(documents))
  {
    var a, y := documents[i].id.core, documents[i].id.core + "/" + r.id.core;
    assert y == documents[j].id.core + "/" + s.id.core by {
      assert a + "/" + (rest + "/" + s.id.core) == (a + "/" + rest) + "/" + s.id.core;
    }
    RegionIdMember(a, documents[i].regions, y);
    RegionIdMember(documents[j].id.core, documents[j].regions, y);
    if i < j { SharedIdClashes(documents, i, j, y); } else { SharedIdClashes(documents, j, i, y); }
  }

  /** With these document ids all qualified ids differ, however the regions of a document are named apart. */
  ghost predicate NeverClash(ids: seq<string>) {
    forall documents: seq<Document>
      | DocumentIds(documents) == ids && (forall d | d in documents :: DistinctRegions(d.regions)) ::
      Distinct(AllRegionIds(documents))
  }

  /** Whatever the regions are called, exactly the ids where none, with a slash, starts another are safe. */
  lemma NeverClashExactly(ids: seq<string>)
    requires Distinct(ids)
    ensures NeverClash(ids) <==> NoPrefixes(ids)
  {
    if NoPrefixes(ids) {
      forall documents: seq<Document>
        | DocumentIds(documents) == ids && (forall d | d in documents :: DistinctRegions(d.regions))
        ensures Distinct(AllRegionIds(documents))
      {
        UnprefixedIdsDiffer(documents);
      }
    }
    if !NoPrefixes(ids) {
      var i, j :| 0 <= i < |ids| && 0 <= j < |ids| && i != j && ids[i] + "/" <= ids[j];
      var documents := ClashingDocuments(ids, i, j);
    }
  }

  lemma ClashingDocuments(ids: seq<string>, i: nat, j: nat) returns (documents: seq<Document>)
    requires i < |ids| && j < |ids| && i != j && ids[i] + "/" <= ids[j]
    ensures DocumentIds(documents) == ids && (forall d | d in documents :: DistinctRegions(d.regions))
    ensures !Distinct(AllRegionIds(documents))
  {
    var rest := ids[j][|ids[i]| + 1..];
    var r, s := PinoutRegion(rest + "/c"), PinoutRegion("c");
    documents := seq(|ids|, k requires 0 <= k < |ids| =>
      Document(Plain(ids[k]), if k == i then [r] else if k == j then [s] else [], []));
    assert DocumentIds(documents) == ids;
    assert ids[j] == ids[i] + "/" + rest;
    ExtensionClashes(documents, i, j, rest, r, s);
  }

  function PinoutRegion(id: string): (r: Region)
    ensures r.id.core == id && Exported(r)
  {
    Region(Plain(id), Exactly(Positive), Exactly(Pinout), Whole(1), Rect(0.0, 0.0, 1.0, 1.0), Top, Plain("note"))
  }
}
