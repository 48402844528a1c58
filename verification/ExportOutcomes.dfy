/** Every outcome of the export of an accepted submission can happen, and which document ids can make it clash. */
module ExportOutcomes {
  import opened Prelude
  import opened Texts
  import opened AuthoringSubmission
  import opened VisualRegistry
  import opened QueryRegistry
  import opened CycleExport
  import opened ExportedCases
  import opened ExportedLinks
  import opened ExportedQueries
  import opened ExportAcceptance
  import opened ExportConsequences
  import opened ExportRefusals
  import opened ExportExample

  // ---- every outcome ----

  function Names(): seq<string> { seq(12, k requires 0 <= k => Name(k)) }

  lemma NamesAreTwelve()
    ensures Twelve(Names())
  {
    forall i, j | 0 <= i < j < 12 ensures Names()[i] != Names()[j] { assert |Name(i)| != |Name(j)|; }
  }

  /** What the proofs below need to know of an example. */
  lemma MakeExample(ids: seq<string>, renamed: nat, last: string, times: nat) returns (x: Inputs)
    requires Twelve(ids) && FreeId(last) && times > 0
    ensures Shaped(x, times) && DocumentIds(x.documents) == ids
    ensures forall k | 0 <= k < 12 :: x.documents[k].regions == Regions(if k == renamed then last else "h")
  {
    x := Example(ids, renamed, last, times);
    ExampleShaped(ids, renamed, last, times);
  }

  /** With ids d, dd, ddd and so on nothing clashes. */
  lemma NamedSubmission(times: nat) returns (x: Inputs)
    requires times > 0
    ensures Shaped(x, times) && Distinct(AllRegionIds(x.documents))
  {
    NamesAreTwelve();
    assert FreeId("h");
    x := MakeExample(Names(), 0, "h", times);
    NamesHaveNoSlash(x.documents);
    ShapedRegionsDiffer(x, times);
    SlashFreeIdsDiffer(x.documents);
  }

  lemma NamesHaveNoSlash(documents: seq<Document>)
    requires DocumentIds(documents) == Names()
    ensures forall d | d in documents :: '/' !in d.id.core
  {
    forall d | d in documents ensures '/' !in d.id.core {
      var k :| 0 <= k < |documents| && documents[k] == d;
      assert DocumentIds(documents)[k] == Name(k);
    }
  }

  lemma ShapedRegionsDiffer(x: Inputs, times: nat)
    requires Shaped(x, times)
    ensures forall d | d in x.documents :: DistinctRegions(d.regions)
  {
    forall d | d in x.documents ensures DistinctRegions(d.regions) {
      var k :| 0 <= k < 12 && x.documents[k] == d;
      assert Typical(d, k, times);
    }
  }

  /** There is an accepted submission that exports. */
  lemma SomethingExports() returns (x: Inputs, w: Wording)
    ensures Accepted(x, w) && Exportable(x) && Export(x).Ok?
  {
    w := Plainly();
    x := NamedSubmission(1);
    ExampleVerdict(x, 1);
    ExportExactly(x, w);
  }

  /** For each refusal of the export, by its loop or by a loader, there is an accepted submission that meets it. */
  lemma EveryRefusalHappens(error: ExportError) returns (x: Inputs, w: Wording)
    ensures Accepted(x, w) && Export(x) == Err(error)
  {
    x, w := SomethingExports();
    match error {
      case MissingRow => x := WithoutRows(x, w);
      case UnlabelledKind =>
        UnlabelledReached(x, w);
        x := PadInputs(x, IsPositive, Nowhere);
      case NoCases =>
        NoCasesReached(x, w);
        x := PadInputs(x, Every, Every);
      case RelevantNotExported =>
        RelevantNotExportedReached(x, w);
        x := PadInputs(x, Nowhere, IsPositive);
      case NoHardNegatives =>
        NoHardNegativesReached(x, w);
        x := PadInputs(x, IsNegative, IsNegative);
      case VisualRejected => x := WithNaiveTime(x, w);
      case QueriesRejected => x, w := RepeatedLinks();
    }
  }

  /** Without plan rows an accepted submission stops at its first document. */
  lemma WithoutRows(x: Inputs, w: Wording) returns (y: Inputs)
    requires Accepted(x, w)
    ensures Accepted(y, w) && Export(y) == Err(MissingRow)
  {
    y := x.(plan := map[]);
    SameFault(y.documents, Faults(y), |y.documents|, MissingRow);
    RefusalsExactly(y, w, MissingRow);
  }

  /** With a review time without a zone the visual loader refuses what would export. */
  lemma WithNaiveTime(x: Inputs, w: Wording) returns (y: Inputs)
    requires Accepted(x, w) && Exportable(x)
    ensures Accepted(y, w) && Export(y) == Err(VisualRejected)
  {
    y := x.(seal := x.seal.(reviewedAt := Naive(x.seal.reviewedAt.text)));
    ExportVerdict(y, w);
    forall d | d in y.documents ensures Faults(y)(d) == None {
      ExportablePasses(x, d, w);
      PassedExactly(y, d, w);
    }
    FaultsOf(y.documents, Faults(y), |y.documents|);
  }

  /** With relevant links listed twice the query loader refuses. */
  lemma RepeatedLinks() returns (x: Inputs, w: Wording)
    ensures Accepted(x, w) && Export(x) == Err(QueriesRejected)
  {
    w := Plainly();
    x := NamedSubmission(2);
    ExampleVerdict(x, 2);
  }

  // ---- clashes ----

  /** Some accepted submission with these document ids has a qualified case id twice. */
  ghost predicate CanClash(ids: seq<string>) {
    exists x: Inputs, w: Wording ::
      Accepted(x, w) && DocumentIds(x.documents) == ids && !Distinct(AllRegionIds(x.documents))
  }

  /** Where one id extends another, there is an accepted submission that only fails because two cases clash. */
  lemma ExtensionRefused(ids: seq<string>, i: nat, j: nat) returns (x: Inputs)
    requires Twelve(ids) && i < 12 && j < 12 && i != j && Extends(ids[i], ids[j])
    ensures Accepted(x, Plainly()) && DocumentIds(x.documents) == ids
    ensures !Distinct(AllRegionIds(x.documents)) && Export(x) == Err(VisualRejected)
  {
    var rest := ids[j][|ids[i]| + 1..];
    var last := rest + "/c";
    assert ids[j] == ids[i] + "/" + rest;
    assert FreeId(last) by { assert last[|last| - 1] == 'c' && last[0] == if rest == "" then '/' else rest[0]; }
    x := MakeExample(ids, i, last, 1);
    RenamedClashes(x, ids, i, j, rest);
    ExampleVerdict(x, 1);
  }

  lemma RenamedClashes(x: Inputs, ids: seq<string>, i: nat, j: nat, rest: string)
    requires |x.documents| == 12 && DocumentIds(x.documents) == ids
    requires i < 12 && j < 12 && i != j && ids[j] == ids[i] + "/" + rest
    requires x.documents[i].regions == Regions(rest + "/c") && x.documents[j].regions == Regions("h")
    ensures !Distinct(AllRegionIds(x.documents))
  {
    assert DocumentIds(x.documents)[i] == ids[i] && DocumentIds(x.documents)[j] == ids[j];
    var r, s := LastAndThird(x.documents[i].regions, x.documents[j].regions, rest + "/c");
    ExtensionClashes(x.documents, i, j, rest, r, s);
  }

  lemma LastAndThird(rs: seq<Region>, ss: seq<Region>, last: string) returns (r: Region, s: Region)
    requires rs == Regions(last) && ss == Regions("h")
    ensures r in rs && r.id.core == last && Exported(r) && s in ss && s.id.core == "c" && Exported(s)
  {
    r, s := rs[6], ss[2];
  }

  /** Exactly for which document ids a clash is possible: one of them extends another. */
  lemma CanClashExactly(ids: seq<string>)
    requires Twelve(ids)
    ensures CanClash(ids) <==> !NoExtensions(ids)
  {
    if !NoExtensions(ids) {
      var i, j :| 0 <= i < |ids| && 0 <= j < |ids| && i != j && Extends(ids[i], ids[j]);
      var x := ExtensionRefused(ids, i, j);
    }
    if CanClash(ids) {
      var x: Inputs, w: Wording :|
        Accepted(x, w) && DocumentIds(x.documents) == ids && !Distinct(AllRegionIds(x.documents));
      ClashMeansExtension(x, w);
    }
  }

  lemma ClashMeansExtension(x: Inputs, w: Wording)
    requires Accepted(x, w) && !Distinct(AllRegionIds(x.documents))
    ensures !NoExtensions(DocumentIds(x.documents))
  {
    forall d | d in x.documents ensures DistinctRegions(d.regions) && CanonicalRegions(d.regions) {
      assert DocumentAccepted(d, x.packet, w);
    }
    if NoExtensions(DocumentIds(x.documents)) { UnextendedIdsDiffer(x.documents); }
  }

  /** The twelve ids are what every accepted submission has. */
  lemma AcceptedHasTwelve(x: Inputs, w: Wording)
    requires Accepted(x, w)
    ensures Twelve(DocumentIds(x.documents))
  {
    forall id | id in DocumentIds(x.documents) ensures id != "" {
      var k :| 0 <= k < |x.documents| && DocumentIds(x.documents)[k] == id;
      assert DocumentAccepted(x.documents[k], x.packet, w);
    }
  }
}
