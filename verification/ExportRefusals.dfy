/**
 * Every refusal of the export loop can happen to an accepted submission.
 *
 * `load_submission` does not see the blanks around kinds and intents, and the export does.
 * So a blank after some of these words turns a submission that exports into one that is
 * still accepted and meets a refusal; which one depends on the words chosen.
 */
module ExportRefusals {
  import opened Prelude
  import opened Texts
  import opened AuthoringSubmission
  import opened VisualRegistry
  import opened QueryRegistry
  import opened CycleExport
  import opened ExportedCases
  import opened ExportedLinks
  import opened ExportedQueries
  import opened ExportAcceptance
  import opened ExportConsequences

  // ---- spellings ----

  /** The same region, with other blanks around its kind and intent. */
  predicate SameWords(r: Region, s: Region) {
    && s.kind.word == r.kind.word && s.intent.word == r.intent.word
    && s.id == r.id && s.page == r.page && s.box == r.box && s.view == r.view && s.note == r.note
  }

  predicate Respelled(regions: seq<Region>, others: seq<Region>) {
    |others| == |regions| && forall i | 0 <= i < |regions| :: SameWords(regions[i], others[i])
  }

  ghost predicate RespelledDocument(d: Document, e: Document) {
    e.id == d.id && e.queries == d.queries && Respelled(d.regions, e.regions)
  }

  ghost predicate RespelledInputs(x: Inputs, y: Inputs) {
    && y == x.(documents := y.documents) && |y.documents| == |x.documents|
    && forall i | 0 <= i < |x.documents| :: RespelledDocument(x.documents[i], y.documents[i])
  }

  lemma Counterpart(regions: seq<Region>, others: seq<Region>, r: Region) returns (s: Region)
    requires Respelled(regions, others) && r in regions
    ensures s in others && SameWords(r, s)
  {
    var i :| 0 <= i < |regions| && regions[i] == r;
    s := others[i];
  }

  lemma RegionsRespelled(regions: seq<Region>, others: seq<Region>, pages: nat)
    requires Respelled(regions, others) && RegionsAccepted(regions, pages)
    ensures RegionsAccepted(others, pages)
  {
    forall s | s in others ensures RegionOk(s, pages) {
      var i :| 0 <= i < |others| && others[i] == s;
      assert SameWords(regions[i], s) && regions[i] in regions;
    }
    forall t | t in REGION_TYPES ensures HasPositive(others, t) {
      var r :| r in regions && r.kind.word == Positive && r.intent.word == t;
      var s := Counterpart(regions, others, r);
    }
    forall k | k in NEGATIVE_KINDS ensures HasKind(others, k) {
      var r :| r in regions && r.kind.word == k;
      var s := Counterpart(regions, others, r);
    }
    forall i, j | 0 <= i < j < |others| ensures others[i].id.core != others[j].id.core {
      assert SameWords(regions[i], others[i]) && SameWords(regions[j], others[j]);
    }
  }

  lemma IdsRespelled(regions: seq<Region>, others: seq<Region>)
    requires Respelled(regions, others)
    ensures RegionIds(others) == RegionIds(regions)
    ensures CanonicalRegions(regions) ==> CanonicalRegions(others)
  {
    forall r | r in regions ensures r.id.core in RegionIds(others) { var s := Counterpart(regions, others, r); }
    forall s | s in others ensures exists r :: r in regions && r.id == s.id {
      var i :| 0 <= i < |others| && others[i] == s;
      assert SameWords(regions[i], s) && regions[i] in regions;
    }
  }

  lemma LinksRespelled(q: Query, regions: seq<Region>, others: seq<Region>)
    requires Respelled(regions, others) && LinksOk(q, regions)
    ensures LinksOk(q, others)
  {
    forall x | x in q.relevant ensures exists s | s in others :: RelevantRegion(s, x, q.intent.word) {
      var r :| r in regions && RelevantRegion(r, x, q.intent.word);
      var s := Counterpart(regions, others, r);
      assert RelevantRegion(s, x, q.intent.word);
    }
    forall x | x in q.hardNegatives ensures exists s | s in others :: NegativeRegion(s, x) {
      var r :| r in regions && NegativeRegion(r, x);
      var s := Counterpart(regions, others, r);
      assert NegativeRegion(s, x);
    }
  }

  lemma DocumentRespelled(d: Document, e: Document, packet: seq<PacketDocument>, w: Wording)
    requires RespelledDocument(d, e) && DocumentAccepted(d, packet, w)
    ensures DocumentAccepted(e, packet, w)
  {
    RegionsRespelled(d.regions, e.regions, PagesOf(packet, d.id.core));
    IdsRespelled(d.regions, e.regions);
    forall q | q in e.queries ensures QueryOk(q, e.regions, w) {
      assert QueryOk(q, d.regions, w);
      LinksRespelled(q, d.regions, e.regions);
    }
  }

  lemma {:induction false} TextsRespelled(documents: seq<Document>, others: seq<Document>, w: Wording)
    requires |others| == |documents| && forall i | 0 <= i < |documents| :: others[i].queries == documents[i].queries
    ensures AllTexts(others, w) == AllTexts(documents, w)
  {
    if documents != [] { TextsRespelled(documents[..|documents| - 1], others[..|documents| - 1], w); }
  }

  /** The loader does not see blanks around kinds and intents. */
  lemma RespelledAccepted(x: Inputs, y: Inputs, w: Wording)
    requires RespelledInputs(x, y) && Accepted(x, w)
    ensures Accepted(y, w)
  {
    TextsRespelled(x.documents, y.documents, w);
    assert DocumentIds(y.documents) == DocumentIds(x.documents);
    forall e | e in y.documents ensures DocumentAccepted(e, y.packet, w) && CanonicalRegions(e.regions) {
      var i :| 0 <= i < |y.documents| && y.documents[i] == e;
      var d := x.documents[i];
      assert d in x.documents;
      DocumentRespelled(d, e, x.packet, w);
      IdsRespelled(d.regions, e.regions);
    }
  }

  // ---- adding a blank ----

  function Blank<T>(word: Word<T>): Word<T> { word.(right := word.right + " ") }

  /** A blank after some kinds and some intents. */
  function Pad(r: Region, onKind: Region -> bool, onIntent: Region -> bool): (s: Region)
    ensures SameWords(r, s)
    ensures onKind(r) ==> BareKind(s) == NoKind
    ensures onIntent(r) ==> BareIntent(s) == NoIntent
    ensures !onKind(r) ==> BareKind(s) == BareKind(r)
    ensures !onIntent(r) ==> BareIntent(s) == BareIntent(r)
  {
    r.(kind := if onKind(r) then Blank(r.kind) else r.kind, intent := if onIntent(r) then Blank(r.intent) else r.intent)
  }

  function PadDocument(d: Document, onKind: Region -> bool, onIntent: Region -> bool): Document {
    d.(regions := seq(|d.regions|, i requires 0 <= i < |d.regions| => Pad(d.regions[i], onKind, onIntent)))
  }

  function PadInputs(x: Inputs, onKind: Region -> bool, onIntent: Region -> bool): Inputs {
    x.(documents :=
         seq(|x.documents|, i requires 0 <= i < |x.documents| => PadDocument(x.documents[i], onKind, onIntent)))
  }

  lemma PaddedRegion(d: Document, onKind: Region -> bool, onIntent: Region -> bool, r: Region)
    requires r in d.regions
    ensures Pad(r, onKind, onIntent) in PadDocument(d, onKind, onIntent).regions
  {
    var i :| 0 <= i < |d.regions| && d.regions[i] == r;
    assert PadDocument(d, onKind, onIntent).regions[i] == Pad(r, onKind, onIntent);
  }

  lemma PadSource(d: Document, onKind: Region -> bool, onIntent: Region -> bool, s: Region) returns (r: Region)
    requires s in PadDocument(d, onKind, onIntent).regions
    ensures r in d.regions && s == Pad(r, onKind, onIntent)
  {
    var i :| 0 <= i < |d.regions| && s == PadDocument(d, onKind, onIntent).regions[i];
    r := d.regions[i];
  }

  lemma PaddedAccepted(x: Inputs, w: Wording, onKind: Region -> bool, onIntent: Region -> bool)
    requires Accepted(x, w)
    ensures Accepted(PadInputs(x, onKind, onIntent), w)
  {
    RespelledAccepted(x, PadInputs(x, onKind, onIntent), w);
  }

  lemma {:induction false} SameFault(documents: seq<Document>, fault: Document -> Option<ExportError>, n: nat,
                                     error: ExportError)
    requires 0 < n <= |documents| && forall d | d in documents :: fault(d) == Some(error)
    ensures FirstFault(documents, fault, n) == Some(error)
  {
    if n > 1 { SameFault(documents, fault, n - 1, error); }
  }

  /** When every padded document has this fault, the export of the padded submission stops with it. */
  lemma PaddedRefused(x: Inputs, w: Wording, onKind: Region -> bool, onIntent: Region -> bool, error: ExportError)
    requires Accepted(x, w) && error != VisualRejected && error != QueriesRejected
    requires var y := PadInputs(x, onKind, onIntent);
             forall d | d in x.documents :: DocumentFault(y, PadDocument(d, onKind, onIntent)) == Some(error)
    ensures Accepted(PadInputs(x, onKind, onIntent), w) && Export(PadInputs(x, onKind, onIntent)) == Err(error)
  {
    var y := PadInputs(x, onKind, onIntent);
    PaddedAccepted(x, w, onKind, onIntent);
    forall e | e in y.documents ensures Faults(y)(e) == Some(error) {
      var i :| 0 <= i < |y.documents| && y.documents[i] == e;
      assert x.documents[i] in x.documents && e == PadDocument(x.documents[i], onKind, onIntent);
    }
    SameFault(y.documents, Faults(y), |y.documents|, error);
    RefusalsExactly(y, w, error);
  }

  // ---- the four refusals ----

  predicate Every(r: Region) { true }

  predicate Nowhere(r: Region) { false }

  predicate IsPositive(r: Region) { r.kind.word == Positive }

  predicate IsNegative(r: Region) { r.kind.word != Positive }

  /** With a blank after every kind and intent nothing is exported. */
  lemma NoCasesReached(x: Inputs, w: Wording)
    requires Accepted(x, w) && forall d | d in x.documents :: HasRows(x, d.id)
    ensures var y := PadInputs(x, Every, Every); Accepted(y, w) && Export(y) == Err(NoCases)
  {
    var y := PadInputs(x, Every, Every);
    forall d | d in x.documents ensures DocumentFault(y, PadDocument(d, Every, Every)) == Some(NoCases) {
      NothingExported(d);
    }
    PaddedRefused(x, w, Every, Every, NoCases);
  }

  lemma NothingExported(d: Document)
    ensures forall s | s in PadDocument(d, Every, Every).regions :: RegionTypeOf(s) == None
  {
    forall s | s in PadDocument(d, Every, Every).regions ensures RegionTypeOf(s) == None {
      var r := PadSource(d, Every, Every, s);
    }
  }

  /** With a blank after the kinds of the positives the label of a positive is not found. */
  lemma UnlabelledReached(x: Inputs, w: Wording)
    requires Accepted(x, w) && Exportable(x)
    ensures var y := PadInputs(x, IsPositive, Nowhere); Accepted(y, w) && Export(y) == Err(UnlabelledKind)
  {
    var y := PadInputs(x, IsPositive, Nowhere);
    forall d | d in x.documents ensures DocumentFault(y, PadDocument(d, IsPositive, Nowhere)) == Some(UnlabelledKind) {
      ExportablePasses(x, d, w);
      SurvivorsFound(x, d, w);
      LabelsLost(d);
    }
    PaddedRefused(x, w, IsPositive, Nowhere, UnlabelledKind);
  }

  lemma LabelsLost(d: Document)
    requires HasExportedPositive(d.regions, Pinout)
    ensures HasUnlabelled(PadDocument(d, IsPositive, Nowhere).regions)
  {
    var r :| r in d.regions && BareKind(r) == Positive && BareIntent(r) == Pinout;
    PaddedRegion(d, IsPositive, Nowhere, r);
  }

  /** With a blank after the intents of the positives relevant links lead nowhere. */
  lemma RelevantNotExportedReached(x: Inputs, w: Wording)
    requires Accepted(x, w) && Exportable(x)
    ensures var y := PadInputs(x, Nowhere, IsPositive); Accepted(y, w) && Export(y) == Err(RelevantNotExported)
  {
    var y := PadInputs(x, Nowhere, IsPositive);
    forall d | d in x.documents
      ensures DocumentFault(y, PadDocument(d, Nowhere, IsPositive)) == Some(RelevantNotExported)
    {
      ExportablePasses(x, d, w);
      assert QueryOk(d.queries[0], d.regions, w);
      RelevantFault(y, d);
    }
    PaddedRefused(x, w, Nowhere, IsPositive, RelevantNotExported);
  }

  lemma RelevantFault(y: Inputs, d: Document)
    requires HasRows(y, d.id) && !HasUnlabelled(d.regions) && HasExportedNegative(d.regions)
    requires DistinctRegions(d.regions) && d.queries != [] && LinksOk(d.queries[0], d.regions)
    ensures DocumentFault(y, PadDocument(d, Nowhere, IsPositive)) == Some(RelevantNotExported)
  {
    var e := PadDocument(d, Nowhere, IsPositive);
    PositivesLost(d);
    RelevantLost(d, d.queries[0]);
    assert e.queries[0] in e.queries;
    var n :| n in e.regions && ExportedNegative(n);
    assert HasExported(e.regions);
  }

  lemma PositivesLost(d: Document)
    requires !HasUnlabelled(d.regions) && HasExportedNegative(d.regions)
    ensures var e := PadDocument(d, Nowhere, IsPositive); !HasUnlabelled(e.regions) && HasExportedNegative(e.regions)
    ensures forall s | s in PadDocument(d, Nowhere, IsPositive).regions :: Exported(s) ==> s.kind.word != Positive
  {
    forall s | s in PadDocument(d, Nowhere, IsPositive).regions
      ensures !Unlabelled(s) && (Exported(s) ==> s.kind.word != Positive)
    {
      var r := PadSource(d, Nowhere, IsPositive, s);
      assert !Unlabelled(r);
    }
    var n :| n in d.regions && ExportedNegative(n);
    PaddedRegion(d, Nowhere, IsPositive, n);
    assert ExportedNegative(Pad(n, Nowhere, IsPositive));
  }

  lemma RelevantLost(d: Document, q: Query)
    requires DistinctRegions(d.regions) && LinksOk(q, d.regions)
    requires forall s | s in PadDocument(d, Nowhere, IsPositive).regions :: Exported(s) ==> s.kind.word != Positive
    ensures KeptRelevant(PadDocument(d, Nowhere, IsPositive), q) == []
  {
    var e := PadDocument(d, Nowhere, IsPositive);
    var kept := KeptRelevant(e, q);
    assert kept == [] || kept[0] in kept;
    forall x | x in q.relevant ensures x !in ExportedIds(e.regions) {
      var p :| p in d.regions && RelevantRegion(p, x, q.intent.word);
      forall s | s in e.regions && s.id == x ensures !Exported(s) {
        var r := PadSource(d, Nowhere, IsPositive, s);
        SameRegion(d.regions, p, r);
      }
    }
    forall x ensures x !in kept { KeptMember(q.relevant, ExportedIds(e.regions), x); }
  }

  /** With a blank after the kinds and intents of the negatives no hard negative is exported. */
  lemma NoHardNegativesReached(x: Inputs, w: Wording)
    requires Accepted(x, w) && Exportable(x)
    ensures var y := PadInputs(x, IsNegative, IsNegative); Accepted(y, w) && Export(y) == Err(NoHardNegatives)
  {
    var y := PadInputs(x, IsNegative, IsNegative);
    forall d | d in x.documents
      ensures DocumentFault(y, PadDocument(d, IsNegative, IsNegative)) == Some(NoHardNegatives)
    {
      ExportablePasses(x, d, w);
      NegativesLost(d);
      assert QueryOk(d.queries[0], d.regions, w);
      RelevantStays(d, d.queries[0]);
    }
    PaddedRefused(x, w, IsNegative, IsNegative, NoHardNegatives);
  }

  lemma NegativesLost(d: Document)
    requires !HasUnlabelled(d.regions)
    ensures var e := PadDocument(d, IsNegative, IsNegative);
            !HasUnlabelled(e.regions) && !HasExportedNegative(e.regions)
  {
    forall s | s in PadDocument(d, IsNegative, IsNegative).regions ensures !Unlabelled(s) && !ExportedNegative(s) {
      var r := PadSource(d, IsNegative, IsNegative, s);
      assert !Unlabelled(r);
    }
  }

  lemma RelevantStays(d: Document, q: Query)
    requires DistinctRegions(d.regions) && LinksOk(q, d.regions) && KeptRelevant(d, q) != []
    ensures var e := PadDocument(d, IsNegative, IsNegative); KeptRelevant(e, q) != [] && HasExported(e.regions)
  {
    var e, x := PadDocument(d, IsNegative, IsNegative), KeptRelevant(d, q)[0];
    KeptMember(q.relevant, ExportedIds(d.regions), x);
    var s :| s in d.regions && RelevantRegion(s, x, q.intent.word);
    var r := LinkedRegion(d.regions, x, s);
    PaddedRegion(d, IsNegative, IsNegative, r);
    assert Exported(Pad(r, IsNegative, IsNegative));
    KeptMember(q.relevant, ExportedIds(e.regions), x);
  }

  lemma ExportablePasses(x: Inputs, d: Document, w: Wording)
    requires Accepted(x, w) && Exportable(x) && d in x.documents
    ensures DocumentAccepted(d, x.packet, w) && Passed(x, d) && d.queries != [] && d.queries[0] in d.queries
  {
    assert DocumentAccepted(d, x.packet, w);
    UsablePasses(x, d, w);
    PassedExactly(x, d, w);
  }
}
