module ExportAcceptance {
  // When the export of a sealed submission succeeds.

  import opened Prelude
  import opened Texts
  import opened AuthoringSubmission
  import opened VisualRegistry
  import opened QueryRegistry
  import opened CycleExport
  import opened ExportedCases
  import opened ExportedLinks
  import opened ExportedQueries

  type One = Result<(Entry, seq<Record>), ExportError>

  // ---- one document ----

  /**
   * Error or records of the query loop, when there are hard negatives: it only stops when nothing
   * relevant was exported.
   */
  lemma {:induction false} QueriesExactly(e: Entry, queries: seq<Query>, n: nat, author: Text)
    requires n <= |queries| && forall i | 0 <= i < n :: HardNegatives(queries[i], e.cases) != []
    ensures match ExportQueries(e, queries, n, author)
            case Err(error) =>
              && error == RelevantNotExported
              && exists i | 0 <= i < n :: Kept(queries[i].relevant, MappedIds(e.cases)) == []
            case Ok(records) =>
              && |records| == n
              && forall i | 0 <= i < n ::
                 Kept(queries[i].relevant, MappedIds(e.cases)) != [] && records[i] == RecordOf(e, queries[i], author)
  {
    if n > 0 { QueriesExactly(e, queries, n - 1, author); }
  }

  /** Without hard negatives it stops at the first query. */
  lemma StopsAtFirst(e: Entry, queries: seq<Query>, author: Text)
    requires queries != [] && HardNegatives(queries[0], e.cases) == []
    ensures ExportQueries(e, queries, |queries|, author) ==
            Err(if Kept(queries[0].relevant, MappedIds(e.cases)) == [] then RelevantNotExported else NoHardNegatives)
  {
    assert ExportQueries(e, queries, 0, author) == Ok([]);
    QueriesStop(e, queries, 1, |queries|, author);
  }

  lemma {:induction false} PacketFound(packet: seq<PacketDocument>, id: Text)
    ensures match FindPacket(packet, id)
            case Some(p) => p in packet && p.id == id
            case None => forall p | p in packet :: p.id != id
  {
    if packet != [] {
      PacketFound(packet[..|packet| - 1], id);
      assert packet == packet[..|packet| - 1] + [packet[|packet| - 1]];
    }
  }

  /** A document that is found under its own spelling has a trimmed id. */
  lemma RowsTrim(x: Inputs, d: Document, w: Wording)
    requires PacketAccepted(x.packet) && DocumentAccepted(d, x.packet, w) && HasRows(x, d.id)
    ensures Trimmed(d.id) && HasText(d.id)
    ensures IdentityOk(IdentityOf(FindPacket(x.packet, d.id).value))
  {
    PacketFound(x.packet, d.id);
    var p := FindPacket(x.packet, d.id).value;
    var q :| q in x.packet && q.id == Plain(d.id.core);
  }

  predicate LinksSurvive(d: Document) { forall q | q in d.queries :: KeptRelevant(d, q) != [] }

  function RecordsOf(e: Entry, d: Document, author: Text): seq<Record> {
    seq(|d.queries|, j requires 0 <= j < |d.queries| => RecordOf(e, d.queries[j], author))
  }

  lemma SurvivesByIndex(d: Document, mapped: set<Text>)
    requires mapped == ExportedIds(d.regions)
    ensures LinksSurvive(d) <==> forall i | 0 <= i < |d.queries| :: Kept(d.queries[i].relevant, mapped) != []
  {
    assert forall i | 0 <= i < |d.queries| ::
           d.queries[i] in d.queries && KeptRelevant(d, d.queries[i]) == Kept(d.queries[i].relevant, mapped);
    if !LinksSurvive(d) {
      var q :| q in d.queries && KeptRelevant(d, q) == [];
      var i :| 0 <= i < |d.queries| && d.queries[i] == q;
    }
  }

  predicate HasExported(regions: seq<Region>) { exists r | r in regions :: Exported(r) }

  /** What stops the export loop at a document, in the order of the checks; nothing when the loop gets past it. */
  function DocumentFault(x: Inputs, d: Document): Option<ExportError> {
    if !HasRows(x, d.id) then Some(MissingRow)
    else if HasUnlabelled(d.regions) then Some(UnlabelledKind)
    else if !HasExported(d.regions) then Some(NoCases)
    else if d.queries != [] && KeptRelevant(d, d.queries[0]) != [] && !HasExportedNegative(d.regions)
    then Some(NoHardNegatives)
    else if !LinksSurvive(d) then Some(RelevantNotExported)
    else None
  }

  ghost predicate Outcome(x: Inputs, d: Document, r: One) {
    match DocumentFault(x, d)
    case Some(error) => r == Err(error)
    case None => HasRows(x, d.id) && r == Ok((EntryFor(x, d), RecordsOf(EntryFor(x, d), d, x.author)))
  }

  lemma ExportedExactly(regions: seq<Region>, identity: Identity)
    ensures CasesOf(regions, identity) != [] <==> HasExported(regions)
  {
    var cases := CasesOf(regions, identity);
    if cases != [] { var r := CaseSource(regions, identity, cases[0]); }
    if HasExported(regions) {
      var r :| r in regions && Exported(r);
      RegionHasCase(regions, identity, r);
    }
  }

  /** The export of one document of an accepted submission: its fault, or its entry and records. */
  lemma DocumentExactly(x: Inputs, d: Document, w: Wording)
    requires DocumentAccepted(d, x.packet, w)
    ensures Outcome(x, d, ExportOne(x, d))
  {
    if HasRows(x, d.id) && !HasUnlabelled(d.regions) {
      var e, identity := EntryFor(x, d), IdentityOf(FindPacket(x.packet, d.id).value);
      MappedAreExported(d.regions, identity);
      ExportedExactly(d.regions, identity);
      FallbacksExactly(d, identity, x.packet, w);
      if HasExportedNegative(d.regions) {
        RecordsExactly(e, d, x.author);
      } else {
        assert d.queries[0] in d.queries;
        StopsAtFirst(e, d.queries, x.author);
      }
    }
  }

  lemma FallbacksExactly(d: Document, identity: Identity, packet: seq<PacketDocument>, w: Wording)
    requires DocumentAccepted(d, packet, w)
    ensures forall q | q in d.queries :: HardNegatives(q, Oppose(CasesOf(d.regions, identity))) != [] <==>
            HasExportedNegative(d.regions)
  {
    forall q | q in d.queries
      ensures HardNegatives(q, Oppose(CasesOf(d.regions, identity))) != [] <==> HasExportedNegative(d.regions)
    {
      assert QueryOk(q, d.regions, w);
      HardNegativesExist(d.regions, identity, q);
    }
  }

  lemma RecordsExactly(e: Entry, d: Document, author: Text)
    requires MappedIds(e.cases) == ExportedIds(d.regions)
    requires forall q | q in d.queries :: HardNegatives(q, e.cases) != []
    ensures ExportQueries(e, d.queries, |d.queries|, author) ==
            if LinksSurvive(d) then Ok(RecordsOf(e, d, author)) else Err(RelevantNotExported)
  {
    QueriesExactly(e, d.queries, |d.queries|, author);
    SurvivesByIndex(d, MappedIds(e.cases));
    match ExportQueries(e, d.queries, |d.queries|, author)
    case Err(_) =>
    case Ok(records) => assert records == RecordsOf(e, d, author);
  }

  // ---- the document loop ----

  /** All records, in document order. */
  function AllRecords(entries: seq<Entry>, documents: seq<Document>, author: Text): seq<Record>
    requires |entries| == |documents|
  {
    if entries == [] then []
    else
      var n := |entries| - 1;
      AllRecords(entries[..n], documents[..n], author) + RecordsOf(entries[n], documents[n], author)
  }

  lemma RecordsGrow(entries: seq<Entry>, e: Entry, documents: seq<Document>, n: nat, author: Text)
    requires |entries| == n < |documents|
    ensures AllRecords(entries + [e], documents[..n + 1], author) ==
            AllRecords(entries, documents[..n], author) + RecordsOf(e, documents[n], author)
  {
    assert (entries + [e])[..n] == entries && documents[..n + 1][..n] == documents[..n];
  }

  /** The state of the document loop after `n` documents. */
  ghost predicate GatheredSoFar(documents: seq<Document>, one: Document -> One, author: Text, n: nat, a: Artifacts)
    requires n <= |documents|
  {
    && |a.entries| == n && a.records == AllRecords(a.entries, documents[..n], author)
    && forall i | 0 <= i < n :: one(documents[i]).Ok? && a.entries[i] == one(documents[i]).value.0
  }

  /** The fault of the first document that has one. */
  function FirstFault(documents: seq<Document>, fault: Document -> Option<ExportError>, n: nat): Option<ExportError>
    requires n <= |documents|
  {
    if n == 0 then None
    else match FirstFault(documents, fault, n - 1)
         case Some(error) => Some(error)
         case None => fault(documents[n - 1])
  }

  ghost predicate Follows(r: One, fault: Option<ExportError>, d: Document, author: Text) {
    match fault
    case Some(error) => r == Err(error)
    case None => r.Ok? && r.value.1 == RecordsOf(r.value.0, d, author)
  }

  lemma {:induction false} GatherExactly(documents: seq<Document>, one: Document -> One,
                                         fault: Document -> Option<ExportError>, author: Text, n: nat)
    requires n <= |documents| && forall d | d in documents :: Follows(one(d), fault(d), d, author)
    ensures match Gather(documents, one, n)
            case Err(error) => FirstFault(documents, fault, n) == Some(error)
            case Ok(a) => FirstFault(documents, fault, n) == None && GatheredSoFar(documents, one, author, n, a)
  {
    if n > 0 {
      GatherExactly(documents, one, fault, author, n - 1);
      assert documents[n - 1] in documents;
      if Gather(documents, one, n - 1).Ok? && one(documents[n - 1]).Ok? {
        OneMoreGathered(documents, one, author, n - 1, Gather(documents, one, n - 1).value,
                        one(documents[n - 1]).value.0);
      }
    }
  }

  lemma OneMoreGathered(documents: seq<Document>, one: Document -> One, author: Text, n: nat, a: Artifacts, e: Entry)
    requires n < |documents| && GatheredSoFar(documents, one, author, n, a)
    requires one(documents[n]) == Ok((e, RecordsOf(e, documents[n], author)))
    ensures GatheredSoFar(documents, one, author, n + 1,
                          Artifacts(a.entries + [e], a.records + RecordsOf(e, documents[n], author)))
  {
    RecordsGrow(a.entries, e, documents, n, author);
  }

  // ---- entries ----

  /** What a caller has to see to in the plan, the packet and the source manifest for one document. */
  predicate RowsUsable(x: Inputs, d: Document)
    requires HasRows(x, d.id)
  {
    var f := x.plan[d.id];
    && FamilyUsable(f) && IsSha256(x.hashes[d.id].core)
    && (HasExportedWrongPackage(d.regions) ==> PackageUsable(IdentityOf(FindPacket(x.packet, d.id).value)))
    && (forall r | r in d.regions :: RegionUsable(r))
  }

  predicate FamilyUsable(f: Family) {
    f.split.core in SPLITS && HasText(f.category) && "https://" <= f.url.core && HasText(f.revision)
  }

  predicate SealOk(seal: Seal) { HasText(seal.reviewer) && HasText(seal.reviewedAt.text) && HasText(seal.digest) }

  lemma EntryExactly(d: Document, p: PacketDocument, f: Family, sha: Text, seal: Seal, pages: nat)
    requires RegionsAccepted(d.regions, pages) && IdentityOk(IdentityOf(p)) && HasText(d.id) && SealOk(seal)
    ensures EntryOk(EntryOf(d, p, f, sha, seal)) <==>
            FamilyUsable(f) && IsSha256(sha.core) && seal.reviewedAt.Zoned? && KindsSurvive(d.regions)
            && (HasExportedWrongPackage(d.regions) ==> PackageUsable(IdentityOf(p)))
            && (forall r | r in d.regions :: RegionUsable(r))
  {
    CasesOkExactly(d.regions, IdentityOf(p), pages);
    HeaderExactly(EntryOf(d, p, f, sha, seal), f, seal);
  }

  /** The checks on an entry other than those on its cases. */
  lemma HeaderExactly(e: Entry, f: Family, seal: Seal)
    requires e.id == e.group && HasText(e.id) && IdentityOk(e.identity) && SealOk(seal)
    requires e.split == f.split && e.category == f.category && e.url == f.url && e.revision == f.revision
    requires e.review == Review(true, [seal.reviewer], Some(seal.reviewedAt), seal.digest)
    ensures EntryOk(e) <==>
            FamilyUsable(f) && IsSha256(e.sha.core) && seal.reviewedAt.Zoned? && CasesOk(e.cases, e.identity)
  {
  }

  function Hashes(entries: seq<Entry>): seq<string> {
    seq(|entries|, i requires 0 <= i < |entries| => entries[i].sha.core)
  }

  /** With one group per entry, only the case ids and the source hashes can clash. */
  lemma ConsistentExactly(entries: seq<Entry>)
    requires Distinct(EntryIds(entries)) && forall e | e in entries :: e.group == e.id
    ensures Consistent(entries) <==> Distinct(AllIds(entries)) && Distinct(Hashes(entries))
  {
    forall d, e | d in entries && e in entries && d.id.core == e.id.core ensures d == e {
      var j :| 0 <= j < |entries| && entries[j] == e;
      SameEntry(entries, j, d);
    }
    if Distinct(Hashes(entries)) {
      forall d, e | d in entries && e in entries ensures SameOwner(d, e) {
        var i :| 0 <= i < |entries| && entries[i] == d;
        var j :| 0 <= j < |entries| && entries[j] == e;
        assert Hashes(entries)[i] == d.sha.core && Hashes(entries)[j] == e.sha.core;
      }
    }
    if forall d, e | d in entries && e in entries :: SameOwner(d, e) {
      forall i, j | 0 <= i < j < |entries| ensures Hashes(entries)[i] != Hashes(entries)[j] {
        assert SameOwner(entries[i], entries[j]);
        assert EntryIds(entries)[i] != EntryIds(entries)[j];
      }
    }
  }

  // ---- ids ----

  /** The qualified ids of a document's exportable regions, as the visual loader reads them. */
  function RegionIdsOf(id: string, regions: seq<Region>): seq<string> {
    if regions == [] then []
    else
      var r := regions[|regions| - 1];
      RegionIdsOf(id, regions[..|regions| - 1]) + (if Exported(r) then [id + "/" + r.id.core] else [])
  }

  function AllRegionIds(documents: seq<Document>): seq<string> {
    if documents == [] then []
    else
      var d := documents[|documents| - 1];
      AllRegionIds(documents[..|documents| - 1]) + RegionIdsOf(d.id.core, d.regions)
  }

  function CaseIdTexts(id: string, cases: seq<Case>): seq<string> {
    seq(|cases|, i requires 0 <= i < |cases| => id + "/" + cases[i].id.core)
  }

  lemma {:induction false} CaseIdsOfRegions(id: string, regions: seq<Region>, identity: Identity)
    ensures CaseIdTexts(id, CasesOf(regions, identity)) == RegionIdsOf(id, regions)
  {
    if regions != [] {
      var front, r := regions[..|regions| - 1], regions[|regions| - 1];
      CaseIdsOfRegions(id, front, identity);
      if Exported(r) {
        assert CasesOf(regions, identity) == CasesOf(front, identity) + [CaseOf(r, identity)];
      }
    }
  }

  lemma QualifiedAreRegionIds(e: Entry, d: Document, identity: Identity)
    requires e.id == d.id && e.cases == Oppose(CasesOf(d.regions, identity))
    ensures QualifiedIds(e) == RegionIdsOf(d.id.core, d.regions)
  {
    CaseIdsOfRegions(d.id.core, d.regions, identity);
    assert QualifiedIds(e) == CaseIdTexts(d.id.core, e.cases);
  }

  /** Entry by entry the export of the documents. */
  ghost predicate Mirrors(entries: seq<Entry>, documents: seq<Document>) {
    && |entries| == |documents|
    && forall i | 0 <= i < |entries| ::
         entries[i].id == documents[i].id &&
         QualifiedIds(entries[i]) == RegionIdsOf(documents[i].id.core, documents[i].regions)
  }

  lemma {:induction false} AllIdsAreRegionIds(entries: seq<Entry>, documents: seq<Document>)
    requires Mirrors(entries, documents)
    ensures AllIds(entries) == AllRegionIds(documents) && EntryIds(entries) == DocumentIds(documents)
  {
    if entries != [] {
      var front, before := entries[..|entries| - 1], documents[..|documents| - 1];
      assert Mirrors(front, before);
      AllIdsAreRegionIds(front, before);
    }
  }

  // ---- the registry ----

  /**
   * The representation of ids, and what `load_authoring_packet`, `load_submission` and
   * `load_authoring_seal` have checked.
   */
  ghost predicate Accepted(x: Inputs, w: Wording) {
    && PacketAccepted(x.packet) && SubmissionAccepted(x.documents, x.packet, w) && SealOk(x.seal) && HasText(x.author)
    && forall d | d in x.documents :: CanonicalRegions(d.regions)
  }

  /** The faults of the documents of `x`. */
  function Faults(x: Inputs): Document -> Option<ExportError> { (d: Document) => DocumentFault(x, d) }

  /** The loop got through `x.documents` with these entries. */
  ghost predicate Gathered(x: Inputs, entries: seq<Entry>) {
    && |entries| == |x.documents|
    && (forall d | d in x.documents :: Passed(x, d))
    && forall i | 0 <= i < |entries| :: Passed(x, x.documents[i]) && entries[i] == EntryFor(x, x.documents[i])
  }

  /** The loop gets past the document. */
  predicate Passed(x: Inputs, d: Document) {
    HasRows(x, d.id) && !HasUnlabelled(d.regions) && HasExportedNegative(d.regions) && LinksSurvive(d)
  }

  lemma PassedExactly(x: Inputs, d: Document, w: Wording)
    requires DocumentAccepted(d, x.packet, w)
    ensures DocumentFault(x, d) == None <==> Passed(x, d)
  {
    assert d.queries[0] in d.queries;
    if HasExportedNegative(d.regions) {
      var r :| r in d.regions && ExportedNegative(r);
      assert HasExported(d.regions);
    }
  }

  lemma LoopExactly(x: Inputs, one: Document -> One, w: Wording)
    requires Accepted(x, w) && ExportsOne(x, one)
    ensures match Gather(x.documents, one, |x.documents|)
            case Err(error) => FirstFault(x.documents, Faults(x), |x.documents|) == Some(error)
            case Ok(a) =>
              && FirstFault(x.documents, Faults(x), |x.documents|) == None
              && Gathered(x, a.entries) && a.records == AllRecords(a.entries, x.documents, x.author)
  {
    forall d | d in x.documents
      ensures Outcome(x, d, one(d)) && Follows(one(d), Faults(x)(d), d, x.author)
      ensures DocumentFault(x, d) == None <==> Passed(x, d)
    {
      assert one(d) == ExportOne(x, d);
      DocumentExactly(x, d, w);
      PassedExactly(x, d, w);
    }
    GatherExactly(x.documents, one, Faults(x), x.author, |x.documents|);
    assert x.documents[..|x.documents|] == x.documents;
    match Gather(x.documents, one, |x.documents|)
    case Err(_) =>
    case Ok(a) => AllGathered(x, one, a);
  }

  lemma AllGathered(x: Inputs, one: Document -> One, a: Artifacts)
    requires forall d | d in x.documents :: Outcome(x, d, one(d)) && (DocumentFault(x, d) == None <==> Passed(x, d))
    requires GatheredSoFar(x.documents, one, x.author, |x.documents|, a)
    ensures Gathered(x, a.entries)
  {
    forall d | d in x.documents ensures Passed(x, d) {
      var i :| 0 <= i < |x.documents| && x.documents[i] == d;
    }
    forall i | 0 <= i < |a.entries| ensures Passed(x, x.documents[i]) && a.entries[i] == EntryFor(x, x.documents[i]) {
      assert Outcome(x, x.documents[i], one(x.documents[i]));
    }
  }

  /** What a caller sees to for the registry: usable rows, and no clash between documents. */
  ghost predicate RegistryUsable(x: Inputs)
    requires forall d | d in x.documents :: HasRows(x, d.id)
  {
    && x.seal.reviewedAt.Zoned?
    && (forall d | d in x.documents :: RowsUsable(x, d))
    && Distinct(SourceHashes(x))
    && Distinct(AllRegionIds(x.documents))
  }

  function HashOf(x: Inputs, d: Document): string { if d.id in x.hashes then x.hashes[d.id].core else "" }

  function SourceHashes(x: Inputs): seq<string> {
    seq(|x.documents|, i requires 0 <= i < |x.documents| => HashOf(x, x.documents[i]))
  }

  /** The visual loader trims splits, and the query loader compares them as they are. */
  ghost predicate SplitsExact(x: Inputs)
    requires forall d | d in x.documents :: HasRows(x, d.id)
  {
    forall d | d in x.documents :: SplitExact(x, d)
  }

  predicate SplitExact(x: Inputs, d: Document)
    requires HasRows(x, d.id)
  {
    Trimmed(x.plan[d.id].split)
  }

  ghost predicate SplitsTrimmed(entries: seq<Entry>) { forall e | e in entries :: Trimmed(e.split) }

  lemma SplitsExactly(x: Inputs, entries: seq<Entry>)
    requires Gathered(x, entries) && forall d | d in x.documents :: HasRows(x, d.id)
    ensures SplitsTrimmed(entries) <==> SplitsExact(x)
  {
    ByPosition(entries, x.documents, (e: Entry) => Trimmed(e.split),
               (d: Document) => HasRows(x, d.id) && SplitExact(x, d));
  }

  lemma ExportedPositive(d: Document, q: Query)
    requires DistinctRegions(d.regions) && LinksOk(q, d.regions) && q.intent.word in REGION_TYPES &&
             KeptRelevant(d, q) != []
    ensures HasExportedPositive(d.regions, q.intent.word)
  {
    var x := KeptRelevant(d, q)[0];
    KeptMember(q.relevant, ExportedIds(d.regions), x);
    var s :| s in d.regions && RelevantRegion(s, x, q.intent.word);
    var r := LinkedRegion(d.regions, x, s);
    assert BareKind(r) == Positive && BareIntent(r) == q.intent.word;
  }

  /** With two queries of every intent, a document that passes the loop keeps positives of all three types. */
  lemma SurvivorsFound(x: Inputs, d: Document, w: Wording)
    requires DocumentAccepted(d, x.packet, w) && Passed(x, d)
    ensures KindsSurvive(d.regions)
  {
    forall t | t in REGION_TYPES ensures HasExportedPositive(d.regions, t) {
      var q := QueryOfIntent(d, t, w);
      ExportedPositive(d, q);
    }
    assert Pinout in REGION_TYPES && Table in REGION_TYPES && Package in REGION_TYPES;
  }

  lemma QueryOfIntent(d: Document, t: Intent, w: Wording) returns (q: Query)
    requires QueriesAccepted(d.queries, d.regions, w) && t in REGION_TYPES
    ensures q in d.queries && QueryOk(q, d.regions, w) && q.intent.word == t
  {
    q := CountFound(d.queries, (x: Query) => x.intent.word == t);
  }

  lemma EachEntryExactly(x: Inputs, d: Document, w: Wording)
    requires Accepted(x, w) && d in x.documents && Passed(x, d)
    ensures EntryOk(EntryFor(x, d)) <==> x.seal.reviewedAt.Zoned? && RowsUsable(x, d)
  {
    assert DocumentAccepted(d, x.packet, w);
    RowsTrim(x, d, w);
    SurvivorsFound(x, d, w);
    EntryExactly(d, FindPacket(x.packet, d.id).value, x.plan[d.id], x.hashes[d.id], x.seal,
                 PagesOf(x.packet, d.id.core));
  }

  lemma GatheredMirrors(x: Inputs, entries: seq<Entry>)
    requires Gathered(x, entries)
    ensures Mirrors(entries, x.documents) && Hashes(entries) == SourceHashes(x)
    ensures forall e | e in entries :: e.group == e.id
  {
    forall i | 0 <= i < |entries|
      ensures entries[i].id == x.documents[i].id && entries[i].group == entries[i].id &&
              Hashes(entries)[i] == SourceHashes(x)[i]
      ensures QualifiedIds(entries[i]) == RegionIdsOf(x.documents[i].id.core, x.documents[i].regions)
    {
      var d := x.documents[i];
      assert entries[i] == EntryFor(x, d);
      QualifiedAreRegionIds(entries[i], d, IdentityOf(FindPacket(x.packet, d.id).value));
    }
  }

  /** The visual loader accepts the exported entries exactly when the rows are usable and nothing clashes. */
  lemma VisualExactly(x: Inputs, entries: seq<Entry>, w: Wording)
    requires Accepted(x, w) && Gathered(x, entries)
    ensures VisualAccepted(entries) <==> RegistryUsable(x)
    ensures Distinct(EntryIds(entries)) && (forall e | e in entries :: e.group == e.id)
    ensures Distinct(AllIds(entries)) <==> Distinct(AllRegionIds(x.documents))
  {
    GatheredMirrors(x, entries);
    AllIdsAreRegionIds(entries, x.documents);
    ConsistentExactly(entries);
    EntriesExactly(x, entries, w);
  }

  lemma EntriesExactly(x: Inputs, entries: seq<Entry>, w: Wording)
    requires Accepted(x, w) && Gathered(x, entries)
    ensures EachOk(entries) <==> x.seal.reviewedAt.Zoned? && forall d | d in x.documents :: RowsUsable(x, d)
  {
    forall i | 0 <= i < |entries|
      ensures EntryOk(entries[i]) <==> x.seal.reviewedAt.Zoned? && RowsUsable(x, x.documents[i])
    {
      EachEntryExactly(x, x.documents[i], w);
    }
    ByPosition(entries, x.documents, (e: Entry) => EntryOk(e),
               (d: Document) => HasRows(x, d.id) && RowsUsable(x, d) && x.seal.reviewedAt.Zoned?);
    assert x.documents[0] in x.documents;
  }

  /** Two lists that agree position by position agree as a whole. */
  lemma ByPosition<A, B>(s: seq<A>, t: seq<B>, p: A -> bool, q: B -> bool)
    requires |s| == |t| && forall i | 0 <= i < |s| :: p(s[i]) <==> q(t[i])
    ensures (forall a | a in s :: p(a)) <==> (forall b | b in t :: q(b))
  {
  }

  // ---- the query registry ----

  function QueryIdsOf(d: Document): seq<Text> {
    seq(|d.queries|, j requires 0 <= j < |d.queries| => Qualified(d.id, d.queries[j].id))
  }

  function AllQueryIds(documents: seq<Document>): seq<Text> {
    if documents == [] then []
    else AllQueryIds(documents[..|documents| - 1]) + QueryIdsOf(documents[|documents| - 1])
  }

  lemma {:induction false} RecordIdsAreQueryIds(entries: seq<Entry>, documents: seq<Document>, author: Text)
    requires |entries| == |documents| && forall i | 0 <= i < |entries| :: entries[i].id == documents[i].id
    ensures RecordIds(AllRecords(entries, documents, author)) == AllQueryIds(documents)
  {
    if entries != [] {
      var n := |entries| - 1;
      var before, mine := AllRecords(entries[..n], documents[..n], author), RecordsOf(entries[n], documents[n], author);
      RecordIdsAreQueryIds(entries[..n], documents[..n], author);
      assert RecordIds(mine) == QueryIdsOf(documents[n]);
      assert RecordIds(before + mine) == RecordIds(before) + RecordIds(mine);
    }
  }

  lemma EveryOwnRecord(e: Entry, d: Document, author: Text, p: Record -> bool)
    ensures AllHold(RecordsOf(e, d, author), p) <==> OwnRecords(e, d, author, p)
  {
    if forall r | r in RecordsOf(e, d, author) :: p(r) {
      forall q | q in d.queries ensures p(RecordOf(e, q, author)) {
        var j :| 0 <= j < |d.queries| && d.queries[j] == q;
        assert RecordsOf(e, d, author)[j] in RecordsOf(e, d, author);
      }
    }
  }

  predicate OwnRecords(e: Entry, d: Document, author: Text, p: Record -> bool) {
    forall q | q in d.queries :: p(RecordOf(e, q, author))
  }

  predicate AllOwned(entries: seq<Entry>, documents: seq<Document>, author: Text, p: Record -> bool)
    requires |entries| == |documents|
  {
    forall i | 0 <= i < |entries| :: OwnRecords(entries[i], documents[i], author, p)
  }

  lemma LastOwned(entries: seq<Entry>, documents: seq<Document>, author: Text, p: Record -> bool)
    requires |entries| == |documents| > 0
    ensures var n := |entries| - 1;
            AllOwned(entries, documents, author, p) <==>
            AllOwned(entries[..n], documents[..n], author, p) && OwnRecords(entries[n], documents[n], author, p)
  {
    assert forall i | 0 <= i < |entries| - 1 ::
        entries[..|entries| - 1][i] == entries[i] && documents[..|entries| - 1][i] == documents[i];
  }

  predicate AllHold(records: seq<Record>, p: Record -> bool) { forall r | r in records :: p(r) }

  lemma MoreHold(a: seq<Record>, b: seq<Record>, p: Record -> bool)
    ensures AllHold(a + b, p) <==> AllHold(a, p) && AllHold(b, p)
  {
    assert forall r :: r in a + b <==> r in a || r in b;
  }

  lemma {:induction false} EveryRecord(entries: seq<Entry>, documents: seq<Document>, author: Text, p: Record -> bool)
    requires |entries| == |documents|
    ensures AllHold(AllRecords(entries, documents, author), p) <==> AllOwned(entries, documents, author, p)
  {
    if entries != [] {
      var n := |entries| - 1;
      EveryRecord(entries[..n], documents[..n], author, p);
      EveryOwnRecord(entries[n], documents[n], author, p);
      MoreHold(AllRecords(entries[..n], documents[..n], author), RecordsOf(entries[n], documents[n], author), p);
      LastOwned(entries, documents, author, p);
    }
  }

  ghost predicate QueriesUsable(d: Document) { forall q | q in d.queries :: QueryUsable(d, q) }

  /** What loading the visual registry leaves for the query registry. */
  ghost predicate Unambiguous(entries: seq<Entry>) {
    && Distinct(AllIds(entries)) && Distinct(EntryIds(entries))
    && forall e | e in entries :: e.group == e.id && HasText(e.split)
  }

  lemma VisualGivesUnambiguous(entries: seq<Entry>)
    requires VisualAccepted(entries) && forall e | e in entries :: e.group == e.id
    ensures Unambiguous(entries)
  {
    assert "" !in SPLITS;
    forall e | e in entries ensures HasText(e.split) { assert EntryOk(e); }
  }

  /** What acceptance says about one document that got through the loop. */
  ghost predicate DocumentReady(d: Document, pages: nat, w: Wording) {
    && RegionsAccepted(d.regions, pages) && QueriesAccepted(d.queries, d.regions, w)
    && CanonicalRegions(d.regions) && LinksSurvive(d) && HasExportedNegative(d.regions) && HasText(d.id)
  }

  /** The records of a document pass exactly when its queries are usable and its split is trimmed. */
  lemma OwnRecordsExactly(entries: seq<Entry>, k: nat, d: Document, identity: Identity, pages: nat, w: Wording,
                          author: Text, p: Record -> bool)
    requires Placed(entries, k, d, identity) && DocumentReady(d, pages, w) && HasText(entries[k].split) &&
             HasText(author)
    requires Decides(entries, p)
    ensures OwnRecords(entries[k], d, author, p) <==> QueriesUsable(d) && Trimmed(entries[k].split)
  {
    forall q | q in d.queries
      ensures p(RecordOf(entries[k], q, author)) <==> QueryUsable(d, q) && Trimmed(entries[k].split)
    {
      assert QueryOk(q, d.regions, w);
      RecordExactly(entries, k, d, identity, q, author, pages);
    }
    assert d.queries[0] in d.queries;
  }

  lemma GatheredIsPlaced(x: Inputs, entries: seq<Entry>, k: nat, w: Wording)
    requires Accepted(x, w) && Gathered(x, entries) && Unambiguous(entries) && k < |entries|
    ensures var d := x.documents[k];
            && HasRows(x, d.id) && Placed(entries, k, d, IdentityOf(FindPacket(x.packet, d.id).value))
            && DocumentReady(d, PagesOf(x.packet, d.id.core), w)
  {
    var d := x.documents[k];
    assert d in x.documents && entries[k] == EntryFor(x, d);
    assert DocumentAccepted(d, x.packet, w);
    RowsTrim(x, d, w);
  }

  ghost predicate Decides(entries: seq<Entry>, p: Record -> bool) {
    forall r {:trigger RecordOk(entries, r)} :: p(r) == RecordOk(entries, r)
  }

  lemma RecordsAcceptedExactly(x: Inputs, entries: seq<Entry>, w: Wording, p: Record -> bool)
    requires Accepted(x, w) && Gathered(x, entries) && Unambiguous(entries) && Decides(entries, p)
    ensures RecordsAccepted(entries, AllRecords(entries, x.documents, x.author)) <==>
            && (forall d | d in x.documents :: QueriesUsable(d))
            && SplitsTrimmed(entries) && Distinct(AllQueryIds(x.documents))
  {
    RecordIdsAreQueryIds(entries, x.documents, x.author);
    EveryRecord(entries, x.documents, x.author, p);
    EveryDocument(x, entries, w, p);
  }

  lemma OneDocument(x: Inputs, entries: seq<Entry>, k: nat, w: Wording, p: Record -> bool)
    requires Accepted(x, w) && Gathered(x, entries) && Unambiguous(entries) && Decides(entries, p) && k < |entries|
    ensures OwnRecords(entries[k], x.documents[k], x.author, p) <==>
            QueriesUsable(x.documents[k]) && Trimmed(entries[k].split)
  {
    var d := x.documents[k];
    GatheredIsPlaced(x, entries, k, w);
    assert entries[k] in entries;
    OwnRecordsExactly(entries, k, d, IdentityOf(FindPacket(x.packet, d.id).value), PagesOf(x.packet, d.id.core), w,
                      x.author, p);
  }

  lemma EveryDocument(x: Inputs, entries: seq<Entry>, w: Wording, p: Record -> bool)
    requires Accepted(x, w) && Gathered(x, entries) && Unambiguous(entries) && Decides(entries, p)
    ensures (forall k | 0 <= k < |entries| :: OwnRecords(entries[k], x.documents[k], x.author, p)) <==>
            (forall d | d in x.documents :: QueriesUsable(d)) && SplitsTrimmed(entries)
  {
    forall k | 0 <= k < |entries|
      ensures OwnRecords(entries[k], x.documents[k], x.author, p) <==>
              QueriesUsable(x.documents[k]) && Trimmed(entries[k].split)
    {
      OneDocument(x, entries, k, w, p);
    }
    EveryPosition(entries, x.documents, x.author, p);
  }

  lemma EveryPosition(entries: seq<Entry>, documents: seq<Document>, author: Text, p: Record -> bool)
    requires |entries| == |documents|
    requires forall k | 0 <= k < |entries| ::
               OwnRecords(entries[k], documents[k], author, p) <==>
               QueriesUsable(documents[k]) && Trimmed(entries[k].split)
    ensures (forall k | 0 <= k < |entries| :: OwnRecords(entries[k], documents[k], author, p)) <==>
            (forall d | d in documents :: QueriesUsable(d)) && SplitsTrimmed(entries)
  {
  }

  // ---- the theorem ----

  ghost predicate AllQueriesUsable(x: Inputs) { forall d | d in x.documents :: QueriesUsable(d) }

  /** What a caller sees to for the query registry. */
  ghost predicate RecordsUsable(x: Inputs)
    requires forall d | d in x.documents :: HasRows(x, d.id)
  {
    SplitsExact(x) && AllQueriesUsable(x) && Distinct(AllQueryIds(x.documents))
  }

  /** The conditions under which an accepted and sealed submission can be exported. */
  ghost predicate Exportable(x: Inputs) {
    && (forall d | d in x.documents :: HasRows(x, d.id) && !HasUnlabelled(d.regions))
    && RegistryUsable(x) && RecordsUsable(x)
  }

  /** The export of an accepted submission: the first fault of the loop, or what the two loaders say. */
  lemma ExportVerdict(x: Inputs, w: Wording)
    requires Accepted(x, w)
    ensures match FirstFault(x.documents, Faults(x), |x.documents|)
            case Some(error) => Export(x) == Err(error)
            case None => LoopPasses(x) && Judged(x, Export(x))
  {
    var one := (d: Document) => ExportOne(x, d);
    LoopExactly(x, one, w);
    match Gather(x.documents, one, |x.documents|)
    case Err(_) =>
    case Ok(a) => LoadExactly(x, a, w);
  }

  ghost predicate LoopPasses(x: Inputs) { forall d | d in x.documents :: Passed(x, d) }

  /** The visual loader speaks first. */
  ghost predicate Judged(x: Inputs, r: Result<Artifacts, ExportError>)
    requires LoopPasses(x)
  {
    if !RegistryUsable(x) then r == Err(VisualRejected)
    else if !RecordsUsable(x) then r == Err(QueriesRejected)
    else r.Ok?
  }

  lemma LoadExactly(x: Inputs, a: Artifacts, w: Wording)
    requires Accepted(x, w) && Gathered(x, a.entries) && a.records == AllRecords(a.entries, x.documents, x.author)
    ensures LoopPasses(x) && Judged(x, Load(Ok(a)))
  {
    VisualExactly(x, a.entries, w);
    if VisualAccepted(a.entries) { RecordsExactlyUsable(x, a, w); }
    LoadSays(a);
  }

  lemma RecordsExactlyUsable(x: Inputs, a: Artifacts, w: Wording)
    requires Accepted(x, w) && Gathered(x, a.entries) && a.records == AllRecords(a.entries, x.documents, x.author)
    requires VisualAccepted(a.entries) && forall d | d in x.documents :: HasRows(x, d.id)
    ensures RecordsAccepted(a.entries, a.records) <==> RecordsUsable(x)
  {
    GatheredMirrors(x, a.entries);
    VisualGivesUnambiguous(a.entries);
    RecordsAcceptedExactly(x, a.entries, w, (r: Record) => RecordOk(a.entries, r));
    SplitsExactly(x, a.entries);
  }

  lemma LoadSays(a: Artifacts)
    ensures Load(Ok(a)) == if !VisualAccepted(a.entries) then Err(VisualRejected)
                           else if !RecordsAccepted(a.entries, a.records) then Err(QueriesRejected) else Ok(a)
  {
  }

  /** Both loaders accept the export of an accepted submission exactly when it is exportable. */
  lemma ExportExactly(x: Inputs, w: Wording)
    requires Accepted(x, w)
    ensures Export(x).Ok? <==> Exportable(x)
  {
    ExportVerdict(x, w);
    if Exportable(x) { ExportableHasNoFault(x, w, |x.documents|); }
  }

  lemma UsablePasses(x: Inputs, d: Document, w: Wording)
    requires DocumentAccepted(d, x.packet, w) && HasRows(x, d.id) && !HasUnlabelled(d.regions) && QueriesUsable(d)
    ensures DocumentFault(x, d) == None
  {
    var q := d.queries[0];
    assert q in d.queries && QueryOk(q, d.regions, w);
    if KeptHard(d, q) != [] {
      var y := KeptHard(d, q)[0];
      KeptMember(q.hardNegatives, ExportedIds(d.regions), y);
      var s :| s in d.regions && NegativeRegion(s, y);
      var r := LinkedRegion(d.regions, y, s);
      assert ExportedNegative(r);
    }
    PassedExactly(x, d, w);
  }

  lemma {:induction false} ExportableHasNoFault(x: Inputs, w: Wording, n: nat)
    requires Accepted(x, w) && Exportable(x) && n <= |x.documents|
    ensures FirstFault(x.documents, Faults(x), n) == None
  {
    if n > 0 {
      ExportableHasNoFault(x, w, n - 1);
      assert DocumentAccepted(x.documents[n - 1], x.packet, w);
      UsablePasses(x, x.documents[n - 1], w);
    }
  }
}
