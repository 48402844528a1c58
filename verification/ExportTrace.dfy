/**
 * What an export that succeeds has written.
 *
 * Every entry, case, record and judgment is traced back to the row, region and query that it
 * comes from, and every document, exportable region and query forward to what it has become.
 * The tables of the export (kinds to labels, intents to region types) appear here as plain
 * statements about the result.
 */
module ExportTrace {
  import opened Prelude
  import opened Texts
  import opened AuthoringSubmission
  import opened VisualRegistry
  import opened QueryRegistry
  import opened CycleExport
  import opened ExportedCases
  import opened ExportedLinks

  // ---- cases ----

  /** The regions that become cases, in order. */
  function Exportables(regions: seq<Region>): seq<Region> { Filter(regions, (r: Region) => Exported(r)) }

  /** A positive top or bottom view of this type gets into the registry. */
  predicate Shown(regions: seq<Region>, t: RegionType) {
    exists r | r in regions :: BareKind(r) == Positive && RegionTypeOf(r) == Some(t) && Opposable(r.view)
  }

  predicate SomethingShown(regions: seq<Region>) {
    Shown(regions, PinoutRegion) || Shown(regions, TableRegion) || Shown(regions, PackageRegion)
  }

  /** The identity that a case claims: the real one, or a wrong package, or a part number with another ending. */
  predicate ClaimTraced(c: Case, r: Region, identity: Identity) {
    && c.claimed.manufacturer == identity.manufacturer
    && (BareKind(r) != WrongVariant ==> c.claimed.mpn == identity.mpn)
    && (BareKind(r) == WrongVariant ==> c.claimed.mpn.core == identity.mpn.core + identity.mpn.right + "-X")
    && (BareKind(r) != WrongPackage ==> c.claimed.package == identity.package)
    && (BareKind(r) == WrongPackage ==> c.claimed.package in {Plain("SOIC-8"), Plain("TSSOP-8")} &&
                                        c.claimed.package != identity.package)
  }

  predicate LabelTraced(c: Case, r: Region, regions: seq<Region>) {
    match BareKind(r)
    case Positive => c.caseLabel == Right
    case WrongIntent => c.caseLabel == WrongFigure
    case WrongPackage => c.caseLabel == WrongPackageLabel
    case WrongVariant => c.caseLabel == WrongVariantLabel
    case WrongView => c.caseLabel == if SomethingShown(regions) then WrongViewLabel else WrongFigure
    case NoKind => false
  }

  /** The type is that of the intent; wrong packages and variants are about the package whatever their intent. */
  predicate TypeFits(t: RegionType, r: Region) {
    if BareKind(r) in {WrongPackage, WrongVariant} then t == PackageRegion
    else (t == PinoutRegion <==> BareIntent(r) == Pinout) && (t == TableRegion <==> BareIntent(r) == Table)
         && (t == PackageRegion <==> BareIntent(r) == Package)
  }

  /** Only a wrong view may be turned, and moved to another type if nothing of its own type could be opposed. */
  predicate ViewTraced(c: Case, r: Region, regions: seq<Region>) {
    && (c.caseLabel != WrongViewLabel ==> TypeFits(c.regionType, r) && c.view == r.view)
    && (c.caseLabel == WrongViewLabel ==>
          && Opposable(c.view)
          && (forall t | TypeFits(t, r) && Shown(regions, t) :: c.regionType == t))
  }

  ghost predicate CaseTraced(c: Case, r: Region, regions: seq<Region>, identity: Identity) {
    && c.id == r.id && c.page == r.page && c.box == r.box && c.rationale == r.note
    && LabelTraced(c, r, regions) && ViewTraced(c, r, regions) && ClaimTraced(c, r, identity)
  }

  lemma {:induction false} CasesAreMapped(regions: seq<Region>, identity: Identity)
    ensures |CasesOf(regions, identity)| == |Exportables(regions)|
    ensures forall k | 0 <= k < |Exportables(regions)| ::
              Exported(Exportables(regions)[k]) && Exportables(regions)[k] in regions &&
              CasesOf(regions, identity)[k] == CaseOf(Exportables(regions)[k], identity)
  {
    if regions != [] {
      CasesAreMapped(regions[..|regions| - 1], identity);
      assert regions == regions[..|regions| - 1] + [regions[|regions| - 1]];
    }
  }

  lemma {:induction false} FirstViewExactly(ps: seq<(RegionType, View)>, t: RegionType)
    ensures FirstView(ps, t).Some? <==> exists p | p in ps :: p.0 == t && Opposable(p.1)
  {
    if ps != [] {
      FirstViewExactly(ps[1..], t);
      assert ps == [ps[0]] + ps[1..];
    }
  }

  lemma {:induction false} FirstOpposableExactly(ps: seq<(RegionType, View)>)
    ensures FirstOpposable(ps).Some? <==> exists p | p in ps :: Opposable(p.1)
  {
    if ps != [] {
      FirstOpposableExactly(ps[1..]);
      assert ps == [ps[0]] + ps[1..];
    }
  }

  lemma {:induction false} PositivesMember(cases: seq<Case>, p: (RegionType, View))
    ensures p in Positives(cases) <==> exists c | c in cases :: c.caseLabel == Right && (c.regionType, c.view) == p
  {
    if cases != [] {
      PositivesMember(cases[..|cases| - 1], p);
      assert cases == cases[..|cases| - 1] + [cases[|cases| - 1]];
    }
  }

  /** What the pass over wrong views compares with are the positive regions. */
  lemma PositivesAreShown(regions: seq<Region>, identity: Identity, t: RegionType)
    ensures (exists p | p in Positives(CasesOf(regions, identity)) :: p.0 == t && Opposable(p.1)) <==> Shown(regions, t)
  {
    var cases := CasesOf(regions, identity);
    if Shown(regions, t) {
      var r :| r in regions && BareKind(r) == Positive && RegionTypeOf(r) == Some(t) && Opposable(r.view);
      RegionHasCase(regions, identity, r);
      PositivesMember(cases, (t, r.view));
    }
    if exists p | p in Positives(cases) :: p.0 == t && Opposable(p.1) {
      var p :| p in Positives(cases) && p.0 == t && Opposable(p.1);
      PositivesMember(cases, p);
      var c :| c in cases && c.caseLabel == Right && (c.regionType, c.view) == p;
      var r := CaseSource(regions, identity, c);
      assert BareKind(r) == Positive;
    }
  }

  lemma WhatCanBeOpposed(regions: seq<Region>, identity: Identity)
    ensures var ps := Positives(CasesOf(regions, identity));
            && (forall t :: FirstView(ps, t).Some? <==> Shown(regions, t))
            && (FirstOpposable(ps).Some? <==> SomethingShown(regions))
  {
    var ps := Positives(CasesOf(regions, identity));
    forall t ensures FirstView(ps, t).Some? <==> Shown(regions, t) {
      FirstViewExactly(ps, t);
      PositivesAreShown(regions, identity, t);
    }
    FirstOpposableExactly(ps);
    if FirstOpposable(ps).Some? {
      var p :| p in ps && Opposable(p.1);
      FirstViewExactly(ps, p.0);
    }
    forall t | Shown(regions, t) ensures FirstOpposable(ps).Some? { FirstViewExactly(ps, t); }
  }

  lemma OtherPackageDiffers(package: Text)
    ensures OtherPackage(package) in {Plain("SOIC-8"), Plain("TSSOP-8")} && OtherPackage(package) != package
  {
    assert |Plain("TSSOP-8").core| == 7;
    assert FoldsToSoic8("SOIC-8");
  }

  lemma PassTraced(r: Region, regions: seq<Region>, identity: Identity, ps: seq<(RegionType, View)>)
    requires Exported(r) && forall t :: FirstView(ps, t).Some? <==> Shown(regions, t)
    requires FirstOpposable(ps).Some? <==> SomethingShown(regions)
    ensures CaseTraced(OpposeCase(CaseOf(r, identity), ps), r, regions, identity)
  {
    var before := CaseOf(r, identity);
    OtherPackageDiffers(identity.package);
    var c := OpposeCase(before, ps);
    if c.caseLabel == WrongViewLabel { var p := OpposedTo(before, ps); }
    assert TypeFits(before.regionType, r);
    assert forall t | TypeFits(t, r) :: t == before.regionType;
  }

  /** Case `k` of a document is what became of its `k`-th exportable region. */
  lemma CasesTraced(regions: seq<Region>, identity: Identity, k: nat)
    requires k < |Exportables(regions)|
    ensures |Oppose(CasesOf(regions, identity))| == |Exportables(regions)|
    ensures CaseTraced(Oppose(CasesOf(regions, identity))[k], Exportables(regions)[k], regions, identity)
  {
    CasesAreMapped(regions, identity);
    WhatCanBeOpposed(regions, identity);
    PassTraced(Exportables(regions)[k], regions, identity, Positives(CasesOf(regions, identity)));
  }

  // ---- records ----

  /** The judgments are the exported ones among the relevant regions of the query, each with grade 2. */
  ghost predicate JudgmentsFit(record: Record, d: Document, q: Query, e: Entry) {
    && record.judgments != []
    && (forall j | j in record.judgments ::
          j.grade == 2 && exists c | c in e.cases :: c.id in q.relevant && j.caseId == Qualified(d.id, c.id))
    && (forall c | c in e.cases && c.id in q.relevant ::
          exists j | j in record.judgments :: j.caseId == Qualified(d.id, c.id))
  }

  /** The hard negatives are the exported ones that the query lists or, if there are none, all other negatives. */
  ghost predicate NegativesFit(record: Record, d: Document, q: Query, e: Entry) {
    && record.hardNegatives != []
    && (forall x | x in record.hardNegatives ::
          exists c | c in e.cases :: x == Qualified(d.id, c.id) &&
            (c.id in q.hardNegatives || (c.caseLabel != Right && c.id !in q.relevant)))
    && (forall c | c in e.cases && c.id in q.hardNegatives :: Qualified(d.id, c.id) in record.hardNegatives)
    && ((forall c | c in e.cases :: c.id !in q.hardNegatives) ==>
          forall c | c in e.cases && c.caseLabel != Right && c.id !in q.relevant ::
            Qualified(d.id, c.id) in record.hardNegatives)
  }

  ghost predicate RecordTraced(record: Record, d: Document, q: Query, e: Entry, author: Text) {
    && record.id == Qualified(d.id, q.id) && record.group == d.id && record.split == e.split
    && record.text == q.text && record.queryType == q.intent && record.generator == author && record.reviewed
    && JudgmentsFit(record, d, q, e) && NegativesFit(record, d, q, e)
  }

  lemma QualifiedMember(t: Text, ids: seq<Text>, y: Text)
    ensures y in QualifyAll(t, ids) <==> exists x | x in ids :: y == Qualified(t, x)
  {
    if exists x | x in ids :: y == Qualified(t, x) {
      var x :| x in ids && y == Qualified(t, x);
      var i :| 0 <= i < |ids| && ids[i] == x;
      assert QualifyAll(t, ids)[i] == y;
    }
  }

  lemma GradedMembers(ids: seq<Text>, j: Judgment)
    ensures j in Graded(ids) <==> j.grade == 2 && j.caseId in ids
  {
    if j.grade == 2 && j.caseId in ids {
      var i :| 0 <= i < |ids| && ids[i] == j.caseId;
      assert Graded(ids)[i] == j;
    }
  }

  /** The relevant half of a record. */
  lemma JudgmentsTraced(e: Entry, q: Query, j: Judgment)
    ensures j in Graded(QualifyAll(e.id, Kept(q.relevant, MappedIds(e.cases)))) <==>
            j.grade == 2 && exists c | c in e.cases :: c.id in q.relevant && j.caseId == Qualified(e.id, c.id)
  {
    var kept := Kept(q.relevant, MappedIds(e.cases));
    GradedMembers(QualifyAll(e.id, kept), j);
    QualifiedMember(e.id, kept, j.caseId);
    forall x ensures x in kept <==> x in q.relevant && exists c | c in e.cases :: c.id == x {
      KeptMember(q.relevant, MappedIds(e.cases), x);
    }
  }

  lemma HardMember(e: Entry, q: Query, x: Text)
    ensures x in HardNegatives(q, e.cases) <==>
            if exists c | c in e.cases :: c.id in q.hardNegatives
            then x in q.hardNegatives && exists c | c in e.cases :: c.id == x
            else x !in q.relevant && exists c | c in e.cases :: c.id == x && c.caseLabel != Right
  {
    var mapped := MappedIds(e.cases);
    KeptMember(q.hardNegatives, mapped, x);
    OtherNegativesMember(e.cases, q.relevant, x);
    if exists c | c in e.cases :: c.id in q.hardNegatives {
      var c :| c in e.cases && c.id in q.hardNegatives;
      KeptMember(q.hardNegatives, mapped, c.id);
    } else if Kept(q.hardNegatives, mapped) != [] {
      var y := Kept(q.hardNegatives, mapped)[0];
      KeptMember(q.hardNegatives, mapped, y);
    }
  }

  lemma RelevantTraced(d: Document, e: Entry, q: Query, author: Text)
    requires e.id == d.id && Kept(q.relevant, MappedIds(e.cases)) != []
    ensures JudgmentsFit(RecordOf(e, q, author), d, q, e)
  {
    var record := RecordOf(e, q, author);
    forall j
      ensures j in record.judgments <==>
              j.grade == 2 && exists c | c in e.cases :: c.id in q.relevant && j.caseId == Qualified(d.id, c.id)
    {
      JudgmentsTraced(e, q, j);
    }
    forall c | c in e.cases && c.id in q.relevant
      ensures exists j | j in record.judgments :: j.caseId == Qualified(d.id, c.id)
    {
      assert Judgment(Qualified(d.id, c.id), 2) in record.judgments;
    }
    assert |record.judgments| == |Kept(q.relevant, MappedIds(e.cases))|;
  }

  lemma HardTraced(d: Document, e: Entry, q: Query, author: Text)
    requires e.id == d.id && HardNegatives(q, e.cases) != []
    ensures NegativesFit(RecordOf(e, q, author), d, q, e)
  {
    var record, hard := RecordOf(e, q, author), HardNegatives(q, e.cases);
    forall x ensures x in hard <==>
      if exists c | c in e.cases :: c.id in q.hardNegatives
      then x in q.hardNegatives && exists c | c in e.cases :: c.id == x
      else x !in q.relevant && exists c | c in e.cases :: c.id == x && c.caseLabel != Right
    {
      HardMember(e, q, x);
    }
    forall y ensures y in record.hardNegatives <==> exists x | x in hard :: y == Qualified(d.id, x) {
      QualifiedMember(d.id, hard, y);
    }
    assert |record.hardNegatives| == |hard|;
  }

  lemma QueryTraced(d: Document, e: Entry, q: Query, author: Text, record: Record)
    requires e.id == d.id && ExportQuery(e, q, author) == Ok(record)
    ensures RecordTraced(record, d, q, e, author)
  {
    RelevantTraced(d, e, q, author);
    HardTraced(d, e, q, author);
  }

  lemma {:induction false} QueriesInOrder(e: Entry, queries: seq<Query>, n: nat, author: Text)
    requires n <= |queries| && ExportQueries(e, queries, n, author).Ok?
    ensures var records := ExportQueries(e, queries, n, author).value;
            |records| == n && forall k | 0 <= k < n :: ExportQuery(e, queries[k], author) == Ok(records[k])
  {
    if n > 0 { QueriesInOrder(e, queries, n - 1, author); }
  }

  // ---- documents ----

  ghost predicate EntryTraced(x: Inputs, d: Document, e: Entry) {
    && e.id == e.group == d.id && d.id in x.plan && d.id in x.hashes
    && e.split == x.plan[d.id].split && e.category == x.plan[d.id].category && e.url == x.plan[d.id].url
    && e.revision == x.plan[d.id].revision && e.sha == x.hashes[d.id]
    && e.review == Review(true, [x.seal.reviewer], Some(x.seal.reviewedAt), x.seal.digest)
    && (exists p | p in x.packet :: p.id == d.id && e.identity == Identity(p.manufacturer, p.mpn, p.package))
    && |e.cases| == |Exportables(d.regions)| > 0
    && forall k | 0 <= k < |e.cases| :: CaseTraced(e.cases[k], Exportables(d.regions)[k], d.regions, e.identity)
  }

  lemma {:induction false} PacketFound(packet: seq<PacketDocument>, id: Text)
    requires FindPacket(packet, id).Some?
    ensures FindPacket(packet, id).value in packet && FindPacket(packet, id).value.id == id
  {
    if packet[|packet| - 1].id != id { PacketFound(packet[..|packet| - 1], id); }
  }

  lemma DocumentTraced(x: Inputs, d: Document, e: Entry, records: seq<Record>)
    requires ExportOne(x, d) == Ok((e, records))
    ensures EntryTraced(x, d, e)
  {
    PacketFound(x.packet, d.id);
    CasesAreMapped(d.regions, e.identity);
    forall k | 0 <= k < |e.cases|
      ensures CaseTraced(e.cases[k], Exportables(d.regions)[k], d.regions, e.identity)
    {
      CasesTraced(d.regions, e.identity, k);
    }
  }

  /** How many queries the first `n` documents have. */
  function QueriesBefore(documents: seq<Document>, n: nat): nat
    requires n <= |documents|
  {
    if n == 0 then 0 else QueriesBefore(documents, n - 1) + |documents[n - 1].queries|
  }

  type Exporter = Document -> Result<(Entry, seq<Record>), ExportError>

  /** Document `i` alone exports into entry `i` and the records from number `QueriesBefore(i)` on. */
  predicate PlacedAt(documents: seq<Document>, one: Exporter, a: Artifacts, i: nat)
    requires i < |documents|
  {
    var first, n := QueriesBefore(documents, i), |documents[i].queries|;
    && i < |a.entries| && first + n <= |a.records|
    && one(documents[i]) == Ok((a.entries[i], a.records[first..first + n]))
  }

  lemma PlacedLater(documents: seq<Document>, one: Exporter, a: Artifacts, i: nat, e: Entry, records: seq<Record>)
    requires i < |documents| && PlacedAt(documents, one, a, i)
    ensures PlacedAt(documents, one, Artifacts(a.entries + [e], a.records + records), i)
  {
    var first, n := QueriesBefore(documents, i), |documents[i].queries|;
    assert (a.records + records)[first..first + n] == a.records[first..first + n];
  }

  lemma PlacedLast(documents: seq<Document>, one: Exporter, before: Artifacts, e: Entry, records: seq<Record>)
    requires |before.entries| < |documents|
    requires var n := |before.entries|;
             |before.records| == QueriesBefore(documents, n) && |records| == |documents[n].queries| &&
             one(documents[n]) == Ok((e, records))
    ensures PlacedAt(documents, one, Artifacts(before.entries + [e], before.records + records), |before.entries|)
  {
    assert (before.records + records)[|before.records|..|before.records| + |records|] == records;
  }

  type QueryExporter = (Entry, Query) -> Result<Record, ExportError>

  /** One record for every query, in order. */
  ghost predicate ExportsEach(one: Exporter, record: QueryExporter) {
    forall d | one(d).Ok? ::
      var (e, records) := one(d).value;
      e.id == d.id && |records| == |d.queries| &&
      forall k | 0 <= k < |d.queries| :: record(e, d.queries[k]) == Ok(records[k])
  }

  /** So record `m` of the whole result comes from its query. */
  lemma RecordPlaced(documents: seq<Document>, one: Exporter, record: QueryExporter, a: Artifacts, i: nat, k: nat)
    requires ExportsEach(one, record)
    requires i < |documents| && k < |documents[i].queries| && PlacedAt(documents, one, a, i)
    ensures a.entries[i].id == documents[i].id
    ensures record(a.entries[i], documents[i].queries[k]) == Ok(a.records[QueriesBefore(documents, i) + k])
  {
    var first, n := QueriesBefore(documents, i), |documents[i].queries|;
    assert a.records[first..first + n][k] == a.records[first + k];
  }

  lemma {:induction false} GatherPlaces(documents: seq<Document>, one: Exporter, record: QueryExporter, n: nat)
    requires n <= |documents| && Gather(documents, one, n).Ok? && ExportsEach(one, record)
    ensures var a := Gather(documents, one, n).value;
            && |a.entries| == n && |a.records| == QueriesBefore(documents, n)
            && forall i | 0 <= i < n :: PlacedAt(documents, one, a, i)
  {
    if n > 0 {
      GatherPlaces(documents, one, record, n - 1);
      var before := Gather(documents, one, n - 1).value;
      var (e, records) := one(documents[n - 1]).value;
      PlacedLast(documents, one, before, e, records);
      forall i | 0 <= i < n - 1
        ensures PlacedAt(documents, one, Artifacts(before.entries + [e], before.records + records), i)
      {
        PlacedLater(documents, one, before, i, e, records);
      }
    }
  }

  function OneOf(x: Inputs): Exporter { (d: Document) => ExportOne(x, d) }

  function QueryOf(x: Inputs): QueryExporter { (e: Entry, q: Query) => ExportQuery(e, q, x.author) }

  lemma OneExportsEach(x: Inputs)
    ensures ExportsEach(OneOf(x), QueryOf(x))
  {
    forall d | OneOf(x)(d).Ok?
      ensures var (e, records) := OneOf(x)(d).value;
              e.id == d.id && |records| == |d.queries| &&
              forall k | 0 <= k < |d.queries| :: QueryOf(x)(e, d.queries[k]) == Ok(records[k])
    {
      QueriesInOrder(EntryFor(x, d), d.queries, |d.queries|, x.author);
    }
  }

  /** What the loop leaves, when it ends without an error. */
  ghost predicate Gathered(x: Inputs, a: Artifacts) { Gather(x.documents, OneOf(x), |x.documents|) == Ok(a) }

  lemma SucceededIsGathered(x: Inputs, a: Artifacts)
    requires Export(x) == Ok(a)
    ensures Gathered(x, a)
  {
  }

  lemma PlacesOf(x: Inputs, a: Artifacts)
    requires Gathered(x, a)
    ensures |a.entries| == |x.documents| && |a.records| == QueriesBefore(x.documents, |x.documents|)
    ensures forall i | 0 <= i < |x.documents| :: PlacedAt(x.documents, OneOf(x), a, i)
  {
    OneExportsEach(x);
    GatherPlaces(x.documents, OneOf(x), QueryOf(x), |x.documents|);
  }

  /** The part of the result that document `i` has become. */
  lemma PlaceOf(x: Inputs, a: Artifacts, i: nat) returns (records: seq<Record>)
    requires Gathered(x, a) && i < |x.documents|
    ensures |a.entries| == |x.documents|
    ensures ExportOne(x, x.documents[i]) == Ok((a.entries[i], records))
  {
    PlacesOf(x, a);
    assert PlacedAt(x.documents, OneOf(x), a, i);
    var first, n := QueriesBefore(x.documents, i), |x.documents[i].queries|;
    records := a.records[first..first + n];
  }

  lemma GatheredEntryTraced(x: Inputs, a: Artifacts, i: nat)
    requires Gathered(x, a) && i < |x.documents|
    ensures |a.entries| == |x.documents| && EntryTraced(x, x.documents[i], a.entries[i])
  {
    var records := PlaceOf(x, a, i);
    DocumentTraced(x, x.documents[i], a.entries[i], records);
  }

  /** An export that succeeds has one entry for each document, in order, each traced to its rows and its regions. */
  lemma EntriesTraced(x: Inputs, a: Artifacts, i: nat)
    requires Export(x) == Ok(a) && i < |x.documents|
    ensures |a.entries| == |x.documents| && EntryTraced(x, x.documents[i], a.entries[i])
  {
    SucceededIsGathered(x, a);
    GatheredEntryTraced(x, a, i);
  }

  /** It has one record for each query, document by document and in order, each traced to its query. */
  lemma RecordsTraced(x: Inputs, a: Artifacts, i: nat, k: nat, m: nat)
    requires Export(x) == Ok(a) && i < |x.documents| && k < |x.documents[i].queries|
    requires m == QueriesBefore(x.documents, i) + k
    ensures m < |a.records| == QueriesBefore(x.documents, |x.documents|)
    ensures i < |a.entries| && a.entries[i].id == x.documents[i].id
    ensures RecordTraced(a.records[m], x.documents[i], x.documents[i].queries[k], a.entries[i], x.author)
  {
    SucceededIsGathered(x, a);
    GatheredRecordTraced(x, a, i, k);
  }

  lemma GatheredRecordTraced(x: Inputs, a: Artifacts, i: nat, k: nat)
    requires Gathered(x, a) && i < |x.documents| && k < |x.documents[i].queries|
    ensures QueriesBefore(x.documents, i) + k < |a.records| == QueriesBefore(x.documents, |x.documents|)
    ensures i < |a.entries| && a.entries[i].id == x.documents[i].id
    ensures RecordTraced(a.records[QueriesBefore(x.documents, i) + k], x.documents[i], x.documents[i].queries[k],
                         a.entries[i], x.author)
  {
    QueryExported(x, a, i, k);
    AnswerTraced(x, x.documents[i], a.entries[i], x.documents[i].queries[k],
                 a.records[QueriesBefore(x.documents, i) + k]);
  }

  lemma AnswerTraced(x: Inputs, d: Document, e: Entry, q: Query, record: Record)
    requires e.id == d.id && QueryOf(x)(e, q) == Ok(record)
    ensures RecordTraced(record, d, q, e, x.author)
  {
    QueryTraced(d, e, q, x.author, record);
  }

  lemma QueryExported(x: Inputs, a: Artifacts, i: nat, k: nat)
    requires Gathered(x, a) && i < |x.documents| && k < |x.documents[i].queries|
    ensures QueriesBefore(x.documents, i) + k < |a.records| == QueriesBefore(x.documents, |x.documents|)
    ensures i < |a.entries| && a.entries[i].id == x.documents[i].id
    ensures QueryOf(x)(a.entries[i], x.documents[i].queries[k]) == Ok(a.records[QueriesBefore(x.documents, i) + k])
  {
    PlacesOf(x, a);
    OneExportsEach(x);
    assert PlacedAt(x.documents, OneOf(x), a, i);
    RecordPlaced(x.documents, OneOf(x), QueryOf(x), a, i, k);
  }

  lemma {:induction false} QueryOfRecord(documents: seq<Document>, n: nat, m: nat) returns (i: nat, k: nat)
    requires n <= |documents| && m < QueriesBefore(documents, n)
    ensures i < n && k < |documents[i].queries| && m == QueriesBefore(documents, i) + k
  {
    if m < QueriesBefore(documents, n - 1) {
      i, k := QueryOfRecord(documents, n - 1, m);
    } else {
      i, k := n - 1, m - QueriesBefore(documents, n - 1);
    }
  }

  /** Every exported record comes from a query of some document. */
  lemma RecordOrigin(x: Inputs, a: Artifacts, m: nat) returns (i: nat, k: nat)
    requires Export(x) == Ok(a) && m < |a.records|
    ensures i < |x.documents| && i < |a.entries| && k < |x.documents[i].queries|
    ensures a.entries[i].id == x.documents[i].id
    ensures RecordTraced(a.records[m], x.documents[i], x.documents[i].queries[k], a.entries[i], x.author)
  {
    SucceededIsGathered(x, a);
    PlacesOf(x, a);
    i, k := QueryOfRecord(x.documents, |x.documents|, m);
    RecordsTraced(x, a, i, k, m);
  }

  /** In every exported record, each judgment has grade 2 and names a case of the record's own document. */
  lemma JudgmentsAreGraded(x: Inputs, a: Artifacts, m: nat, j: Judgment) returns (e: Entry, c: Case)
    requires Export(x) == Ok(a) && m < |a.records| && j in a.records[m].judgments
    ensures j.grade == 2
    ensures e in a.entries && c in e.cases && e.id == a.records[m].group && j.caseId == Qualified(e.id, c.id)
  {
    var i, k := RecordOrigin(x, a, m);
    e := a.entries[i];
    c := JudgedCase(a.records[m], x.documents[i], x.documents[i].queries[k], e, x.author, j);
  }

  lemma JudgedCase(record: Record, d: Document, q: Query, e: Entry, author: Text, j: Judgment) returns (c: Case)
    requires RecordTraced(record, d, q, e, author) && j in record.judgments
    ensures j.grade == 2 && record.group == d.id && c in e.cases && j.caseId == Qualified(d.id, c.id)
  {
    c :| c in e.cases && c.id in q.relevant && j.caseId == Qualified(d.id, c.id);
  }
}
