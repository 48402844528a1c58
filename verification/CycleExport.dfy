/** Export of a sealed authoring submission into visual and query registries. */
module CycleExport {
  import opened Prelude
  import opened Texts
  import opened AuthoringSubmission
  import opened VisualRegistry
  import opened QueryRegistry

  /** A plan family: its split, category, official URL and datasheet revision. */
  datatype Family = Family(split: Text, category: Text, url: Text, revision: Text)

  datatype Seal = Seal(reviewer: Text, reviewedAt: Timestamp, digest: Text)

  datatype Inputs = Inputs(documents: seq<Document>, packet: seq<PacketDocument>, plan: map<Text, Family>,
                           hashes: map<Text, Text>, seal: Seal, author: Text)

  /** `MissingRow` and `UnlabelledKind` are the KeyErrors of the lookups in the rows and in the labels. */
  datatype ExportError = MissingRow | UnlabelledKind | NoCases | RelevantNotExported | NoHardNegatives
    | VisualRejected | QueriesRejected

  datatype Artifacts = Artifacts(entries: seq<Entry>, records: seq<Record>)

  // ---- cases ----

  /** The kind as the export compares it: with blanks around it, it is no kind at all. */
  function BareKind(r: Region): Kind { if r.kind.Exact() then r.kind.word else NoKind }

  function BareIntent(r: Region): Intent { if r.intent.Exact() then r.intent.word else NoIntent }

  function TypeOf(kind: Kind, intent: Intent): Option<RegionType> {
    if kind == WrongPackage || kind == WrongVariant then Some(PackageRegion)
    else match intent
         case Pinout => Some(PinoutRegion)
         case Table => Some(TableRegion)
         case Package => Some(PackageRegion)
         case _ => None
  }

  function RegionTypeOf(r: Region): Option<RegionType> { TypeOf(BareKind(r), BareIntent(r)) }

  predicate Exported(r: Region) { RegionTypeOf(r).Some? && BareKind(r) != NoKind }

  /** A region with a registry type whose kind has no label. */
  predicate Unlabelled(r: Region) { RegionTypeOf(r).Some? && BareKind(r) == NoKind }

  predicate HasUnlabelled(regions: seq<Region>) { exists r | r in regions :: Unlabelled(r) }

  function LabelOf(kind: Kind): Label
    requires kind != NoKind
  {
    match kind
    case Positive => Right
    case WrongIntent => WrongFigure
    case WrongPackage => WrongPackageLabel
    case WrongVariant => WrongVariantLabel
    case WrongView => WrongViewLabel
  }

  /** The strings whose case folding is "soic-8"; the long s folds to s. */
  predicate FoldsToSoic8(s: string) {
    && |s| == 6 && s[0] in "sS\U{17f}" && s[1] in "oO" && s[2] in "iI" && s[3] in "cC" && s[4] == '-' && s[5] == '8'
  }

  function OtherPackage(package: Text): Text {
    if Trimmed(package) && FoldsToSoic8(package.core) then Plain("TSSOP-8") else Plain("SOIC-8")
  }

  function Claimed(kind: Kind, identity: Identity): Identity {
    match kind
    case WrongPackage => identity.(package := OtherPackage(identity.package))
    case WrongVariant => identity.(mpn := Suffixed(identity.mpn, "-X"))
    case _ => identity
  }

  function CaseOf(r: Region, identity: Identity): Case
    requires Exported(r)
  {
    Case(r.id, LabelOf(BareKind(r)), RegionTypeOf(r).value, r.page, r.box, r.view, Claimed(BareKind(r), identity),
         r.note)
  }

  /** The cases of the regions that are exported. */
  function CasesOf(regions: seq<Region>, identity: Identity): seq<Case> {
    if regions == [] then []
    else
      var r := regions[|regions| - 1];
      CasesOf(regions[..|regions| - 1], identity) + (if Exported(r) then [CaseOf(r, identity)] else [])
  }

  // ---- wrong views ----

  function Positives(cases: seq<Case>): seq<(RegionType, View)> {
    if cases == [] then []
    else
      var c := cases[|cases| - 1];
      Positives(cases[..|cases| - 1]) + (if c.caseLabel == Right then [(c.regionType, c.view)] else [])
  }

  function FirstView(ps: seq<(RegionType, View)>, t: RegionType): Option<View> {
    if ps == [] then None
    else if ps[0].0 == t && Opposable(ps[0].1) then Some(ps[0].1)
    else FirstView(ps[1..], t)
  }

  function FirstOpposable(ps: seq<(RegionType, View)>): Option<(RegionType, View)> {
    if ps == [] then None else if Opposable(ps[0].1) then Some(ps[0]) else FirstOpposable(ps[1..])
  }

  function Face(c: Case, v: View): Case {
    if !Opposable(c.view) || c.view == v then c.(view := if v == Top then Bottom else Top) else c
  }

  function OpposeCase(c: Case, ps: seq<(RegionType, View)>): Case {
    if c.caseLabel != WrongViewLabel then c
    else match FirstView(ps, c.regionType)
         case Some(v) => Face(c, v)
         case None =>
           match FirstOpposable(ps)
           case None => c.(caseLabel := WrongFigure)
           case Some((t, v)) => Face(c.(regionType := t), v)
  }

  function Oppose(cases: seq<Case>): seq<Case> {
    seq(|cases|, i requires 0 <= i < |cases| => OpposeCase(cases[i], Positives(cases)))
  }

  /** `_oppose_wrong_views`. */
  method OpposeWrongViews(cases: array<Case>)
    modifies cases
    ensures cases[..] == Oppose(old(cases[..]))
  {
    ghost var before := cases[..];
    var positives := [];
    for i := 0 to cases.Length
      invariant cases[..] == before
      invariant positives == Positives(before[..i])
    {
      assert before[..i + 1] == before[..i] + [cases[i]];
      if cases[i].caseLabel == Right { positives := positives + [(cases[i].regionType, cases[i].view)]; }
    }
    assert before[..cases.Length] == before;
    for i := 0 to cases.Length
      invariant forall k | 0 <= k < i :: cases[k] == OpposeCase(before[k], positives)
      invariant forall k | i <= k < cases.Length :: cases[k] == before[k]
    {
      if cases[i].caseLabel != WrongViewLabel { continue; }
      var view := FirstView(positives, cases[i].regionType);
      if view.None? {
        var fallback := FirstOpposable(positives);
        if fallback.None? {
          cases[i] := cases[i].(caseLabel := WrongFigure);
          continue;
        }
        cases[i] := cases[i].(regionType := fallback.value.0);
        view := Some(fallback.value.1);
      }
      if !Opposable(cases[i].view) || cases[i].view == view.value {
        cases[i] := cases[i].(view := if view.value == Top then Bottom else Top);
      }
    }
  }

  // ---- one document ----

  function IdentityOf(p: PacketDocument): Identity { Identity(p.manufacturer, p.mpn, p.package) }

  function EntryOf(d: Document, p: PacketDocument, f: Family, sha: Text, seal: Seal): Entry {
    Entry(d.id, d.id, f.split, f.category, f.url, f.revision, sha, IdentityOf(p),
          Review(true, [seal.reviewer], Some(seal.reviewedAt), seal.digest),
          Oppose(CasesOf(d.regions, IdentityOf(p))))
  }

  method ExportDocument(d: Document, p: PacketDocument, f: Family, sha: Text, seal: Seal)
    returns (r: Result<Entry, ExportError>)
    ensures r == if HasUnlabelled(d.regions) then Err(UnlabelledKind)
                 else if CasesOf(d.regions, IdentityOf(p)) == [] then Err(NoCases)
                 else Ok(EntryOf(d, p, f, sha, seal))
  {
    var identity, cases := IdentityOf(p), [];
    for i := 0 to |d.regions|
      invariant cases == CasesOf(d.regions[..i], identity) && !HasUnlabelled(d.regions[..i])
    {
      var region := d.regions[i];
      assert d.regions[..i + 1] == d.regions[..i] + [region] && d.regions[..i + 1][..i] == d.regions[..i];
      if RegionTypeOf(region).None? { continue; }
      if BareKind(region) == NoKind { assert region in d.regions; return Err(UnlabelledKind); }
      cases := cases + [CaseOf(region, identity)];
    }
    assert d.regions[..|d.regions|] == d.regions;
    if cases == [] { return Err(NoCases); }
    var table := new Case[|cases|](i requires 0 <= i < |cases| => cases[i]);
    assert table[..] == cases;
    OpposeWrongViews(table);
    return Ok(Entry(d.id, d.id, f.split, f.category, f.url, f.revision, sha, identity,
                    Review(true, [seal.reviewer], Some(seal.reviewedAt), seal.digest), table[..]));
  }

  // ---- queries ----

  function MappedIds(cases: seq<Case>): set<Text> { set c | c in cases :: c.id }

  function Kept(ids: seq<Text>, mapped: set<Text>): seq<Text> { Filter(ids, (x: Text) => x in mapped) }

  /** The hard negatives the export falls back to. */
  function OtherNegatives(cases: seq<Case>, relevant: seq<Text>): seq<Text> {
    if cases == [] then []
    else
      var c := cases[|cases| - 1];
      var others := OtherNegatives(cases[..|cases| - 1], relevant);
      if c.id !in relevant && c.caseLabel != Right then others + [c.id] else others
  }

  function HardNegatives(q: Query, cases: seq<Case>): seq<Text> {
    var kept := Kept(q.hardNegatives, MappedIds(cases));
    if kept == [] then OtherNegatives(cases, q.relevant) else kept
  }

  function QualifyAll(d: Text, ids: seq<Text>): seq<Text> {
    seq(|ids|, i requires 0 <= i < |ids| => Qualified(d, ids[i]))
  }

  function Graded(ids: seq<Text>): seq<Judgment> { seq(|ids|, i requires 0 <= i < |ids| => Judgment(ids[i], 2)) }

  function RecordOf(e: Entry, q: Query, author: Text): Record {
    Record(Qualified(e.id, q.id), e.id, e.split, q.text, q.intent,
           Graded(QualifyAll(e.id, Kept(q.relevant, MappedIds(e.cases)))), QualifyAll(e.id, HardNegatives(q, e.cases)),
           author, true)
  }

  function ExportQuery(e: Entry, q: Query, author: Text): Result<Record, ExportError> {
    if Kept(q.relevant, MappedIds(e.cases)) == [] then Err(RelevantNotExported)
    else if HardNegatives(q, e.cases) == [] then Err(NoHardNegatives)
    else Ok(RecordOf(e, q, author))
  }

  /** The records of the first `n` queries. */
  function ExportQueries(e: Entry, queries: seq<Query>, n: nat, author: Text): Result<seq<Record>, ExportError>
    requires n <= |queries|
  {
    if n == 0 then Ok([])
    else match ExportQueries(e, queries, n - 1, author)
         case Err(x) => Err(x)
         case Ok(records) =>
           match ExportQuery(e, queries[n - 1], author)
           case Err(x) => Err(x)
           case Ok(record) => Ok(records + [record])
  }

  // ---- the whole export ----

  function FindPacket(packet: seq<PacketDocument>, id: Text): Option<PacketDocument> {
    if packet == [] then None
    else if packet[|packet| - 1].id == id then Some(packet[|packet| - 1])
    else FindPacket(packet[..|packet| - 1], id)
  }

  predicate HasRows(x: Inputs, id: Text) { id in x.plan && FindPacket(x.packet, id).Some? && id in x.hashes }

  function EntryFor(x: Inputs, d: Document): Entry
    requires HasRows(x, d.id)
  {
    EntryOf(d, FindPacket(x.packet, d.id).value, x.plan[d.id], x.hashes[d.id], x.seal)
  }

  function ExportOne(x: Inputs, d: Document): Result<(Entry, seq<Record>), ExportError> {
    if !HasRows(x, d.id) then Err(MissingRow)
    else if HasUnlabelled(d.regions) then Err(UnlabelledKind)
    else
      var e := EntryFor(x, d);
      if e.cases == [] then Err(NoCases)
      else match ExportQueries(e, d.queries, |d.queries|, x.author)
           case Err(error) => Err(error)
           case Ok(records) => Ok((e, records))
  }

  /** The document loop, for any way of exporting one document. */
  function Gather(documents: seq<Document>, one: Document -> Result<(Entry, seq<Record>), ExportError>, n: nat)
    : Result<Artifacts, ExportError>
    requires n <= |documents|
  {
    if n == 0 then Ok(Artifacts([], []))
    else match Gather(documents, one, n - 1)
         case Err(error) => Err(error)
         case Ok(before) =>
           match one(documents[n - 1])
           case Err(error) => Err(error)
           case Ok((e, records)) => Ok(Artifacts(before.entries + [e], before.records + records))
  }

  ghost function Load(gathered: Result<Artifacts, ExportError>): Result<Artifacts, ExportError> {
    match gathered
    case Err(error) => Err(error)
    case Ok(a) =>
      if !VisualAccepted(a.entries) then Err(VisualRejected)
      else if !RecordsAccepted(a.entries, a.records) then Err(QueriesRejected)
      else Ok(a)
  }

  ghost function Export(x: Inputs): Result<Artifacts, ExportError> {
    Load(Gather(x.documents, (d: Document) => ExportOne(x, d), |x.documents|))
  }

  lemma {:induction false} QueriesStop(e: Entry, queries: seq<Query>, n: nat, m: nat, author: Text)
    requires n <= m <= |queries| && ExportQueries(e, queries, n, author).Err?
    ensures ExportQueries(e, queries, m, author) == ExportQueries(e, queries, n, author)
  {
    if n < m { QueriesStop(e, queries, n, m - 1, author); }
  }

  lemma {:induction false} GatherStops(documents: seq<Document>,
                                       one: Document -> Result<(Entry, seq<Record>), ExportError>, n: nat, m: nat)
    requires n <= m <= |documents| && Gather(documents, one, n).Err?
    ensures Gather(documents, one, m) == Gather(documents, one, n)
  {
    if n < m { GatherStops(documents, one, n, m - 1); }
  }

  /** The query loop of one document. */
  method ExportDocumentQueries(e: Entry, queries: seq<Query>, author: Text)
    returns (r: Result<seq<Record>, ExportError>)
    ensures r == ExportQueries(e, queries, |queries|, author)
  {
    var records := [];
    for i := 0 to |queries|
      invariant ExportQueries(e, queries, i, author) == Ok(records)
    {
      var q := queries[i];
      var exported := ExportQuery(e, q, author);
      if exported.Err? { QueriesStop(e, queries, i + 1, |queries|, author); return Err(exported.error); }
      records := records + [exported.value];
    }
    return Ok(records);
  }

  ghost predicate ExportsOne(x: Inputs, one: Document -> Result<(Entry, seq<Record>), ExportError>) {
    forall d {:trigger ExportOne(x, d)} :: one(d) == ExportOne(x, d)
  }

  /** One turn of the document loop. */
  method ExportOneDocument(x: Inputs, d: Document, ghost one: Document -> Result<(Entry, seq<Record>), ExportError>)
    returns (r: Result<(Entry, seq<Record>), ExportError>)
    requires ExportsOne(x, one)
    ensures r == one(d)
  {
    assert one(d) == ExportOne(x, d);
    if !HasRows(x, d.id) { return Err(MissingRow); }
    var p := FindPacket(x.packet, d.id).value;
    var exported := ExportDocument(d, p, x.plan[d.id], x.hashes[d.id], x.seal);
    if exported.Err? { return Err(exported.error); }
    var records := ExportDocumentQueries(exported.value, d.queries, x.author);
    if records.Err? { return Err(records.error); }
    return Ok((exported.value, records.value));
  }

  method ExportDocuments(x: Inputs, ghost one: Document -> Result<(Entry, seq<Record>), ExportError>)
    returns (r: Result<Artifacts, ExportError>)
    requires ExportsOne(x, one)
    ensures r == Gather(x.documents, one, |x.documents|)
  {
    var entries, records := [], [];
    for i := 0 to |x.documents|
      invariant Gather(x.documents, one, i) == Ok(Artifacts(entries, records))
    {
      var exported := ExportOneDocument(x, x.documents[i], one);
      if exported.Err? { GatherStops(x.documents, one, i + 1, |x.documents|); return Err(exported.error); }
      entries, records := entries + [exported.value.0], records + exported.value.1;
    }
    return Ok(Artifacts(entries, records));
  }

  /** `export_sealed_cycle_eval_artifacts`, after the packet, the submission and the seal have been accepted. */
  method ExportSealed(x: Inputs) returns (r: Result<Artifacts, ExportError>)
    ensures r == Export(x)
  {
    r := ExportDocuments(x, (d: Document) => ExportOne(x, d));
    if r.Err? { return; }
    var visualOk := LoadVisualRegistry(r.value.entries);
    if !visualOk { return Err(VisualRejected); }
    var queriesOk := LoadQueryRegistry(r.value.entries, r.value.records);
    if !queriesOk { return Err(QueriesRejected); }
  }
}
