/**
 * Submissions that are accepted, for any twelve document ids, and what their export gives.
 *
 * Each document has seven regions and six queries. Ids and texts differ by their length or
 * by their last character, which keeps the proofs of the many distinctness conditions
 * short. One of them exports; with blanks, as `ExportRefusals` describes, without rows,
 * with a naive time or with a repeated link it meets each refusal. The last region can be
 * renamed, and that is enough to make two documents clash whenever any regions can.
 */
module ExportExample {
  import opened Prelude
  import opened Rects
  import opened Texts
  import opened AuthoringSubmission
  import opened VisualRegistry
  import opened QueryRegistry
  import opened CycleExport
  import opened ExportedCases
  import opened ExportedLinks
  import opened ExportedQueries
  import opened ExportAcceptance
  import opened ExportConsequences
  import opened ExportRefusals

  // ---- twelve documents ----

  function Name(k: nat): string { seq(k + 1, _ => 'd') }

  function SampleRegion(id: string, kind: Kind, intent: Intent): Region {
    Region(Plain(id), Exactly(kind), Exactly(intent), Whole(1), Rect(0.0, 0.0, 1.0, 1.0), Top, Plain("note"))
  }

  function Linked(): seq<Region> {
    [SampleRegion("a", Positive, Pinout), SampleRegion("b", Positive, Table), SampleRegion("c", Positive, Package),
     SampleRegion("e", WrongIntent, Package), SampleRegion("f", WrongPackage, Package),
     SampleRegion("g", WrongVariant, Package)]
  }

  /** No query links to the last region, so that its id is free. */
  function Regions(last: string): seq<Region> { Linked() + [SampleRegion(last, WrongView, Package)] }

  /** An id as a region can have it, which the other regions do not have. */
  predicate FreeId(id: string) {
    id != "" && !IsBlank(id[0]) && !IsBlank(id[|id| - 1]) && (|id| > 1 || id == "h")
  }

  function SampleQuery(name: string, id: char, intent: Intent, relevant: seq<Text>): Query {
    Query(Plain([id]), Exactly(intent), Plain(name + [id]), relevant, [Plain("f")])
  }

  /** `times` is how often a relevant link is listed. */
  function Queries(name: string, times: nat): seq<Query> {
    [SampleQuery(name, 'p', Pinout, Links("a", times)), SampleQuery(name, 'q', Pinout, Links("a", times)),
     SampleQuery(name, 'r', Table, Links("b", times)), SampleQuery(name, 's', Table, Links("b", times)),
     SampleQuery(name, 't', Package, Links("c", times)), SampleQuery(name, 'u', Package, Links("c", times))]
  }

  function Links(id: string, times: nat): seq<Text> { seq(times, _ => Plain(id)) }

  function SampleDocument(id: string, k: nat, last: string, times: nat): Document {
    Document(Plain(id), Regions(last), Queries(Name(k), times))
  }

  function SamplePacket(id: string): PacketDocument {
    PacketDocument(Plain(id), Plain("maker"), Plain("part"), Plain("QFN"), 1)
  }

  function Hash(k: nat): string { seq(64, i => if i < k then 'a' else 'b') }

  function SampleFamily(): Family {
    Family(Plain("evaluation"), Plain("category"), Plain("https://"), Plain("revision"))
  }

  function Ids(ids: seq<string>): set<Text> { set k | 0 <= k < |ids| :: Plain(ids[k]) }

  function PositionOf(ids: seq<string>, id: string): nat {
    if ids == [] || ids[0] == id then 0 else 1 + PositionOf(ids[1..], id)
  }

  function HashOfId(ids: seq<string>, id: string): Text { Plain(Hash(PositionOf(ids, id) + 1)) }

  function Plans(ids: seq<string>): map<Text, Family> { map t | t in Ids(ids) :: SampleFamily() }

  function Hashes(ids: seq<string>): map<Text, Text> { map t | t in Ids(ids) :: HashOfId(ids, t.core) }

  /** Documents with these ids; document `renamed` has `last` as its last region id. */
  function Example(ids: seq<string>, renamed: nat, last: string, times: nat): Inputs {
    Inputs(seq(|ids|, k requires 0 <= k < |ids| =>
             SampleDocument(ids[k], k, if k == renamed then last else "h", times)),
           seq(|ids|, k requires 0 <= k < |ids| => SamplePacket(ids[k])),
           Plans(ids), Hashes(ids),
           Seal(Plain("reviewer"), Zoned(Plain("time")), Plain("digest")), Plain("author"))
  }

  /** Texts are compared as they are, and none looks templated. */
  function Plainly(): Wording { Wording((t: string) => t, (t: string, ids: set<string>) => false) }

  // ---- regions ----

  lemma LinkedDiffer()
    ensures DistinctRegions(Linked()) && forall r | r in Linked() :: |r.id.core| == 1 && r.id.core[0] != 'h'
  {
    assert forall i, j | 0 <= i < j < 6 :: Linked()[i].id.core[0] != Linked()[j].id.core[0];
  }

  lemma RegionsDiffer(last: string)
    requires FreeId(last)
    ensures DistinctRegions(Regions(last))
  {
    LinkedDiffer();
    var linked := Linked();
    forall i | 0 <= i < |linked| ensures linked[i].id.core != last { assert linked[i] in linked; }
  }

  lemma RegionGood(id: string, kind: Kind, intent: Intent)
    requires id != "" && !IsBlank(id[0]) && !IsBlank(id[|id| - 1]) && kind != NoKind && intent != NoIntent
    ensures Good(SampleRegion(id, kind, intent))
  {
  }

  ghost predicate Good(r: Region) { RegionOk(r, 1) && Canonical(r.id) && TrimmedRegion(r) && r.page.Whole? }

  lemma PositivesGood()
    ensures Good(Linked()[0]) && Good(Linked()[1]) && Good(Linked()[2])
  {
    RegionGood("a", Positive, Pinout);
    RegionGood("b", Positive, Table);
    RegionGood("c", Positive, Package);
  }

  lemma NegativesGood()
    ensures Good(Linked()[3]) && Good(Linked()[4]) && Good(Linked()[5])
  {
    RegionGood("e", WrongIntent, Package);
    RegionGood("f", WrongPackage, Package);
    RegionGood("g", WrongVariant, Package);
  }

  lemma AllGood(last: string)
    requires FreeId(last)
    ensures forall r | r in Regions(last) :: Good(r)
  {
    PositivesGood();
    NegativesGood();
    RegionGood(last, WrongView, Package);
  }

  lemma PositivesPresent(rs: seq<Region>, last: string)
    requires rs == Regions(last)
    ensures HasPositive(rs, Pinout) && HasPositive(rs, Table) && HasPositive(rs, Package)
  {
    assert rs[0] in rs && rs[1] in rs && rs[2] in rs;
  }

  lemma NegativesPresent(rs: seq<Region>, last: string)
    requires rs == Regions(last)
    ensures HasKind(rs, WrongIntent) && HasKind(rs, WrongPackage) && HasKind(rs, WrongVariant) && HasKind(rs, WrongView)
  {
    assert rs[3] in rs && rs[4] in rs && rs[5] in rs && rs[6] in rs;
  }

  lemma Assemble(rs: seq<Region>)
    requires |rs| == 7 && DistinctRegions(rs) && forall r | r in rs :: Good(r)
    requires HasPositive(rs, Pinout) && HasPositive(rs, Table) && HasPositive(rs, Package)
    requires HasKind(rs, WrongIntent) && HasKind(rs, WrongPackage) && HasKind(rs, WrongVariant) &&
             HasKind(rs, WrongView)
    ensures RegionsAccepted(rs, 1) && CanonicalRegions(rs)
  {
  }

  /** All that the other lemmas need to know about the regions. */
  ghost predicate Fine(rs: seq<Region>) {
    RegionsAccepted(rs, 1) && CanonicalRegions(rs) && forall r | r in rs :: TrimmedRegion(r) && r.page.Whole?
  }

  lemma RegionsFine(last: string)
    requires FreeId(last)
    ensures Fine(Regions(last))
  {
    var rs := Regions(last);
    RegionsDiffer(last);
    AllGood(last);
    PositivesPresent(rs, last);
    NegativesPresent(rs, last);
    Assemble(rs);
  }

  // ---- queries ----

  lemma QueryGood(name: string, id: char, intent: Intent, relevant: string, times: nat, rs: seq<Region>)
    requires intent in REGION_TYPES && name != "" && times > 0
    requires exists r | r in rs :: RelevantRegion(r, Plain(relevant), intent)
    requires exists r | r in rs :: NegativeRegion(r, Plain("f"))
    ensures QueryOk(SampleQuery(name, id, intent, Links(relevant, times)), rs, Plainly())
  {
    assert forall x | x in Links(relevant, times) :: x == Plain(relevant);
  }

  ghost predicate HasLinks(rs: seq<Region>) {
    && (exists r | r in rs :: RelevantRegion(r, Plain("a"), Pinout))
    && (exists r | r in rs :: RelevantRegion(r, Plain("b"), Table))
    && (exists r | r in rs :: RelevantRegion(r, Plain("c"), Package))
    && (exists r | r in rs :: NegativeRegion(r, Plain("f")))
  }

  lemma LinksFound(rs: seq<Region>, last: string)
    requires rs == Regions(last)
    ensures HasLinks(rs)
  {
    assert RelevantRegion(rs[0], Plain("a"), Pinout) && RelevantRegion(rs[1], Plain("b"), Table);
    assert RelevantRegion(rs[2], Plain("c"), Package) && NegativeRegion(rs[4], Plain("f"));
  }

  lemma QueriesGood(name: string, times: nat, rs: seq<Region>)
    requires name != "" && times > 0 && HasLinks(rs)
    ensures forall q | q in Queries(name, times) :: QueryOk(q, rs, Plainly())
  {
    assert Pinout in REGION_TYPES && Table in REGION_TYPES && Package in REGION_TYPES;
    QueryGood(name, 'p', Pinout, "a", times, rs);
    QueryGood(name, 'q', Pinout, "a", times, rs);
    QueryGood(name, 'r', Table, "b", times, rs);
    QueryGood(name, 's', Table, "b", times, rs);
    QueryGood(name, 't', Package, "c", times, rs);
    QueryGood(name, 'u', Package, "c", times, rs);
  }

  lemma CountOfSix<T>(s: seq<T>, p: T -> bool)
    requires |s| == 6
    ensures Count(s, p) == (if p(s[0]) then 1 else 0) + (if p(s[1]) then 1 else 0) + (if p(s[2]) then 1 else 0) +
                           (if p(s[3]) then 1 else 0) + (if p(s[4]) then 1 else 0) + (if p(s[5]) then 1 else 0)
  {
    forall i | 0 < i <= 6 ensures Count(s[..i], p) == Count(s[..i - 1], p) + (if p(s[i - 1]) then 1 else 0) {
      assert s[..i][..i - 1] == s[..i - 1];
    }
    assert s[..6] == s;
  }

  lemma TwoOfEach(name: string, times: nat, t: Intent)
    requires t in REGION_TYPES
    ensures IntentCount(Queries(name, times), t) == 2
  {
    CountOfSix(Queries(name, times), (q: Query) => q.intent.word == t);
  }

  /** What the last character of an id or a text tells apart. */
  lemma LastTells(s: seq<string>)
    requires forall i | 0 <= i < |s| :: s[i] != ""
    requires forall i, j | 0 <= i < j < |s| :: s[i][|s[i]| - 1] != s[j][|s[j]| - 1]
    ensures Distinct(s)
  {
  }

  function Letters(): string { "pqrstu" }

  /** What is the same for every query. */
  ghost predicate Short(q: Query, times: nat) {
    Trimmed(q.id) && |q.id.core| == 1 && q.intent.Exact() && |q.relevant| == times && |q.hardNegatives| == 1 &&
    forall x, y | x in q.relevant && y in q.relevant :: x == y
  }

  lemma QueryAt(name: string, times: nat, i: nat)
    requires i < 6
    ensures var q := Queries(name, times)[i];
            q.id == Plain([Letters()[i]]) && q.text == Plain(name + [Letters()[i]]) && Short(q, times)
  {
  }

  lemma QueriesDiffer(name: string, times: nat)
    ensures var qs := Queries(name, times);
            && Distinct(QueryIds(qs)) && Distinct(NormalTexts(qs, Plainly()))
            && (forall t | t in NormalTexts(qs, Plainly()) :: |t| == |name| + 1)
            && (forall q | q in qs :: Short(q, times))
  {
    var qs := Queries(name, times);
    forall i | 0 <= i < 6
      ensures QueryIds(qs)[i] == [Letters()[i]] && NormalTexts(qs, Plainly())[i] == name + [Letters()[i]] &&
              Short(qs[i], times)
    {
      QueryAt(name, times, i);
    }
    assert forall i, j | 0 <= i < j < 6 :: Letters()[i] != Letters()[j];
    LastTells(QueryIds(qs));
    LastTells(NormalTexts(qs, Plainly()));
  }

  lemma QueriesFine(name: string, times: nat, last: string)
    requires name != "" && times > 0
    ensures QueriesAccepted(Queries(name, times), Regions(last), Plainly())
  {
    LinksFound(Regions(last), last);
    QueriesGood(name, times, Regions(last));
    QueriesDiffer(name, times);
    forall t | t in REGION_TYPES ensures IntentCount(Queries(name, times), t) == 2 { TwoOfEach(name, times, t); }
  }

  // ---- documents ----

  /** All that the other lemmas need to know about the document with index `k`. */
  ghost predicate Typical(d: Document, k: nat, times: nat) {
    && Trimmed(d.id) && HasText(d.id) && Fine(d.regions) && QueriesAccepted(d.queries, d.regions, Plainly())
    && Distinct(NormalTexts(d.queries, Plainly()))
    && (forall t | t in NormalTexts(d.queries, Plainly()) :: |t| == k + 2)
    && (forall q | q in d.queries :: Short(q, times))
  }

  lemma DocumentTypical(id: string, k: nat, last: string, times: nat)
    requires id != "" && FreeId(last) && times > 0
    ensures Typical(SampleDocument(id, k, last, times), k, times)
  {
    RegionsFine(last);
    QueriesFine(Name(k), times, last);
    QueriesDiffer(Name(k), times);
  }

  ghost predicate Row(x: Inputs, id: Text, k: nat) {
    && id in x.plan && x.plan[id] == SampleFamily()
    && id in x.hashes && x.hashes[id] == Plain(Hash(k + 1))
  }

  ghost predicate Shaped(x: Inputs, times: nat) {
    && |x.documents| == |x.packet| == 12 && Distinct(DocumentIds(x.documents))
    && (forall k | 0 <= k < 12 ::
          && Typical(x.documents[k], k, times) && x.packet[k] == SamplePacket(x.documents[k].id.core)
          && Row(x, x.documents[k].id, k))
    && SealOk(x.seal) && x.seal.reviewedAt.Zoned? && HasText(x.author)
  }

  lemma {:induction false} PositionFound(ids: seq<string>, k: nat)
    requires Distinct(ids) && k < |ids|
    ensures PositionOf(ids, ids[k]) == k
  {
    if k > 0 {
      assert ids[0] != ids[k];
      PositionFound(ids[1..], k - 1);
    }
  }

  /** What a caller of the loader has to bring along: twelve different ids that are not empty. */
  ghost predicate Twelve(ids: seq<string>) { |ids| == 12 && Distinct(ids) && forall id | id in ids :: id != "" }

  lemma ExampleShaped(ids: seq<string>, renamed: nat, last: string, times: nat)
    requires Twelve(ids) && FreeId(last) && times > 0
    ensures var x := Example(ids, renamed, last, times); Shaped(x, times) && DocumentIds(x.documents) == ids
  {
    var x := Example(ids, renamed, last, times);
    assert DocumentIds(x.documents) == ids;
    forall k | 0 <= k < 12 ensures Typical(x.documents[k], k, times) && Row(x, x.documents[k].id, k) {
      ExampleAt(ids, renamed, last, times, k);
    }
  }

  lemma ExampleAt(ids: seq<string>, renamed: nat, last: string, times: nat, k: nat)
    requires Twelve(ids) && FreeId(last) && times > 0 && k < 12
    ensures var x := Example(ids, renamed, last, times);
            Typical(x.documents[k], k, times) && Row(x, x.documents[k].id, k)
  {
    assert ids[k] in ids;
    ExampleDocument(ids[k], k, k == renamed, last, times);
    RowAt(ids, k, Example(ids, renamed, last, times));
  }

  lemma RowAt(ids: seq<string>, k: nat, x: Inputs)
    requires Distinct(ids) && k < |ids| && x.plan == Plans(ids) && x.hashes == Hashes(ids)
    ensures Row(x, Plain(ids[k]), k)
  {
    PositionFound(ids, k);
    assert Plain(ids[k]) in Ids(ids);
    assert x.hashes[Plain(ids[k])] == HashOfId(ids, ids[k]);
  }

  lemma ExampleDocument(id: string, k: nat, renamed: bool, last: string, times: nat)
    requires id != "" && FreeId(last) && times > 0
    ensures Typical(SampleDocument(id, k, if renamed then last else "h", times), k, times)
  {
    assert FreeId("h");
    DocumentTypical(id, k, if renamed then last else "h", times);
  }

  // ---- acceptance ----

  lemma {:induction false} OnePage(packet: seq<PacketDocument>, id: string)
    requires InPacket(packet, id) && forall p | p in packet :: p.pages == 1
    ensures PagesOf(packet, id) == 1
  {
    if packet[0].id != Plain(id) { OnePage(packet[1..], id); }
  }

  lemma {:induction false} TextsDiffer(documents: seq<Document>, times: nat)
    requires forall k | 0 <= k < |documents| :: Typical(documents[k], k, times)
    ensures Distinct(AllTexts(documents, Plainly()))
    ensures forall t | t in AllTexts(documents, Plainly()) :: |t| <= |documents| + 1
  {
    if documents != [] {
      var n := |documents| - 1;
      TextsDiffer(documents[..n], times);
      assert Typical(documents[n], n, times);
      AppendDistinct(AllTexts(documents[..n], Plainly()), NormalTexts(documents[n].queries, Plainly()));
    }
  }

  lemma ExampleAccepted(x: Inputs, times: nat)
    requires Shaped(x, times)
    ensures Accepted(x, Plainly())
  {
    PacketGood(x, times);
    TextsDiffer(x.documents, times);
    EachDocumentGood(x, times);
  }

  lemma EachDocumentGood(x: Inputs, times: nat)
    requires Shaped(x, times)
    ensures forall d | d in x.documents :: DocumentAccepted(d, x.packet, Plainly()) && CanonicalRegions(d.regions)
  {
    forall d | d in x.documents ensures DocumentAccepted(d, x.packet, Plainly()) && CanonicalRegions(d.regions) {
      var k :| 0 <= k < 12 && x.documents[k] == d;
      DocumentGood(x, times, k);
    }
  }

  ghost predicate GoodPacket(p: PacketDocument) {
    && Trimmed(p.id) && HasText(p.id) && HasText(p.manufacturer) && HasText(p.mpn)
    && p.package == Plain("QFN") && p.pages == 1
  }

  lemma PacketGood(x: Inputs, times: nat)
    requires Shaped(x, times)
    ensures PacketAccepted(x.packet) && forall p | p in x.packet :: GoodPacket(p)
  {
    forall k | 0 <= k < 12 ensures GoodPacket(x.packet[k]) && x.packet[k].id.core == DocumentIds(x.documents)[k] {
      assert Typical(x.documents[k], k, times);
    }
    PacketsAccepted(x.packet, DocumentIds(x.documents));
  }

  lemma PacketsAccepted(packet: seq<PacketDocument>, ids: seq<string>)
    requires |packet| == |ids| == 12 && Distinct(ids)
    requires forall k | 0 <= k < 12 :: GoodPacket(packet[k]) && packet[k].id.core == ids[k]
    ensures PacketAccepted(packet)
  {
  }

  lemma DocumentGood(x: Inputs, times: nat, k: nat)
    requires Shaped(x, times) && k < 12
    ensures DocumentAccepted(x.documents[k], x.packet, Plainly()) && CanonicalRegions(x.documents[k].regions)
    ensures HasRows(x, x.documents[k].id)
  {
    var d := x.documents[k];
    assert Typical(d, k, times) && Row(x, d.id, k) && x.packet[k] == SamplePacket(d.id.core);
    assert x.packet[k] in x.packet;
    PacketGood(x, times);
    OnePage(x.packet, d.id.core);
    PacketFound(x.packet, d.id);
  }

  // ---- export ----

  lemma ShortPackageUsable(identity: Identity)
    requires |identity.package.core| == 3
    ensures PackageUsable(identity)
  {
  }

  lemma PackageFound(x: Inputs, times: nat, k: nat)
    requires Shaped(x, times) && k < 12
    ensures HasRows(x, x.documents[k].id) && PackageUsable(IdentityOf(FindPacket(x.packet, x.documents[k].id).value))
  {
    DocumentGood(x, times, k);
    PacketGood(x, times);
    PacketFound(x.packet, x.documents[k].id);
    ShortPackageUsable(IdentityOf(FindPacket(x.packet, x.documents[k].id).value));
  }

  lemma FamilyGood()
    ensures Trimmed(SampleFamily().split) && FamilyUsable(SampleFamily())
  {
    assert "evaluation" in SPLITS;
  }

  lemma RowGood(x: Inputs, times: nat, k: nat)
    requires Shaped(x, times) && k < 12
    ensures HasRows(x, x.documents[k].id) && RowsUsable(x, x.documents[k]) && SplitExact(x, x.documents[k])
    ensures HashOf(x, x.documents[k]) == Hash(k + 1)
  {
    PackageFound(x, times, k);
    HashGood(k + 1);
    FamilyGood();
    assert Typical(x.documents[k], k, times) && Row(x, x.documents[k].id, k);
  }

  lemma HashGood(k: nat)
    ensures IsSha256(Hash(k))
  {
  }

  lemma HashesDiffer(i: nat, j: nat)
    requires i < j < 64
    ensures Hash(i) != Hash(j)
  {
    assert Hash(i)[i] != Hash(j)[i];
  }

  lemma ExampleUsable(d: Document, k: nat, times: nat)
    requires Typical(d, k, times)
    ensures !HasUnlabelled(d.regions) && HasExportedNegative(d.regions)
    ensures forall q | q in d.queries :: KeptRelevant(d, q) == q.relevant && (QueryUsable(d, q) <==> times <= 1)
  {
    TrimmedNegative(d, 1);
    forall q | q in d.queries ensures KeptRelevant(d, q) == q.relevant && (QueryUsable(d, q) <==> times <= 1) {
      assert QueryOk(q, d.regions, Plainly()) && Short(q, times);
      RelevantAllKept(d, q);
      TrimmedQueryUsable(d, q, 1);
      FilterDistinct(q.hardNegatives, (y: Text) => y in ExportedIds(d.regions));
      assert times > 1 ==> q.relevant[0] in q.relevant && q.relevant[1] in q.relevant;
    }
  }

  ghost predicate OwnedBy(ids: seq<Text>, documents: seq<Document>) {
    forall t | t in ids :: exists d | d in documents :: OfDocument(t, d)
  }

  /** Query ids are one letter long, so that documents with different ids share no qualified one. */
  lemma {:induction false} QueryIdsDiffer(documents: seq<Document>, times: nat)
    requires forall k | 0 <= k < |documents| :: Typical(documents[k], k, times)
    requires Distinct(DocumentIds(documents))
    ensures Distinct(AllQueryIds(documents)) && OwnedBy(AllQueryIds(documents), documents)
  {
    if documents != [] {
      var n := |documents| - 1;
      assert DocumentIds(documents[..n]) == DocumentIds(documents)[..n];
      QueryIdsDiffer(documents[..n], times);
      OwnQueryIds(documents[n], n, times);
      assert documents == documents[..n] + [documents[n]];
      MoreQueryIds(AllQueryIds(documents[..n]), documents[..n], documents[n]);
    }
  }

  lemma MoreQueryIds(before: seq<Text>, front: seq<Document>, d: Document)
    requires Distinct(DocumentIds(front + [d])) && Distinct(before) && OwnedBy(before, front)
    requires Distinct(QueryIdsOf(d)) && OwnedBy(QueryIdsOf(d), [d])
    ensures Distinct(before + QueryIdsOf(d)) && OwnedBy(before + QueryIdsOf(d), front + [d])
  {
    AppendDistinct(before, QueryIdsOf(d));
    forall t | t in before ensures !OfDocument(t, d) && exists e | e in front + [d] :: OfDocument(t, e) {
      var e :| e in front && OfDocument(t, e);
      var k :| 0 <= k < |front| && front[k] == e;
      assert DocumentIds(front + [d])[k] == e.id.core && DocumentIds(front + [d])[|front|] == d.id.core;
      assert e in front + [d];
    }
    assert d in front + [d];
  }

  predicate OfDocument(t: Text, d: Document) { |t.core| == |d.id.core| + 2 && t.core[..|d.id.core|] == d.id.core }

  lemma OwnQueryIds(d: Document, k: nat, times: nat)
    requires Typical(d, k, times)
    ensures Distinct(QueryIdsOf(d)) && OwnedBy(QueryIdsOf(d), [d])
  {
    var ids := seq(|d.queries|, j requires 0 <= j < |d.queries| => d.queries[j].id);
    forall j | 0 <= j < |d.queries|
      ensures Trimmed(ids[j]) && OfDocument(QueryIdsOf(d)[j], d) && ids[j].core == QueryIds(d.queries)[j]
    {
      assert d.queries[j] in d.queries;
      QualifiedPlain(d.id, ids[j]);
      assert (d.id.core + "/" + ids[j].core)[..|d.id.core|] == d.id.core;
    }
    QualifyAllDistinct(d.id, ids);
    assert QueryIdsOf(d) == QualifyAll(d.id, ids);
  }

  lemma SourceAt(x: Inputs, times: nat, k: nat)
    requires Shaped(x, times) && k < 12
    ensures |SourceHashes(x)| == 12 && SourceHashes(x)[k] == Hash(k + 1)
  {
    RowGood(x, times, k);
  }

  lemma HashesInTurn(hashes: seq<string>)
    requires |hashes| == 12 && forall k | 0 <= k < 12 :: hashes[k] == Hash(k + 1)
    ensures Distinct(hashes)
  {
    forall i, j | 0 <= i < j < 12 ensures hashes[i] != hashes[j] { HashesDiffer(i + 1, j + 1); }
  }

  lemma SourcesDiffer(x: Inputs, times: nat)
    requires Shaped(x, times)
    ensures Distinct(SourceHashes(x))
  {
    SourceAt(x, times, 0);
    forall k | 0 <= k < 12 ensures SourceHashes(x)[k] == Hash(k + 1) { SourceAt(x, times, k); }
    HashesInTurn(SourceHashes(x));
  }

  lemma ExampleRows(x: Inputs, times: nat)
    requires Shaped(x, times)
    ensures forall d | d in x.documents :: HasRows(x, d.id) && RowsUsable(x, d) && SplitExact(x, d)
    ensures Distinct(SourceHashes(x)) && Distinct(AllQueryIds(x.documents))
  {
    forall d | d in x.documents ensures HasRows(x, d.id) && RowsUsable(x, d) && SplitExact(x, d) {
      var k :| 0 <= k < 12 && x.documents[k] == d;
      RowGood(x, times, k);
    }
    SourcesDiffer(x, times);
    QueryIdsDiffer(x.documents, times);
  }

  /** What the export finds in one of these documents. */
  ghost predicate Survives(d: Document, usable: bool) {
    && !HasUnlabelled(d.regions) && HasExportedNegative(d.regions) && LinksSurvive(d)
    && (QueriesUsable(d) <==> usable)
  }

  lemma ExampleSurvives(d: Document, k: nat, times: nat)
    requires Typical(d, k, times) && times > 0
    ensures Survives(d, times == 1)
  {
    ExampleUsable(d, k, times);
    assert forall q | q in d.queries :: Short(q, times);
    assert d.queries[0] in d.queries;
  }

  lemma ExampleQueries(x: Inputs, times: nat)
    requires Shaped(x, times) && times > 0
    ensures forall d | d in x.documents :: Survives(d, times == 1)
    ensures AllQueriesUsable(x) <==> times == 1
  {
    forall d | d in x.documents ensures Survives(d, times == 1) {
      var k :| 0 <= k < 12 && x.documents[k] == d;
      ExampleSurvives(d, k, times);
    }
    assert x.documents[0] in x.documents;
  }

  /** These submissions pass the loop; they fail afterwards only through a clash or a repeated link. */
  lemma ExampleVerdict(x: Inputs, times: nat)
    requires Shaped(x, times) && times > 0
    ensures Accepted(x, Plainly()) && LoopPasses(x) && Judged(x, Export(x))
    ensures RegistryUsable(x) <==> Distinct(AllRegionIds(x.documents))
    ensures RecordsUsable(x) <==> times == 1
  {
    ExampleAccepted(x, times);
    ExampleRows(x, times);
    ExampleQueries(x, times);
    ExportVerdict(x, Plainly());
    forall d | d in x.documents ensures Faults(x)(d) == None {
      assert DocumentAccepted(d, x.packet, Plainly()) && Survives(d, times == 1);
      PassedExactly(x, d, Plainly());
    }
    FaultsOf(x.documents, Faults(x), |x.documents|);
  }
}
