/**
 * The authoring packet and the submission contract of `load_submission`.
 *
 * A submission gives, for every document of the packet, regions of a closed vocabulary of
 * kinds and intents, and six queries that link to them. The contract is stated in closed
 * form (`RegionsAccepted`, `QueriesAccepted`, `SubmissionAccepted`), and the nested loops of
 * the source are proved to decide it. Each loop is described by a fold over what it has
 * collected, so that the loop itself only has to follow the fold.
 */
module AuthoringSubmission {
  import opened Prelude
  import opened Rects
  import opened Texts

  /** `NoKind` and `NoIntent` stand for every word outside the vocabulary. */
  datatype Kind = Positive | WrongIntent | WrongPackage | WrongVariant | WrongView | NoKind

  datatype Intent = Pinout | Package | Timing | Curve | Block | AppCircuit | Table | Other | NoIntent

  datatype View = Top | Bottom | NotApplicable | Unknown

  /** A JSON page number; Python counts `true` and `false` as integers. */
  datatype PageValue = Whole(n: int) | Flag(b: bool)

  function PageNumber(page: PageValue): int {
    match page
    case Whole(n) => n
    case Flag(b) => if b then 1 else 0
  }

  /**
   * Kinds and intents are words of a vocabulary with the blanks around them. `load_submission`
   * reads the word, and hands the text on as it was.
   */
  datatype Region = Region(id: Text, kind: Word<Kind>, intent: Word<Intent>, page: PageValue, box: Rect, view: View,
                           note: Text)

  datatype Query = Query(id: Text, intent: Word<Intent>, text: Text, relevant: seq<Text>, hardNegatives: seq<Text>)

  datatype Document = Document(id: Text, regions: seq<Region>, queries: seq<Query>)

  datatype PacketDocument = PacketDocument(id: Text, manufacturer: Text, mpn: Text, package: Text, pages: nat)

  /** The wording rules: the normal form in which texts must differ, and what looks templated or label-bearing. */
  datatype Wording = Wording(normal: string -> string, templated: (string, set<string>) -> bool)

  const REGION_TYPES := [Pinout, Table, Package]

  const NEGATIVE_KINDS := [WrongIntent, WrongPackage, WrongVariant, WrongView]

  // ---- the packet ----

  ghost predicate PacketAccepted(packet: seq<PacketDocument>) {
    && |packet| == 12
    && (forall d | d in packet ::
          HasText(d.id) && HasText(d.manufacturer) && HasText(d.mpn) && HasText(d.package) && d.pages > 0)
    && forall i, j | 0 <= i < j < |packet| :: packet[i].id.core != packet[j].id.core
  }

  predicate InPacket(packet: seq<PacketDocument>, id: string) { exists d | d in packet :: d.id == Plain(id) }

  function PagesOf(packet: seq<PacketDocument>, id: string): nat {
    if packet == [] then 0 else if packet[0].id == Plain(id) then packet[0].pages else PagesOf(packet[1..], id)
  }

  // ---- one document's regions ----

  predicate RegionOk(r: Region, pages: nat) {
    && HasText(r.id) && r.kind.word != NoKind && r.intent.word != NoIntent
    && 1 <= PageNumber(r.page) <= pages && Normalised(r.box) && HasText(r.note)
  }

  predicate HasPositive(regions: seq<Region>, t: Intent) {
    exists r | r in regions :: r.kind.word == Positive && r.intent.word == t
  }

  predicate HasKind(regions: seq<Region>, k: Kind) { exists r | r in regions :: r.kind.word == k }

  ghost predicate DistinctRegions(regions: seq<Region>) {
    forall i, j | 0 <= i < j < |regions| :: regions[i].id.core != regions[j].id.core
  }

  ghost predicate RegionsAccepted(regions: seq<Region>, pages: nat) {
    && |regions| >= 7
    && (forall r | r in regions :: RegionOk(r, pages))
    && DistinctRegions(regions)
    && (forall t | t in REGION_TYPES :: HasPositive(regions, t))
    && (forall k | k in NEGATIVE_KINDS :: HasKind(regions, k))
  }

  /** What the region loop has collected from `regions`. */
  ghost predicate Tables(regions: seq<Region>, kinds: map<string, Kind>, intents: map<string, Intent>) {
    && kinds.Keys == RegionIds(regions) && intents.Keys == RegionIds(regions)
    && forall r | r in regions :: kinds[r.id.core] == r.kind.word && intents[r.id.core] == r.intent.word
  }

  function RegionIds(regions: seq<Region>): set<string> { set r | r in regions :: r.id.core }

  function PositiveIntents(regions: seq<Region>): set<Intent> {
    set r | r in regions && r.kind.word == Positive :: r.intent.word
  }

  function NegativeKinds(regions: seq<Region>): set<Kind> {
    set r | r in regions && r.kind.word != Positive :: r.kind.word
  }

  lemma OneMoreRegion(regions: seq<Region>, r: Region, kinds: map<string, Kind>, intents: map<string, Intent>)
    requires Tables(regions, kinds, intents) && r.id.core !in kinds.Keys
    ensures Tables(regions + [r], kinds[r.id.core := r.kind.word], intents[r.id.core := r.intent.word])
  {
    var all, id := regions + [r], r.id.core;
    assert RegionIds(all) == RegionIds(regions) + {id};
    forall x | x in all
      ensures kinds[id := r.kind.word][x.id.core] == x.kind.word &&
              intents[id := r.intent.word][x.id.core] == x.intent.word
    {
      if x in regions { assert x.id.core in RegionIds(regions); }
    }
  }

  lemma OneMoreKind(regions: seq<Region>, r: Region)
    ensures PositiveIntents(regions + [r]) ==
            PositiveIntents(regions) + (if r.kind.word == Positive then {r.intent.word} else {})
    ensures NegativeKinds(regions + [r]) ==
            NegativeKinds(regions) + (if r.kind.word != Positive then {r.kind.word} else {})
  {
  }

  lemma RepeatedRegion(regions: seq<Region>, i: nat)
    requires i < |regions| && regions[i].id.core in RegionIds(regions[..i])
    ensures !DistinctRegions(regions)
  {
    var r :| r in regions[..i] && r.id.core == regions[i].id.core;
    var j :| 0 <= j < i && regions[j] == r;
  }

  lemma KindsFound(regions: seq<Region>)
    requires forall r | r in regions :: r.kind.word != NoKind
    ensures (forall t | t in REGION_TYPES :: HasPositive(regions, t)) <==>
            Pinout in PositiveIntents(regions) && Table in PositiveIntents(regions) &&
            Package in PositiveIntents(regions)
    ensures (forall k | k in NEGATIVE_KINDS :: HasKind(regions, k)) <==>
            NegativeKinds(regions) == {WrongIntent, WrongPackage, WrongVariant, WrongView}
  {
    forall t ensures HasPositive(regions, t) <==> t in PositiveIntents(regions) {}
    forall k | k != Positive ensures HasKind(regions, k) <==> k in NegativeKinds(regions) {}
    assert forall k: Kind :: k in NEGATIVE_KINDS <==> k != Positive && k != NoKind;
    assert Pinout in REGION_TYPES && Table in REGION_TYPES && Package in REGION_TYPES;
  }

  /** The state of the region loop after `regions`. */
  datatype Seen = Seen(kinds: map<string, Kind>, intents: map<string, Intent>, positives: set<Intent>,
                       negatives: set<Kind>)

  ghost predicate Collected(regions: seq<Region>, pages: nat, s: Seen) {
    && (forall r | r in regions :: RegionOk(r, pages))
    && DistinctRegions(regions)
    && Tables(regions, s.kinds, s.intents)
    && s.positives == PositiveIntents(regions) && s.negatives == NegativeKinds(regions)
  }

  function Record(s: Seen, r: Region): Seen {
    Seen(s.kinds[r.id.core := r.kind.word], s.intents[r.id.core := r.intent.word],
         if r.kind.word == Positive then s.positives + {r.intent.word} else s.positives,
         if r.kind.word == Positive then s.negatives else s.negatives + {r.kind.word})
  }

  lemma RecordCollects(regions: seq<Region>, r: Region, pages: nat, s: Seen)
    requires Collected(regions, pages, s) && r.id.core !in s.kinds.Keys && RegionOk(r, pages)
    ensures Collected(regions + [r], pages, Record(s, r))
  {
    OneMoreRegion(regions, r, s.kinds, s.intents);
    OneMoreKind(regions, r);
    StillDistinct(regions, r);
  }

  lemma StillDistinct(regions: seq<Region>, r: Region)
    requires DistinctRegions(regions) && r.id.core !in RegionIds(regions)
    ensures DistinctRegions(regions + [r])
  {
    forall i | 0 <= i < |regions| ensures regions[i].id.core != r.id.core {
      assert regions[i].id.core in RegionIds(regions);
    }
  }

  /** One turn of the region loop; nothing when it raises. */
  function ScanStep(s: Seen, r: Region, pages: nat): Option<Seen> {
    if r.id.core in s.kinds.Keys || !RegionOk(r, pages) then None else Some(Record(s, r))
  }

  function Scan(regions: seq<Region>, n: nat, pages: nat): Option<Seen>
    requires n <= |regions|
  {
    if n == 0 then Some(Seen(map[], map[], {}, {}))
    else match Scan(regions, n - 1, pages)
         case None => None
         case Some(s) => ScanStep(s, regions[n - 1], pages)
  }

  lemma {:induction false} ScanStops(regions: seq<Region>, n: nat, m: nat, pages: nat)
    requires n <= m <= |regions| && Scan(regions, n, pages) == None
    ensures Scan(regions, m, pages) == None
  {
    if n < m { ScanStops(regions, n, m - 1, pages); }
  }

  lemma RegionRefused(regions: seq<Region>, r: Region, pages: nat, s: Seen)
    requires Collected(regions, pages, s) && ScanStep(s, r, pages) == None
    ensures !((forall x | x in regions + [r] :: RegionOk(x, pages)) && DistinctRegions(regions + [r]))
  {
    if RegionOk(r, pages) {
      assert (regions + [r])[..|regions|] == regions;
      RepeatedRegion(regions + [r], |regions|);
    } else {
      assert r in regions + [r];
    }
  }

  lemma WorseWithMore(regions: seq<Region>, r: Region, pages: nat)
    ensures WellFormed(regions + [r], pages) ==> WellFormed(regions, pages)
  {
    assert forall x | x in regions :: x in regions + [r];
    assert forall i | 0 <= i < |regions| :: (regions + [r])[i] == regions[i];
  }

  ghost predicate WellFormed(regions: seq<Region>, pages: nat) {
    (forall r | r in regions :: RegionOk(r, pages)) && DistinctRegions(regions)
  }

  lemma StepDecides(before: seq<Region>, r: Region, pages: nat, s: Seen)
    requires Collected(before, pages, s)
    ensures match ScanStep(s, r, pages)
            case None => !WellFormed(before + [r], pages)
            case Some(t) => WellFormed(before + [r], pages) && Collected(before + [r], pages, t)
  {
    if ScanStep(s, r, pages) == None {
      RegionRefused(before, r, pages, s);
    } else {
      RecordCollects(before, r, pages, s);
    }
  }

  /** The loop gets through exactly when every region is well formed and no id repeats. */
  lemma {:induction false} ScanCollects(regions: seq<Region>, n: nat, pages: nat)
    requires n <= |regions|
    ensures match Scan(regions, n, pages)
            case None => !WellFormed(regions[..n], pages)
            case Some(s) => WellFormed(regions[..n], pages) && Collected(regions[..n], pages, s)
  {
    if n > 0 {
      ScanCollects(regions, n - 1, pages);
      assert regions[..n] == regions[..n - 1] + [regions[n - 1]];
      match Scan(regions, n - 1, pages)
      case None => WorseWithMore(regions[..n - 1], regions[n - 1], pages);
      case Some(s) => StepDecides(regions[..n - 1], regions[n - 1], pages, s);
    }
  }

  lemma ScanDecides(regions: seq<Region>, pages: nat)
    requires |regions| >= 7
    ensures Scan(regions, |regions|, pages) == None ==> !RegionsAccepted(regions, pages)
    ensures match Scan(regions, |regions|, pages)
            case None => true
            case Some(s) => Tables(regions, s.kinds, s.intents) && (RegionsAccepted(regions, pages) <==> Complete(s))
  {
    ScanCollects(regions, |regions|, pages);
    assert regions[..|regions|] == regions;
    if Scan(regions, |regions|, pages).Some? { KindsFound(regions); }
  }

  predicate Complete(s: Seen) {
    Pinout in s.positives && Table in s.positives && Package in s.positives &&
    s.negatives == {WrongIntent, WrongPackage, WrongVariant, WrongView}
  }

  method CheckRegions(regions: seq<Region>, pages: nat) returns (accepted: bool, seen: Seen)
    ensures accepted <==> RegionsAccepted(regions, pages)
    ensures accepted ==> Tables(regions, seen.kinds, seen.intents)
  {
    seen := Seen(map[], map[], {}, {});
    if |regions| < 7 { return false, seen; }
    ScanDecides(regions, pages);
    for i := 0 to |regions|
      invariant Scan(regions, i, pages) == Some(seen)
    {
      var region := regions[i];
      if region.id.core in seen.kinds.Keys || !RegionOk(region, pages) {
        ScanStops(regions, i + 1, |regions|, pages);
        return false, seen;
      }
      seen := Record(seen, region);
    }
    return Complete(seen), seen;
  }

  // ---- one document's queries ----

  predicate RelevantRegion(r: Region, x: Text, t: Intent) {
    x == Plain(r.id.core) && r.kind.word == Positive && r.intent.word == t
  }

  predicate NegativeRegion(r: Region, x: Text) { x == Plain(r.id.core) && r.kind.word != Positive }

  predicate LinksOk(q: Query, regions: seq<Region>) {
    && q.relevant != []
    && (forall x | x in q.relevant :: exists r | r in regions :: RelevantRegion(r, x, q.intent.word))
    && q.hardNegatives != [] && (forall x | x in q.hardNegatives :: exists r | r in regions :: NegativeRegion(r, x))
  }

  predicate QueryOk(q: Query, regions: seq<Region>, w: Wording) {
    && q.intent.word in REGION_TYPES && HasText(q.id) && HasText(q.text)
    && !w.templated(q.text.core, RegionIds(regions) + {q.id.core})
    && LinksOk(q, regions)
  }

  function QueryIds(queries: seq<Query>): seq<string> {
    seq(|queries|, i requires 0 <= i < |queries| => queries[i].id.core)
  }

  function NormalTexts(queries: seq<Query>, w: Wording): seq<string> {
    seq(|queries|, i requires 0 <= i < |queries| => w.normal(queries[i].text.core))
  }

  function IntentCount(queries: seq<Query>, t: Intent): nat { Count(queries, (q: Query) => q.intent.word == t) }

  ghost predicate QueriesAccepted(queries: seq<Query>, regions: seq<Region>, w: Wording) {
    && |queries| == 6
    && (forall q | q in queries :: QueryOk(q, regions, w))
    && Distinct(QueryIds(queries))
    && forall t | t in REGION_TYPES :: IntentCount(queries, t) == 2
  }

  /** The link checks of the source, on the tables of the region loop. */
  lemma LinksByTable(q: Query, regions: seq<Region>, kinds: map<string, Kind>, intents: map<string, Intent>)
    requires Tables(regions, kinds, intents)
    ensures (forall x | x in q.relevant :: exists r | r in regions :: RelevantRegion(r, x, q.intent.word)) <==>
            forall x | x in q.relevant ::
              && x == Plain(x.core) && x.core in kinds.Keys && kinds[x.core] == Positive
              && intents[x.core] == q.intent.word
    ensures (forall x | x in q.hardNegatives :: exists r | r in regions :: NegativeRegion(r, x)) <==>
            forall x | x in q.hardNegatives :: x == Plain(x.core) && x.core in kinds.Keys && kinds[x.core] != Positive
  {
    forall x: Text ensures (exists r | r in regions :: RelevantRegion(r, x, q.intent.word)) <==>
        x == Plain(x.core) && x.core in kinds.Keys && kinds[x.core] == Positive && intents[x.core] == q.intent.word
    {
      if x == Plain(x.core) && x.core in kinds.Keys && kinds[x.core] == Positive && intents[x.core] == q.intent.word {
        var r :| r in regions && r.id.core == x.core;
        assert RelevantRegion(r, x, q.intent.word);
      }
    }
    forall x: Text ensures (exists r | r in regions :: NegativeRegion(r, x)) <==>
        x == Plain(x.core) && x.core in kinds.Keys && kinds[x.core] != Positive
    {
      if x == Plain(x.core) && x.core in kinds.Keys && kinds[x.core] != Positive {
        var r :| r in regions && r.id.core == x.core;
        assert NegativeRegion(r, x);
      }
    }
  }

  /** The state of the query loop: ids, normalised texts of the whole submission, and queries per intent. */
  ghost predicate QueriesSeen(queries: seq<Query>, earlier: set<string>, w: Wording, ids: set<string>,
                              texts: set<string>)
  {
    && Distinct(QueryIds(queries)) && ids == Elements(QueryIds(queries))
    && Distinct(NormalTexts(queries, w)) && texts == earlier + Elements(NormalTexts(queries, w))
    && forall x | x in NormalTexts(queries, w) :: x !in earlier
  }

  lemma OneMoreQuery(queries: seq<Query>, q: Query, earlier: set<string>, w: Wording, ids: set<string>,
                     texts: set<string>)
    requires QueriesSeen(queries, earlier, w, ids, texts)
    ensures q.id.core in ids <==> !Distinct(QueryIds(queries + [q]))
    ensures w.normal(q.text.core) in texts <==>
            !Distinct(NormalTexts(queries + [q], w)) || w.normal(q.text.core) in earlier
    ensures q.id.core !in ids && w.normal(q.text.core) !in texts ==>
            QueriesSeen(queries + [q], earlier, w, ids + {q.id.core}, texts + {w.normal(q.text.core)})
  {
    var t := w.normal(q.text.core);
    assert QueryIds(queries + [q]) == QueryIds(queries) + [q.id.core];
    assert NormalTexts(queries + [q], w) == NormalTexts(queries, w) + [t];
    DistinctAppend(QueryIds(queries), q.id.core);
    DistinctAppend(NormalTexts(queries, w), t);
  }

  /** `QueryOk` as the source decides it. */
  predicate QueryAllowed(q: Query, seen: Seen, w: Wording) {
    && q.intent.word in REGION_TYPES && HasText(q.id) && HasText(q.text)
    && !w.templated(q.text.core, seen.kinds.Keys + {q.id.core})
    && q.relevant != []
    && (forall x | x in q.relevant :: x == Plain(x.core) && x.core in seen.kinds.Keys && x.core in seen.intents.Keys &&
                                      seen.kinds[x.core] == Positive && seen.intents[x.core] == q.intent.word)
    && q.hardNegatives != []
    && (forall x | x in q.hardNegatives ::
          x == Plain(x.core) && x.core in seen.kinds.Keys && seen.kinds[x.core] != Positive)
  }

  lemma AllowedIsOk(q: Query, regions: seq<Region>, seen: Seen, w: Wording)
    requires Tables(regions, seen.kinds, seen.intents)
    ensures QueryAllowed(q, seen, w) <==> QueryOk(q, regions, w)
  {
    LinksByTable(q, regions, seen.kinds, seen.intents);
  }

  ghost predicate NewTexts(queries: seq<Query>, w: Wording, earlier: set<string>) {
    Distinct(NormalTexts(queries, w)) && forall x | x in NormalTexts(queries, w) :: x !in earlier
  }

  lemma QueryRefused(queries: seq<Query>, i: nat, regions: seq<Region>, w: Wording, earlier: set<string>,
                     ids: set<string>, texts: set<string>)
    requires i < |queries| && QueriesSeen(queries[..i], earlier, w, ids, texts)
    requires !QueryOk(queries[i], regions, w) || queries[i].id.core in ids || w.normal(queries[i].text.core) in texts
    ensures !(QueriesAccepted(queries, regions, w) && NewTexts(queries, w, earlier))
  {
    var q := queries[i];
    assert q in queries;
    OneMoreQuery(queries[..i], q, earlier, w, ids, texts);
    assert queries[..i + 1] == queries[..i] + [q];
    assert QueryIds(queries[..i + 1]) == QueryIds(queries)[..i + 1];
    assert NormalTexts(queries[..i + 1], w) == NormalTexts(queries, w)[..i + 1];
    PrefixDistinct(QueryIds(queries), i + 1);
    PrefixDistinct(NormalTexts(queries, w), i + 1);
    assert NormalTexts(queries, w)[i] in NormalTexts(queries, w);
  }

  ghost predicate Tally(queries: seq<Query>, counts: map<Intent, nat>) {
    counts.Keys == {Pinout, Table, Package} && forall t | t in counts.Keys :: counts[t] == IntentCount(queries, t)
  }

  lemma OneMoreTally(queries: seq<Query>, q: Query, counts: map<Intent, nat>)
    requires Tally(queries, counts) && q.intent.word in counts.Keys
    ensures Tally(queries + [q], counts[q.intent.word := counts[q.intent.word] + 1])
  {
    forall t ensures IntentCount(queries + [q], t) == IntentCount(queries, t) + (if q.intent.word == t then 1 else 0) {
      CountAppend(queries, q, (x: Query) => x.intent.word == t);
    }
  }

  /** The state of the query loop. */
  ghost predicate QueriesPassed(queries: seq<Query>, regions: seq<Region>, earlier: set<string>, w: Wording,
                                ids: set<string>, texts: set<string>, counts: map<Intent, nat>)
  {
    && (forall q | q in queries :: QueryOk(q, regions, w))
    && QueriesSeen(queries, earlier, w, ids, texts) && Tally(queries, counts)
  }

  lemma QueryPasses(queries: seq<Query>, q: Query, regions: seq<Region>, earlier: set<string>, w: Wording,
                    ids: set<string>, texts: set<string>, counts: map<Intent, nat>)
    requires QueriesPassed(queries, regions, earlier, w, ids, texts, counts)
    requires QueryOk(q, regions, w) && q.id.core !in ids && w.normal(q.text.core) !in texts
    ensures q.intent.word in counts.Keys
    ensures QueriesPassed(queries + [q], regions, earlier, w, ids + {q.id.core}, texts + {w.normal(q.text.core)},
                          counts[q.intent.word := counts[q.intent.word] + 1])
  {
    OneMoreQuery(queries, q, earlier, w, ids, texts);
    OneMoreTally(queries, q, counts);
  }

  /** What the query loop has collected. */
  datatype Progress = Progress(ids: set<string>, texts: set<string>, counts: map<Intent, nat>)

  function Start(earlier: set<string>): Progress { Progress({}, earlier, map[Pinout := 0, Table := 0, Package := 0]) }

  /** One turn of the query loop; nothing when it raises. */
  function NextQuery(p: Progress, q: Query, seen: Seen, w: Wording): Option<Progress> {
    if q.id.core in p.ids || w.normal(q.text.core) in p.texts || !QueryAllowed(q, seen, w) ||
       q.intent.word !in p.counts.Keys
    then None
    else Some(Progress(p.ids + {q.id.core}, p.texts + {w.normal(q.text.core)},
                       p.counts[q.intent.word := p.counts[q.intent.word] + 1]))
  }

  function QueryScan(queries: seq<Query>, n: nat, seen: Seen, w: Wording, earlier: set<string>): Option<Progress>
    requires n <= |queries|
  {
    if n == 0 then Some(Start(earlier))
    else match QueryScan(queries, n - 1, seen, w, earlier)
         case None => None
         case Some(p) => NextQuery(p, queries[n - 1], seen, w)
  }

  lemma {:induction false} QueryScanStops(queries: seq<Query>, n: nat, m: nat, seen: Seen, w: Wording,
                                          earlier: set<string>)
    requires n <= m <= |queries| && QueryScan(queries, n, seen, w, earlier) == None
    ensures QueryScan(queries, m, seen, w, earlier) == None
  {
    if n < m { QueryScanStops(queries, n, m - 1, seen, w, earlier); }
  }

  lemma QueryScanTurn(queries: seq<Query>, i: nat, seen: Seen, w: Wording, earlier: set<string>, p: Progress)
    requires i < |queries| && QueryScan(queries, i, seen, w, earlier) == Some(p)
    ensures var next := NextQuery(p, queries[i], seen, w);
            QueryScan(queries, i + 1, seen, w, earlier) == next &&
            (next == None ==> QueryScan(queries, |queries|, seen, w, earlier) == None)
  {
    if NextQuery(p, queries[i], seen, w) == None { QueryScanStops(queries, i + 1, |queries|, seen, w, earlier); }
  }

  /** What the query loop has established after `n` queries; it stops only when the document is not acceptable. */
  ghost predicate ScanSound(queries: seq<Query>, n: nat, regions: seq<Region>, w: Wording, earlier: set<string>,
                            o: Option<Progress>)
    requires n <= |queries|
  {
    match o
    case None => !(QueriesAccepted(queries, regions, w) && NewTexts(queries, w, earlier))
    case Some(p) => QueriesPassed(queries[..n], regions, earlier, w, p.ids, p.texts, p.counts)
  }

  lemma StartSound(queries: seq<Query>, regions: seq<Region>, w: Wording, earlier: set<string>)
    ensures ScanSound(queries, 0, regions, w, earlier, Some(Start(earlier)))
  {
    assert queries[..0] == [];
  }

  lemma {:induction false} QueryScanSound(queries: seq<Query>, n: nat, regions: seq<Region>, seen: Seen, w: Wording,
                                          earlier: set<string>)
    requires n <= |queries| && Tables(regions, seen.kinds, seen.intents)
    ensures ScanSound(queries, n, regions, w, earlier, QueryScan(queries, n, seen, w, earlier))
  {
    if n == 0 {
      StartSound(queries, regions, w, earlier);
    } else {
      QueryScanSound(queries, n - 1, regions, seen, w, earlier);
      var before := QueryScan(queries, n - 1, seen, w, earlier);
      if before.Some? { NextQuerySound(queries, n - 1, regions, seen, w, earlier, before.value); }
    }
  }

  lemma NextQuerySound(queries: seq<Query>, i: nat, regions: seq<Region>, seen: Seen, w: Wording, earlier: set<string>,
                       p: Progress)
    requires i < |queries| && Tables(regions, seen.kinds, seen.intents)
    requires ScanSound(queries, i, regions, w, earlier, Some(p))
    ensures ScanSound(queries, i + 1, regions, w, earlier, NextQuery(p, queries[i], seen, w))
  {
    AllowedIsOk(queries[i], regions, seen, w);
    if NextQuery(p, queries[i], seen, w) == None {
      QueryRefused(queries, i, regions, w, earlier, p.ids, p.texts);
    } else {
      QueryPasses(queries[..i], queries[i], regions, earlier, w, p.ids, p.texts, p.counts);
      assert queries[..i + 1] == queries[..i] + [queries[i]];
    }
  }

  lemma QueryScanDecides(queries: seq<Query>, regions: seq<Region>, seen: Seen, w: Wording, earlier: set<string>)
    requires |queries| == 6 && Tables(regions, seen.kinds, seen.intents)
    ensures match QueryScan(queries, |queries|, seen, w, earlier)
            case None => !(QueriesAccepted(queries, regions, w) && NewTexts(queries, w, earlier))
            case Some(p) =>
              && p.texts == earlier + Elements(NormalTexts(queries, w))
              && (TwoEach(p.counts) <==> QueriesAccepted(queries, regions, w) && NewTexts(queries, w, earlier))
  {
    QueryScanSound(queries, |queries|, regions, seen, w, earlier);
    assert queries[..|queries|] == queries;
    assert Pinout in REGION_TYPES && Table in REGION_TYPES && Package in REGION_TYPES;
  }

  predicate TwoEach(counts: map<Intent, nat>) {
    && Pinout in counts && Table in counts && Package in counts
    && counts[Pinout] == 2 && counts[Table] == 2 && counts[Package] == 2
  }

  /** The query loop. */
  method ScanQueries(queries: seq<Query>, seen: Seen, w: Wording, earlier: set<string>)
    returns (scanned: Option<Progress>)
    ensures scanned == QueryScan(queries, |queries|, seen, w, earlier)
  {
    var progress := Start(earlier);
    for i := 0 to |queries|
      invariant QueryScan(queries, i, seen, w, earlier) == Some(progress)
    {
      QueryScanTurn(queries, i, seen, w, earlier, progress);
      var next := NextQuery(progress, queries[i], seen, w);
      if next.None? { return None; }
      progress := next.value;
    }
    return Some(progress);
  }

  /** The checks of one document's queries. */
  method CheckQueries(queries: seq<Query>, regions: seq<Region>, seen: Seen, w: Wording, earlier: set<string>)
    returns (accepted: bool, texts: set<string>)
    requires Tables(regions, seen.kinds, seen.intents)
    ensures accepted <==> QueriesAccepted(queries, regions, w) && NewTexts(queries, w, earlier)
    ensures accepted ==> texts == earlier + Elements(NormalTexts(queries, w))
  {
    if |queries| != 6 { return false, earlier; }
    QueryScanDecides(queries, regions, seen, w, earlier);
    var scanned := ScanQueries(queries, seen, w, earlier);
    if scanned.None? { return false, earlier; }
    return TwoEach(scanned.value.counts), scanned.value.texts;
  }

  // ---- the whole submission ----

  ghost predicate DocumentAccepted(d: Document, packet: seq<PacketDocument>, w: Wording) {
    && HasText(d.id) && InPacket(packet, d.id.core)
    && RegionsAccepted(d.regions, PagesOf(packet, d.id.core))
    && QueriesAccepted(d.queries, d.regions, w)
  }

  function DocumentIds(documents: seq<Document>): seq<string> {
    seq(|documents|, i requires 0 <= i < |documents| => documents[i].id.core)
  }

  function AllTexts(documents: seq<Document>, w: Wording): seq<string> {
    if documents == [] then []
    else AllTexts(documents[..|documents| - 1], w) + NormalTexts(documents[|documents| - 1].queries, w)
  }

  /** What `load_submission` accepts, apart from digests and the author's attestation. */
  ghost predicate SubmissionAccepted(documents: seq<Document>, packet: seq<PacketDocument>, w: Wording) {
    && |documents| == |packet|
    && (forall d | d in documents :: DocumentAccepted(d, packet, w))
    && Distinct(DocumentIds(documents))
    && Distinct(AllTexts(documents, w))
  }

  /** The state of the document loop. */
  ghost predicate DocumentsSeen(documents: seq<Document>, packet: seq<PacketDocument>, w: Wording, ids: set<string>,
                                texts: set<string>)
  {
    && (forall d | d in documents :: DocumentAccepted(d, packet, w))
    && Distinct(DocumentIds(documents)) && ids == Elements(DocumentIds(documents))
    && Distinct(AllTexts(documents, w)) && texts == Elements(AllTexts(documents, w))
  }

  lemma OneMoreDocument(documents: seq<Document>, d: Document, packet: seq<PacketDocument>, w: Wording,
                        ids: set<string>, texts: set<string>)
    requires DocumentsSeen(documents, packet, w, ids, texts)
    ensures AllTexts(documents + [d], w) == AllTexts(documents, w) + NormalTexts(d.queries, w)
    ensures DocumentAccepted(d, packet, w) && d.id.core !in ids && NewTexts(d.queries, w, texts) <==>
            DocumentsSeen(documents + [d], packet, w, ids + {d.id.core}, texts + Elements(NormalTexts(d.queries, w)))
    ensures Distinct(DocumentIds(documents + [d])) <==> d.id.core !in ids
    ensures Distinct(AllTexts(documents + [d], w)) <==> NewTexts(d.queries, w, texts)
  {
    assert (documents + [d])[..|documents|] == documents;
    assert DocumentIds(documents + [d]) == DocumentIds(documents) + [d.id.core];
    DistinctAppend(DocumentIds(documents), d.id.core);
    AppendDistinct(AllTexts(documents, w), NormalTexts(d.queries, w));
  }

  lemma {:induction false} TextsPrefix(documents: seq<Document>, n: nat, w: Wording)
    requires n <= |documents|
    ensures AllTexts(documents[..n], w) <= AllTexts(documents, w)
    ensures Distinct(AllTexts(documents, w)) ==> Distinct(AllTexts(documents[..n], w))
  {
    if n == |documents| {
      assert documents[..n] == documents;
    } else {
      var front := documents[..|documents| - 1];
      TextsPrefix(front, n, w);
      assert front[..n] == documents[..n];
    }
    PrefixDistinct(AllTexts(documents, w), |AllTexts(documents[..n], w)|);
  }

  lemma DocumentRefused(documents: seq<Document>, i: nat, packet: seq<PacketDocument>, w: Wording, ids: set<string>,
                        texts: set<string>)
    requires i < |documents| && DocumentsSeen(documents[..i], packet, w, ids, texts)
    requires !DocumentAccepted(documents[i], packet, w) || documents[i].id.core in ids ||
             !NewTexts(documents[i].queries, w, texts)
    ensures !SubmissionAccepted(documents, packet, w)
  {
    OneMoreDocument(documents[..i], documents[i], packet, w, ids, texts);
    assert documents[..i + 1] == documents[..i] + [documents[i]];
    assert DocumentIds(documents[..i + 1]) == DocumentIds(documents)[..i + 1];
    PrefixDistinct(DocumentIds(documents), i + 1);
    TextsPrefix(documents, i + 1, w);
    assert documents[i] in documents;
  }

  /** `load_submission`. */
  method LoadSubmission(documents: seq<Document>, packet: seq<PacketDocument>, w: Wording) returns (accepted: bool)
    ensures accepted <==> SubmissionAccepted(documents, packet, w)
  {
    if |documents| != |packet| { return false; }
    var ids: set<string>, texts: set<string> := {}, {};
    for i := 0 to |documents|
      invariant DocumentsSeen(documents[..i], packet, w, ids, texts)
    {
      var d := documents[i];
      if !HasText(d.id) || !InPacket(packet, d.id.core) || d.id.core in ids {
        DocumentRefused(documents, i, packet, w, ids, texts);
        return false;
      }
      var regionsOk, seen := CheckRegions(d.regions, PagesOf(packet, d.id.core));
      if !regionsOk { DocumentRefused(documents, i, packet, w, ids, texts); return false; }
      var queriesOk, newTexts := CheckQueries(d.queries, d.regions, seen, w, texts);
      if !queriesOk { DocumentRefused(documents, i, packet, w, ids, texts); return false; }
      OneMoreDocument(documents[..i], d, packet, w, ids, texts);
      assert documents[..i + 1] == documents[..i] + [d];
      ids, texts := ids + {d.id.core}, newTexts;
    }
    assert documents[..|documents|] == documents;
    return true;
  }
}
