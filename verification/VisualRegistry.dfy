/**
 * The visual registry contract: `load_visual_registry_data`.
 *
 * `EntryOk` and `Consistent` say what is accepted; the entry loop with its tables of ids, groups
 * and sources is proved to accept exactly that.
 */
module VisualRegistry {
  import opened Prelude
  import opened Rects
  import opened Texts
  import opened AuthoringSubmission

  datatype RegionType = PinoutRegion | TableRegion | PackageRegion

  datatype Label = Right | WrongFigure | WrongViewLabel | WrongPackageLabel | WrongVariantLabel

  datatype Identity = Identity(manufacturer: Text, mpn: Text, package: Text)

  datatype Case = Case(id: Text, caseLabel: Label, regionType: RegionType, page: PageValue, box: Rect, view: View,
                       claimed: Identity, rationale: Text)

  /** A review time and how `datetime.fromisoformat` reads it. */
  datatype Timestamp = Zoned(text: Text) | Naive(text: Text) | Malformed(text: Text)

  datatype Review = Review(reviewed: bool, reviewers: seq<Text>, at: Option<Timestamp>, revision: Text)

  datatype Entry = Entry(id: Text, group: Text, split: Text, category: Text, url: Text, revision: Text, sha: Text,
                         identity: Identity, review: Review, cases: seq<Case>)

  const SPLITS := ["development", "calibration", "evaluation"]

  predicate Opposable(v: View) { v == Top || v == Bottom }

  // ---- one entry ----

  predicate IdentityOk(i: Identity) { HasText(i.manufacturer) && HasText(i.mpn) && HasText(i.package) }

  /** Identities are compared without the blanks around their parts. */
  function Parsed(i: Identity): (string, string, string) { (i.manufacturer.core, i.mpn.core, i.package.core) }

  predicate CaseOk(c: Case) {
    && HasText(c.id) && c.page.Whole? && c.page.n >= 1 && Normalised(c.box) && IdentityOk(c.claimed) &&
       HasText(c.rationale)
  }

  /** `_validate_identity_relationship`. */
  predicate IdentityRelated(c: Case, identity: Identity) {
    var claimed, actual := Parsed(c.claimed), Parsed(identity);
    match c.caseLabel
    case Right => claimed == actual
    case WrongFigure => claimed == actual
    case WrongViewLabel => claimed == actual
    case WrongPackageLabel =>
      claimed.0 == actual.0 && claimed.1 == actual.1 && claimed.2 != actual.2 && c.regionType == PackageRegion
    case WrongVariantLabel =>
      claimed.0 == actual.0 && claimed.1 != actual.1 && claimed.2 == actual.2 && c.regionType == PackageRegion
  }

  predicate Opposes(p: Case, c: Case) {
    p.caseLabel == Right && p.regionType == c.regionType && Opposable(p.view) && p.view != c.view
  }

  /** A wrong view opposes a positive top or bottom view of its own region type. */
  predicate ViewOpposed(c: Case, cases: seq<Case>) {
    c.caseLabel == WrongViewLabel ==> Opposable(c.view) && exists p | p in cases :: Opposes(p, c)
  }

  predicate HasRight(cases: seq<Case>, t: RegionType) {
    exists c | c in cases :: c.caseLabel == Right && c.regionType == t
  }

  predicate CasesOk(cases: seq<Case>, identity: Identity) {
    && cases != []
    && (forall c | c in cases :: CaseOk(c) && IdentityRelated(c, identity))
    && HasRight(cases, PinoutRegion) && HasRight(cases, TableRegion) && HasRight(cases, PackageRegion)
    && (exists c | c in cases :: c.caseLabel != Right)
    && (forall c | c in cases :: ViewOpposed(c, cases))
  }

  predicate ReviewOk(r: Review) {
    && (forall x | x in r.reviewers :: HasText(x))
    && (forall i, j | 0 <= i < j < |r.reviewers| :: r.reviewers[i].core != r.reviewers[j].core)
    && (r.at.Some? ==> HasText(r.at.value.text) && r.at.value.Zoned?)
    && (if r.reviewed then r.reviewers != [] && r.at.Some? else r.reviewers == [] && r.at.None?)
    && HasText(r.revision)
  }

  predicate EntryOk(d: Entry) {
    && HasText(d.id) && HasText(d.group) && d.split.core in SPLITS && HasText(d.category)
    && "https://" <= d.url.core && HasText(d.revision) && IsSha256(d.sha.core)
    && IdentityOk(d.identity) && ReviewOk(d.review)
    && (d.split.core == "development" || d.review.reviewed)
    && CasesOk(d.cases, d.identity)
  }

  // ---- across entries ----

  function QualifiedIds(d: Entry): seq<string> {
    seq(|d.cases|, i requires 0 <= i < |d.cases| => d.id.core + "/" + d.cases[i].id.core)
  }

  function AllIds(entries: seq<Entry>): seq<string> {
    if entries == [] then [] else AllIds(entries[..|entries| - 1]) + QualifiedIds(entries[|entries| - 1])
  }

  function EntryIds(entries: seq<Entry>): seq<string> {
    seq(|entries|, i requires 0 <= i < |entries| => entries[i].id.core)
  }

  /** A group stays in one split. */
  predicate SameSplit(d: Entry, e: Entry) { d.group.core == e.group.core ==> d.split.core == e.split.core }

  /** A source hash stays in one group and split. */
  predicate SameOwner(d: Entry, e: Entry) {
    d.sha.core == e.sha.core ==> d.group.core == e.group.core && d.split.core == e.split.core
  }

  ghost predicate EachOk(entries: seq<Entry>) { forall d | d in entries :: EntryOk(d) }

  /** Ids do not repeat, and groups and sources do not leak across splits. */
  ghost predicate Consistent(entries: seq<Entry>) {
    && Distinct(EntryIds(entries))
    && Distinct(AllIds(entries))
    && (forall d, e | d in entries && e in entries :: SameSplit(d, e))
    && (forall d, e | d in entries && e in entries :: SameOwner(d, e))
  }

  ghost predicate VisualAccepted(entries: seq<Entry>) { entries != [] && EachOk(entries) && Consistent(entries) }

  // ---- the loader ----

  /** The tables of the entry loop. */
  datatype Registry = Registry(ids: set<string>, caseIds: set<string>, splits: map<string, string>,
                               owners: map<string, (string, string)>)

  ghost predicate SplitsOf(entries: seq<Entry>, splits: map<string, string>) {
    && (forall d | d in entries :: d.group.core in splits && splits[d.group.core] == d.split.core)
    && forall g | g in splits :: exists d | d in entries :: d.group.core == g
  }

  ghost predicate OwnersOf(entries: seq<Entry>, owners: map<string, (string, string)>) {
    && (forall d | d in entries :: d.sha.core in owners && owners[d.sha.core] == (d.group.core, d.split.core))
    && forall h | h in owners :: exists d | d in entries :: d.sha.core == h
  }

  ghost predicate Registered(entries: seq<Entry>, t: Registry) {
    && Distinct(EntryIds(entries)) && t.ids == Elements(EntryIds(entries))
    && Distinct(AllIds(entries)) && t.caseIds == Elements(AllIds(entries))
    && SplitsOf(entries, t.splits) && OwnersOf(entries, t.owners)
  }

  /** The checks of the source against the tables of earlier entries. */
  predicate FitsTables(d: Entry, t: Registry) {
    && d.id.core !in t.ids
    && (d.group.core in t.splits ==> t.splits[d.group.core] == d.split.core)
    && (d.sha.core in t.owners ==> t.owners[d.sha.core] == (d.group.core, d.split.core))
  }

  function Register(t: Registry, d: Entry, caseIds: set<string>): Registry {
    Registry(t.ids + {d.id.core}, caseIds, t.splits[d.group.core := d.split.core],
             t.owners[d.sha.core := (d.group.core, d.split.core)])
  }

  lemma SplitFits(entries: seq<Entry>, d: Entry, splits: map<string, string>)
    requires SplitsOf(entries, splits)
    ensures (d.group.core in splits ==> splits[d.group.core] == d.split.core) <==>
            forall e | e in entries :: SameSplit(e, d)
  {
    if d.group.core in splits {
      var e :| e in entries && e.group.core == d.group.core;
      assert SameSplit(e, d) ==> splits[d.group.core] == d.split.core;
    }
  }

  lemma OwnerFits(entries: seq<Entry>, d: Entry, owners: map<string, (string, string)>)
    requires OwnersOf(entries, owners)
    ensures (d.sha.core in owners ==> owners[d.sha.core] == (d.group.core, d.split.core)) <==>
            forall e | e in entries :: SameOwner(e, d)
  {
    if d.sha.core in owners {
      var e :| e in entries && e.sha.core == d.sha.core;
      assert SameOwner(e, d) ==> owners[d.sha.core] == (d.group.core, d.split.core);
    }
  }

  lemma SplitsGrow(entries: seq<Entry>, d: Entry, splits: map<string, string>)
    requires SplitsOf(entries, splits) && (d.group.core in splits ==> splits[d.group.core] == d.split.core)
    ensures SplitsOf(entries + [d], splits[d.group.core := d.split.core])
  {
    var all, splits' := entries + [d], splits[d.group.core := d.split.core];
    forall g | g in splits' ensures exists e | e in all :: e.group.core == g {
      if g in splits { var e :| e in entries && e.group.core == g; assert e in all; } else { assert d in all; }
    }
  }

  lemma OwnersGrow(entries: seq<Entry>, d: Entry, owners: map<string, (string, string)>)
    requires OwnersOf(entries, owners) && (d.sha.core in owners ==> owners[d.sha.core] == (d.group.core, d.split.core))
    ensures OwnersOf(entries + [d], owners[d.sha.core := (d.group.core, d.split.core)])
  {
    var all, owners' := entries + [d], owners[d.sha.core := (d.group.core, d.split.core)];
    forall h | h in owners' ensures exists e | e in all :: e.sha.core == h {
      if h in owners { var e :| e in entries && e.sha.core == h; assert e in all; } else { assert d in all; }
    }
  }

  lemma IdsAppend(entries: seq<Entry>, d: Entry)
    ensures EntryIds(entries + [d]) == EntryIds(entries) + [d.id.core]
    ensures AllIds(entries + [d]) == AllIds(entries) + QualifiedIds(d)
  {
    assert (entries + [d])[..|entries|] == entries;
  }

  ghost predicate NewCases(d: Entry, caseIds: set<string>) {
    Distinct(QualifiedIds(d)) && forall x | x in QualifiedIds(d) :: x !in caseIds
  }

  /** One turn of the entry loop; nothing when it raises. */
  ghost function TableStep(t: Registry, d: Entry): Option<Registry> {
    if FitsTables(d, t) && NewCases(d, t.caseIds)
    then Some(Register(t, d, t.caseIds + Elements(QualifiedIds(d)))) else None
  }

  ghost function TablesAfter(entries: seq<Entry>, n: nat): Option<Registry>
    requires n <= |entries|
  {
    if n == 0 then Some(Registry({}, {}, map[], map[]))
    else match TablesAfter(entries, n - 1)
         case None => None
         case Some(t) => TableStep(t, entries[n - 1])
  }

  lemma {:induction false} TablesStop(entries: seq<Entry>, n: nat, m: nat)
    requires n <= m <= |entries| && TablesAfter(entries, n) == None
    ensures TablesAfter(entries, m) == None
  {
    if n < m { TablesStop(entries, n, m - 1); }
  }

  lemma EntryIdsGrow(entries: seq<Entry>, d: Entry)
    requires Distinct(EntryIds(entries))
    ensures Distinct(EntryIds(entries + [d])) <==> d.id.core !in Elements(EntryIds(entries))
    ensures Elements(EntryIds(entries + [d])) == Elements(EntryIds(entries)) + {d.id.core}
  {
    IdsAppend(entries, d);
    DistinctAppend(EntryIds(entries), d.id.core);
  }

  lemma CaseIdsGrow(entries: seq<Entry>, d: Entry)
    requires Distinct(AllIds(entries))
    ensures Distinct(AllIds(entries + [d])) <==> NewCases(d, Elements(AllIds(entries)))
    ensures Elements(AllIds(entries + [d])) == Elements(AllIds(entries)) + Elements(QualifiedIds(d))
  {
    IdsAppend(entries, d);
    var before, mine := AllIds(entries), QualifiedIds(d);
    AppendDistinct(before, mine);
    assert Elements(before + mine) == Elements(before) + Elements(mine);
  }

  lemma StepRegisters(entries: seq<Entry>, d: Entry, t: Registry)
    requires Registered(entries, t)
    ensures match TableStep(t, d)
            case Some(u) => Registered(entries + [d], u)
            case None => !Consistent(entries + [d])
  {
    var all := entries + [d];
    EntryIdsGrow(entries, d);
    CaseIdsGrow(entries, d);
    if TableStep(t, d).Some? {
      SplitsGrow(entries, d, t.splits);
      OwnersGrow(entries, d, t.owners);
    } else {
      SplitFits(entries, d, t.splits);
      OwnerFits(entries, d, t.owners);
      assert d in all && forall e | e in entries :: e in all;
    }
  }

  /** The tables after `n` entries hold those entries, or the loop has raised, and then rightly so. */
  ghost predicate Decided(entries: seq<Entry>, n: nat, tables: Option<Registry>)
    requires n <= |entries|
  {
    match tables
    case Some(t) => Registered(entries[..n], t) && Consistent(entries[..n])
    case None => !Consistent(entries)
  }

  lemma EmptyDecided(entries: seq<Entry>)
    ensures Decided(entries, 0, TablesAfter(entries, 0))
  {
    assert entries[..0] == [];
  }

  /** The tables survive exactly the consistent prefixes. */
  lemma {:induction false} TablesDecide(entries: seq<Entry>, n: nat)
    requires n <= |entries|
    ensures Decided(entries, n, TablesAfter(entries, n))
  {
    if n == 0 {
      EmptyDecided(entries);
    } else {
      TablesDecide(entries, n - 1);
      StepDecides(entries, n, TablesAfter(entries, n - 1));
    }
  }

  lemma StepDecides(entries: seq<Entry>, n: nat, before: Option<Registry>)
    requires 0 < n <= |entries| && Decided(entries, n - 1, before)
    ensures Decided(entries, n, if before.Some? then TableStep(before.value, entries[n - 1]) else None)
  {
    if before.Some? {
      assert entries[..n] == entries[..n - 1] + [entries[n - 1]];
      StepRegisters(entries[..n - 1], entries[n - 1], before.value);
      match TableStep(before.value, entries[n - 1])
      case Some(u) => RegisteredIsConsistent(entries[..n], u);
      case None => PrefixConsistent(entries, n);
    }
  }

  lemma TablesSay(entries: seq<Entry>)
    ensures TablesAfter(entries, |entries|).Some? <==> Consistent(entries)
  {
    TablesDecide(entries, |entries|);
    assert entries[..|entries|] == entries;
  }

  lemma PrefixConsistent(entries: seq<Entry>, n: nat)
    requires n <= |entries|
    ensures Consistent(entries) ==> Consistent(entries[..n])
  {
    assert EntryIds(entries[..n]) == EntryIds(entries)[..n];
    PrefixDistinct(EntryIds(entries), n);
    AllIdsPrefix(entries, n);
    PrefixDistinct(AllIds(entries), |AllIds(entries[..n])|);
    assert forall d | d in entries[..n] :: d in entries;
  }

  lemma {:induction false} AllIdsPrefix(entries: seq<Entry>, n: nat)
    requires n <= |entries|
    ensures AllIds(entries[..n]) <= AllIds(entries)
  {
    if n == |entries| {
      assert entries[..n] == entries;
    } else {
      var front := entries[..|entries| - 1];
      AllIdsPrefix(front, n);
      assert front[..n] == entries[..n];
    }
  }

  lemma RegisteredIsConsistent(entries: seq<Entry>, t: Registry)
    requires Registered(entries, t)
    ensures Consistent(entries)
  {
  }

  /** The duplicate checks of the case loop, for the cases of one entry. */
  method AddCaseIds(d: Entry, caseIds: set<string>) returns (isNew: bool, all: set<string>)
    ensures isNew <==> NewCases(d, caseIds)
    ensures isNew ==> all == caseIds + Elements(QualifiedIds(d))
  {
    all := caseIds;
    ghost var mine := QualifiedIds(d);
    for j := 0 to |d.cases|
      invariant Distinct(mine[..j]) && all == caseIds + Elements(mine[..j])
      invariant forall x | x in mine[..j] :: x !in caseIds
    {
      var qualified := d.id.core + "/" + d.cases[j].id.core;
      assert mine[..j + 1] == mine[..j] + [qualified];
      DistinctAppend(mine[..j], qualified);
      if qualified in all {
        PrefixDistinct(mine, j + 1);
        assert mine[j] == qualified;
        return false, all;
      }
      all := all + {qualified};
    }
    assert mine[..|d.cases|] == mine;
    return true, all;
  }

  /** The checks across entries. */
  method CheckTables(entries: seq<Entry>) returns (consistent: bool)
    ensures consistent <==> Consistent(entries)
  {
    TablesSay(entries);
    var t := Registry({}, {}, map[], map[]);
    for i := 0 to |entries|
      invariant TablesAfter(entries, i) == Some(t)
    {
      var d := entries[i];
      if !FitsTables(d, t) { TablesStop(entries, i + 1, |entries|); return false; }
      var isNew, caseIds := AddCaseIds(d, t.caseIds);
      if !isNew { TablesStop(entries, i + 1, |entries|); return false; }
      t := Register(t, d, caseIds);
    }
    return true;
  }

  method CheckEntries(entries: seq<Entry>) returns (ok: bool)
    ensures ok <==> EachOk(entries)
  {
    for i := 0 to |entries|
      invariant EachOk(entries[..i])
    {
      if !EntryOk(entries[i]) { assert entries[i] in entries; return false; }
    }
    assert entries[..|entries|] == entries;
    return true;
  }

  /** `load_visual_registry_data`. The order of the checks, which only picks the message of a refusal, is not kept. */
  method LoadVisualRegistry(entries: seq<Entry>) returns (accepted: bool)
    ensures accepted <==> VisualAccepted(entries)
  {
    if entries == [] { return false; }
    accepted := CheckEntries(entries);
    if accepted { accepted := CheckTables(entries); }
  }
}
