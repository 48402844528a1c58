/**
 * The registry entry that the export makes of a document's regions.
 *
 * When its cases meet the contract of the visual registry, and which region ids the export can
 * still link to.
 */
module ExportedCases {
  import opened Prelude
  import opened Rects
  import opened Texts
  import opened AuthoringSubmission
  import opened VisualRegistry
  import opened CycleExport

  function ExportedIds(regions: seq<Region>): set<Text> { set r | r in regions && Exported(r) :: r.id }

  /** What a case keeps of its region; only wrong views are rewritten. */
  predicate FromRegion(c: Case, r: Region, identity: Identity) {
    && Exported(r)
    && c.id == r.id && c.page == r.page && c.box == r.box && c.rationale == r.note &&
       c.claimed == Claimed(BareKind(r), identity)
    && (if BareKind(r) == WrongView then c.caseLabel == WrongViewLabel || c.caseLabel == WrongFigure
        else c == CaseOf(r, identity))
  }

  lemma {:induction false} CaseSource(regions: seq<Region>, identity: Identity, c: Case) returns (r: Region)
    requires c in CasesOf(regions, identity)
    ensures r in regions && Exported(r) && c == CaseOf(r, identity)
  {
    var last, front := regions[|regions| - 1], regions[..|regions| - 1];
    if c in CasesOf(front, identity) { r := CaseSource(front, identity, c); } else { r := last; }
  }

  lemma {:induction false} RegionHasCase(regions: seq<Region>, identity: Identity, r: Region)
    requires r in regions && Exported(r)
    ensures CaseOf(r, identity) in CasesOf(regions, identity)
  {
    var last, front := regions[|regions| - 1], regions[..|regions| - 1];
    if r != last {
      assert regions == front + [last];
      RegionHasCase(front, identity, r);
    }
  }

  lemma OpposeCaseKeeps(r: Region, identity: Identity, ps: seq<(RegionType, View)>)
    requires Exported(r)
    ensures FromRegion(OpposeCase(CaseOf(r, identity), ps), r, identity)
  {
  }

  /** Every exported case comes from a region. */
  lemma CaseFrom(regions: seq<Region>, identity: Identity, c: Case) returns (r: Region)
    requires c in Oppose(CasesOf(regions, identity))
    ensures r in regions && FromRegion(c, r, identity)
  {
    var cases := CasesOf(regions, identity);
    var i :| 0 <= i < |cases| && c == OpposeCase(cases[i], Positives(cases));
    r := CaseSource(regions, identity, cases[i]);
    OpposeCaseKeeps(r, identity, Positives(cases));
  }

  /** Every exportable region gives a case. */
  lemma CaseFor(regions: seq<Region>, identity: Identity, r: Region) returns (c: Case)
    requires r in regions && Exported(r)
    ensures c in Oppose(CasesOf(regions, identity)) && FromRegion(c, r, identity)
  {
    var cases := CasesOf(regions, identity);
    RegionHasCase(regions, identity, r);
    var i :| 0 <= i < |cases| && cases[i] == CaseOf(r, identity);
    c := OpposeCase(cases[i], Positives(cases));
    assert c == Oppose(cases)[i];
    OpposeCaseKeeps(r, identity, Positives(cases));
  }

  lemma MappedAreExported(regions: seq<Region>, identity: Identity)
    ensures MappedIds(Oppose(CasesOf(regions, identity))) == ExportedIds(regions)
  {
    var cases := Oppose(CasesOf(regions, identity));
    forall x | x in MappedIds(cases) ensures x in ExportedIds(regions) {
      var c :| c in cases && c.id == x;
      var r := CaseFrom(regions, identity, c);
    }
    forall x | x in ExportedIds(regions) ensures x in MappedIds(cases) {
      var r :| r in regions && Exported(r) && r.id == x;
      var c := CaseFor(regions, identity, r);
    }
  }

  // ---- wrong views ----

  lemma {:induction false} FirstViewFound(ps: seq<(RegionType, View)>, t: RegionType)
    ensures FirstView(ps, t).Some? ==> (t, FirstView(ps, t).value) in ps && Opposable(FirstView(ps, t).value)
  {
    if ps != [] { FirstViewFound(ps[1..], t); }
  }

  lemma {:induction false} FirstOpposableFound(ps: seq<(RegionType, View)>)
    ensures FirstOpposable(ps).Some? ==> FirstOpposable(ps).value in ps && Opposable(FirstOpposable(ps).value.1)
  {
    if ps != [] { FirstOpposableFound(ps[1..]); }
  }

  lemma {:induction false} PositiveSource(cases: seq<Case>, p: (RegionType, View)) returns (c: Case)
    requires p in Positives(cases)
    ensures c in cases && c.caseLabel == Right && (c.regionType, c.view) == p
  {
    var last, front := cases[|cases| - 1], cases[..|cases| - 1];
    if p in Positives(front) { c := PositiveSource(front, p); } else { c := last; }
  }

  /** After the rewrite a wrong view opposes one of the positives it was compared with. */
  lemma OpposedTo(c: Case, ps: seq<(RegionType, View)>) returns (p: (RegionType, View))
    requires OpposeCase(c, ps).caseLabel == WrongViewLabel
    ensures p in ps && p.0 == OpposeCase(c, ps).regionType && Opposable(p.1) && p.1 != OpposeCase(c, ps).view
    ensures Opposable(OpposeCase(c, ps).view)
  {
    FirstViewFound(ps, c.regionType);
    FirstOpposableFound(ps);
    match FirstView(ps, c.regionType)
    case Some(v) => p := (c.regionType, v);
    case None => p := FirstOpposable(ps).value;
  }

  /** `_oppose_wrong_views` leaves every wrong view facing a positive view of its type. */
  lemma WrongViewsOpposed(cases: seq<Case>, c: Case)
    requires c in Oppose(cases)
    ensures ViewOpposed(c, Oppose(cases))
  {
    if c.caseLabel == WrongViewLabel {
      var ps := Positives(cases);
      var i :| 0 <= i < |cases| && c == OpposeCase(cases[i], ps);
      var p := OpposedTo(cases[i], ps);
      var b := PositiveSource(cases, p);
      var j :| 0 <= j < |cases| && cases[j] == b;
      assert Oppose(cases)[j] == b;
      assert Opposes(b, c);
    }
  }

  // ---- the contract of one entry's cases ----

  predicate RegionUsable(r: Region) { Exported(r) ==> r.page.Whole? }

  predicate PackageUsable(identity: Identity) { OtherPackage(identity.package).core != identity.package.core }

  lemma RelatedExactly(c: Case, r: Region, identity: Identity)
    requires FromRegion(c, r, identity)
    ensures IdentityRelated(c, identity) <==> (BareKind(r) == WrongPackage ==> PackageUsable(identity))
  {
  }

  /** Only the untrimmed spelling of SOIC-8 makes the stand-in package equal to the real one. */
  lemma PackageUsableExactly(identity: Identity)
    ensures PackageUsable(identity) <==> (identity.package.core == "SOIC-8" ==> Trimmed(identity.package))
  {
    assert FoldsToSoic8("SOIC-8");
    assert "TSSOP-8" != "SOIC-8";
    if identity.package.core == "TSSOP-8" { assert |identity.package.core| == 7; }
  }

  /** A positive of this type whose kind and intent carry no blanks. */
  predicate HasExportedPositive(regions: seq<Region>, t: Intent) {
    exists r | r in regions :: BareKind(r) == Positive && BareIntent(r) == t
  }

  predicate ExportedNegative(r: Region) { Exported(r) && BareKind(r) != Positive }

  predicate HasExportedNegative(regions: seq<Region>) { exists r | r in regions :: ExportedNegative(r) }

  predicate HasExportedWrongPackage(regions: seq<Region>) { exists r | r in regions :: BareKind(r) == WrongPackage }

  /** All three positive types and some negative get into the registry. */
  predicate KindsSurvive(regions: seq<Region>) {
    && HasExportedPositive(regions, Pinout) && HasExportedPositive(regions, Table) &&
       HasExportedPositive(regions, Package)
    && HasExportedNegative(regions)
  }

  lemma RightExactly(regions: seq<Region>, identity: Identity, t: Intent, rt: RegionType)
    requires TypeOf(Positive, t) == Some(rt)
    ensures HasRight(Oppose(CasesOf(regions, identity)), rt) <==> HasExportedPositive(regions, t)
  {
    var cases := Oppose(CasesOf(regions, identity));
    if HasExportedPositive(regions, t) {
      var r :| r in regions && BareKind(r) == Positive && BareIntent(r) == t;
      var c := CaseFor(regions, identity, r);
    }
    if HasRight(cases, rt) {
      var c :| c in cases && c.caseLabel == Right && c.regionType == rt;
      var r := CaseFrom(regions, identity, c);
      assert BareKind(r) == Positive && BareIntent(r) == t;
    }
  }

  lemma WrongExactly(regions: seq<Region>, identity: Identity)
    ensures (exists c | c in Oppose(CasesOf(regions, identity)) :: c.caseLabel != Right) <==>
            HasExportedNegative(regions)
  {
    var cases := Oppose(CasesOf(regions, identity));
    if HasExportedNegative(regions) {
      var r :| r in regions && ExportedNegative(r);
      var c := CaseFor(regions, identity, r);
    }
    if exists c | c in cases :: c.caseLabel != Right {
      var c :| c in cases && c.caseLabel != Right;
      var r := CaseFrom(regions, identity, c);
      assert ExportedNegative(r);
    }
  }

  /**
   * The exported cases meet the registry contract exactly when every positive type and some
   * negative survive, pages are numbers, and the stand-in package differs where it is used.
   */
  lemma CasesOkExactly(regions: seq<Region>, identity: Identity, pages: nat)
    requires RegionsAccepted(regions, pages) && IdentityOk(identity)
    ensures CasesOk(Oppose(CasesOf(regions, identity)), identity) <==>
            && KindsSurvive(regions) && (forall r | r in regions :: RegionUsable(r))
            && (HasExportedWrongPackage(regions) ==> PackageUsable(identity))
  {
    var cases := Oppose(CasesOf(regions, identity));
    RightExactly(regions, identity, Pinout, PinoutRegion);
    RightExactly(regions, identity, Table, TableRegion);
    RightExactly(regions, identity, Package, PackageRegion);
    WrongExactly(regions, identity);
    forall c | c in cases ensures ViewOpposed(c, cases) { WrongViewsOpposed(CasesOf(regions, identity), c); }
    PagesExactly(regions, identity, pages);
    RelationsExactly(regions, identity);
  }

  lemma PagesExactly(regions: seq<Region>, identity: Identity, pages: nat)
    requires RegionsAccepted(regions, pages) && IdentityOk(identity)
    ensures (forall c | c in Oppose(CasesOf(regions, identity)) :: CaseOk(c)) <==>
            forall r | r in regions :: RegionUsable(r)
  {
    var cases := Oppose(CasesOf(regions, identity));
    forall c | c in cases ensures exists r :: r in regions && (CaseOk(c) <==> RegionUsable(r)) {
      var r := CaseFrom(regions, identity, c);
    }
    forall r | r in regions && Exported(r) ensures exists c :: c in cases && (CaseOk(c) <==> RegionUsable(r)) {
      var c := CaseFor(regions, identity, r);
    }
  }

  lemma RelationsExactly(regions: seq<Region>, identity: Identity)
    ensures (forall c | c in Oppose(CasesOf(regions, identity)) :: IdentityRelated(c, identity)) <==>
            (HasExportedWrongPackage(regions) ==> PackageUsable(identity))
  {
    forall c | c in Oppose(CasesOf(regions, identity))
      ensures (HasExportedWrongPackage(regions) ==> PackageUsable(identity)) ==> IdentityRelated(c, identity)
    {
      var r := CaseFrom(regions, identity, c);
      RelatedExactly(c, r, identity);
    }
    if HasExportedWrongPackage(regions) {
      var r :| r in regions && BareKind(r) == WrongPackage;
      var c := CaseFor(regions, identity, r);
      RelatedExactly(c, r, identity);
    }
  }
}
