/**
 * The vocabulary of a submission as text.
 *
 * The loader strips a word before it looks it up, and the export compares it as it stands.
 * The other modules see a word and the blanks around it; this one shows that nothing is
 * lost that way.
 */
module SubmissionText {
  import opened Prelude
  import opened Rects
  import opened Texts
  import opened AuthoringSubmission
  import opened VisualRegistry
  import opened QueryRegistry
  import opened CycleExport

  /** A region as the JSON has it. */
  datatype RawRegion = RawRegion(id: Text, kind: Text, intent: Text, page: PageValue, box: Rect, view: View, note: Text)

  function KindName(k: Kind): string
    requires k != NoKind
  {
    match k
    case Positive => "positive"
    case WrongIntent => "wrong_intent"
    case WrongPackage => "wrong_package"
    case WrongVariant => "wrong_variant"
    case WrongView => "wrong_view"
  }

  function IntentName(t: Intent): string
    requires t != NoIntent
  {
    match t
    case Pinout => "pinout"
    case Package => "package"
    case Timing => "timing"
    case Curve => "curve"
    case Block => "block"
    case AppCircuit => "app_circuit"
    case Table => "table"
    case Other => "other"
  }

  function KindNamed(s: string): Kind {
    if s == "positive" then Positive
    else if s == "wrong_intent" then WrongIntent
    else if s == "wrong_package" then WrongPackage
    else if s == "wrong_variant" then WrongVariant
    else if s == "wrong_view" then WrongView
    else NoKind
  }

  function IntentNamed(s: string): Intent {
    if s == "pinout" then Pinout
    else if s == "package" then Package
    else if s == "timing" then Timing
    else if s == "curve" then Curve
    else if s == "block" then Block
    else if s == "app_circuit" then AppCircuit
    else if s == "table" then Table
    else if s == "other" then Other
    else NoIntent
  }

  function ReadKind(t: Text): Word<Kind> { Word(t.left, KindNamed(t.core), t.right) }

  function ReadIntent(t: Text): Word<Intent> { Word(t.left, IntentNamed(t.core), t.right) }

  function Read(r: RawRegion): Region {
    Region(r.id, ReadKind(r.kind), ReadIntent(r.intent), r.page, r.box, r.view, r.note)
  }

  /** No two kinds have one name, and every other text is no kind. */
  lemma KindNamedExactly(s: string, k: Kind)
    requires k != NoKind
    ensures KindNamed(s) == k <==> s == KindName(k)
  {
    assert KindName(k)[0] == 'p' <==> k == Positive;
    assert "wrong_intent"[6] != "wrong_package"[6] && "wrong_intent"[6] != "wrong_variant"[6];
    assert "wrong_package"[6] != "wrong_variant"[6] && |"wrong_view"| == 10 && |"wrong_intent"| == 12;
  }

  lemma IntentNamedExactly(s: string, t: Intent)
    requires t != NoIntent
    ensures IntentNamed(s) == t <==> s == IntentName(t)
  {
    assert "pinout"[0] == 'p' && "pinout"[1] == 'i' && "package"[0] == 'p' && "package"[1] == 'a';
    assert "timing"[0] == 't' && "timing"[1] == 'i' && "table"[0] == 't' && "table"[1] == 'a';
    assert "curve"[0] == 'c' && "block"[0] == 'b' && "app_circuit"[0] == 'a' && "other"[0] == 'o';
  }

  // ---- the export, on text ----

  /** `_region_type`, on the raw texts. */
  function RegionTypeText(kind: Text, intent: Text): Option<Text> {
    if kind == Plain("wrong_package") || kind == Plain("wrong_variant") then Some(Plain("package"))
    else if intent == Plain("pinout") || intent == Plain("table") || intent == Plain("package") then Some(intent)
    else None
  }

  /** The keys of `KIND_TO_LABEL`. */
  predicate HasLabel(kind: Text) {
    || kind == Plain("positive") || kind == Plain("wrong_intent") || kind == Plain("wrong_package")
    || kind == Plain("wrong_variant") || kind == Plain("wrong_view")
  }

  function TypeName(t: RegionType): string { IntentName(TypeText(t).word) }

  lemma BareKindExactly(r: RawRegion, k: Kind)
    requires k != NoKind
    ensures BareKind(Read(r)) == k <==> r.kind == Plain(KindName(k))
  {
    KindNamedExactly(r.kind.core, k);
  }

  lemma BareIntentExactly(r: RawRegion, t: Intent)
    requires t != NoIntent
    ensures BareIntent(Read(r)) == t <==> r.intent == Plain(IntentName(t))
  {
    IntentNamedExactly(r.intent.core, t);
  }

  /** Reading words and blanks apart changes neither the type of a region nor whether its kind has a label. */
  lemma TextDecides(r: RawRegion)
    ensures RegionTypeText(r.kind, r.intent) ==
            match RegionTypeOf(Read(r)) case None => None case Some(t) => Some(Plain(TypeName(t)))
    ensures HasLabel(r.kind) <==> BareKind(Read(r)) != NoKind
  {
    BareKindExactly(r, Positive);
    BareKindExactly(r, WrongIntent);
    BareKindExactly(r, WrongPackage);
    BareKindExactly(r, WrongVariant);
    BareKindExactly(r, WrongView);
    BareIntentExactly(r, Pinout);
    BareIntentExactly(r, Table);
    BareIntentExactly(r, Package);
  }
}
