/**
 * The compliance rule engine: one extracted label becomes a list of issues,
 * each `critical`, `needs_review` or `info`, and the label passes when no
 * issue is critical. A low-confidence extraction has its critical findings
 * downgraded to `needs_review`; when an application row is given, the field
 * comparison statuses become issues too.
 *
 * `CheckCompliance` builds the issue list step by step as the rule engine
 * does; `Evaluate` is the same result as a function, and the lemmas state the
 * decision table it implements.
 */
module Compliance {
  import opened Wrappers
  import opened Text
  import opened Labels
  import Comparison

  datatype Severity = Critical | NeedsReview | Info

  datatype IssueType = Presence | FieldComparison

  /** What an issue is about: one of the presence checks, the overall
      extraction-quality note, or a compared application field. */
  datatype Subject =
    | WarningPresent | WarningText | AlcoholByVolume | NetContents
    | ProducerName | ProducerAddress
    | HeaderAllCaps | HeaderBold | CountryOfOrigin | ClassType | SulfiteDeclaration
    | ExtractionQuality
    | Compared(field: Comparison.Field)
  {
    /** The `field` key written to the issue dictionary. */
    function Key(): string {
      match this
      case WarningPresent => "government_warning_present"
      case WarningText => "government_warning_text"
      case AlcoholByVolume => "alcohol_by_volume"
      case NetContents => "net_contents"
      case ProducerName => "producer_name"
      case ProducerAddress => "producer_address"
      case HeaderAllCaps => "government_warning_header_all_caps"
      case HeaderBold => "government_warning_header_bold"
      case CountryOfOrigin => "country_of_origin"
      case ClassType => "class_type_designation"
      case SulfiteDeclaration => "sulfite_declaration_present"
      case ExtractionQuality => "_extraction_quality"
      case Compared(f) => f.Name()
    }
  }

  datatype Issue = Issue(subject: Subject, severity: Severity, message: Message, issueType: IssueType)

  /** The dictionary `check_compliance` returns; `comparison` is the key that
      is only written when an application row was given. */
  datatype ComplianceResult = ComplianceResult(
    passed: bool,
    issues: seq<Issue>,
    comparison: Option<Comparison.ComparisonResult>)

  const LowConfidenceNullThreshold: nat := 6
  const MinRawTextLength: nat := 20

  /** The phrase the quality-note test looks for in earlier messages. */
  const LowConfidencePhrase: string := "low confidence"

  /** Appended to the three critical presence messages of a low-confidence extraction. */
  const LowConfidenceSuffix: string :=
    " (" + LowConfidencePhrase + " extraction -- manual review recommended)"

  // ---------------------------------------------------------------------
  // Extraction quality
  // ---------------------------------------------------------------------

  /** For each key of `MAIN_FIELDS`, in its order, whether the extraction left it null. */
  function MainFieldsNull(d: LabelData): (r: seq<bool>)
    ensures |r| == 10
  {
    [ d.brandName.None?, d.productType.None?, d.alcoholByVolume.None?, d.netContents.None?,
      d.countryOfOrigin.None?, d.warningPresent.None?, d.warningText.None?,
      d.classType.None?, d.producerName.None?, d.producerAddress.None? ]
  }

  function CountTrue(bs: seq<bool>): (n: nat)
    ensures n <= |bs|
    ensures n == 0 <==> forall i :: 0 <= i < |bs| ==> !bs[i]
    ensures n == |bs| <==> forall i :: 0 <= i < |bs| ==> bs[i]
  {
    if bs == [] then 0
    else (if bs[0] then 1 else 0) + CountTrue(bs[1..])
  }

  /** How many of the ten main fields are null. */
  function NullCount(d: LabelData): (n: nat)
    ensures n <= 10
    ensures n == 10 <==> forall i :: 0 <= i < 10 ==> MainFieldsNull(d)[i]
  {
    CountTrue(MainFieldsNull(d))
  }

  /** `_is_low_confidence`: the raw text is missing, empty or shorter than
      20 characters, or at least 6 of the main fields are null. With every
      main field null the extraction is low-confidence whatever its raw text. */
  function IsLowConfidence(d: LabelData): (r: bool)
    ensures (forall i :: 0 <= i < 10 ==> MainFieldsNull(d)[i]) ==> r
  {
    || d.rawText.None?
    || |d.rawText.value| < MinRawTextLength
    || NullCount(d) >= LowConfidenceNullThreshold
  }

  /** `_severity`: a critical finding becomes `needs_review` on a
      low-confidence extraction; everything else is kept. */
  function Downgrade(intended: Severity, lowConfidence: bool): (s: Severity)
    ensures s == Critical <==> intended == Critical && !lowConfidence
    ensures s == NeedsReview <==> intended == NeedsReview || (intended == Critical && lowConfidence)
    ensures s == Info <==> intended == Info
  {
    if intended == Critical && lowConfidence then NeedsReview else intended
  }

  /** `_normalize`: strip, straighten quotes and dashes, collapse whitespace
      runs to one space, uppercase. */
  function Normalize(s: string): (r: string)
    ensures r == Straighten(Comparison.WarningForm(s))
  {
    NormalizeCommutes(s);
    Upper(CollapseSpaces(Straighten(Strip(s))))
  }

  lemma StraightenUpperChar(c: char)
    ensures StraightenChar(UpperChar(c)) == UpperChar(StraightenChar(c))
  {
    if IsLower(c) {
      var u := UpperChar(c);
      assert 'A' <= u <= 'Z';
      assert StraightenChar(u) == u;
    } else {
      var t := StraightenChar(c);
      assert t == c || t == '\'' || t == '"' || t == '-';
    }
  }

  lemma StraightenUpperFacts()
    ensures KeepsSpaces(StraightenChar) && KeepsSpaces(UpperChar)
    ensures forall c :: StraightenChar(UpperChar(c)) == UpperChar(StraightenChar(c))
  {
    forall c ensures IsSpace(c) ==> StraightenChar(c) == c {}
    forall c ensures StraightenChar(UpperChar(c)) == UpperChar(StraightenChar(c)) {
      StraightenUpperChar(c);
    }
  }

  /** The steps of `_normalize` give the comparison's warning form (strip,
      collapse, uppercase) with quotes and dashes straightened as well. */
  lemma NormalizeCommutes(s: string)
    ensures Upper(CollapseSpaces(Straighten(Strip(s)))) == Straighten(Comparison.WarningForm(s))
  {
    StraightenUpperFacts();
    MapStrip(StraightenChar, Upper(s));
    MapCollapse(StraightenChar, Strip(Upper(s)));
    MapCharsCommute(StraightenChar, UpperChar, s);
    MapStrip(StraightenChar, s);
    MapStrip(UpperChar, Straighten(s));
    MapCollapse(UpperChar, Strip(Straighten(s)));
  }

  /** Texts the comparison treats as the same warning are the same for `_normalize` too. */
  lemma SameWarningFormSameNormal(a: string, b: string)
    requires Comparison.WarningForm(a) == Comparison.WarningForm(b)
    ensures Normalize(a) == Normalize(b)
  {
  }

  // ---------------------------------------------------------------------
  // The presence checks, in the order the engine runs them
  // ---------------------------------------------------------------------

  /** The text of an issue: one of the fixed messages of the presence checks
      (the three critical ones end in the low-confidence suffix when it
      applies), the quality note, or the message a comparison entry carries. */
  datatype Message =
    | WarningNotDetected(lowConfidence: bool)
    | WarningTextDiffers
    | WarningTextUnreadable
    | AbvNotDetected(lowConfidence: bool)
    | NetContentsNotDetected(lowConfidence: bool)
    | ProducerNameNotDetected
    | ProducerAddressNotDetected
    | HeaderMayNotBeAllCaps
    | HeaderCapsUnknown
    | HeaderBoldUnconfirmed
    | CountryNotDetected
    | ClassTypeNotDetected
    | SulfiteNotDetected
    | LowConfidenceExtraction
    | Relayed(text: string)
  {
    function Text(): string {
      match this
      case WarningNotDetected(low) => "Government warning not detected on label" + LowConfidenceNote(low)
      case WarningTextDiffers =>
        "Warning text does not exactly match the required federal text -- verify manually"
      case WarningTextUnreadable => "Warning detected but text could not be extracted -- verify manually"
      case AbvNotDetected(low) => "Alcohol content (ABV) not detected" + LowConfidenceNote(low)
      case NetContentsNotDetected(low) => "Net contents not detected" + LowConfidenceNote(low)
      case ProducerNameNotDetected => "Bottler/producer name not detected"
      case ProducerAddressNotDetected => "Bottler/producer address not detected"
      case HeaderMayNotBeAllCaps => "'GOVERNMENT WARNING:' header may not be in all caps -- verify formatting"
      case HeaderCapsUnknown => "Could not determine if warning header is in all caps"
      case HeaderBoldUnconfirmed => "Could not confirm warning header is bold -- verify formatting"
      case CountryNotDetected => "Country of origin not detected -- required for imports"
      case ClassTypeNotDetected => "Class/type designation not detected"
      case SulfiteNotDetected => "Sulfite declaration not detected -- verify if required for this product type"
      case LowConfidenceExtraction =>
        "Low confidence extraction -- could not read label clearly. Manual review recommended."
      case Relayed(text) => text
    }
  }

  function LowConfidenceNote(lowConfidence: bool): string {
    if lowConfidence then LowConfidenceSuffix else ""
  }

  // ---------------------------------------------------------------------
  // The presence checks, in the order the engine runs them
  // ---------------------------------------------------------------------

  /** The warning statement must be detected. */
  function WarningPresenceCheck(d: LabelData, lowConfidence: bool): (r: seq<Issue>)
    ensures forall i :: 0 <= i < |r| ==> r[i].subject == WarningPresent
  {
    if IsTrue(d.warningPresent) then []
    else [Issue(WarningPresent, Downgrade(Critical, lowConfidence), WarningNotDetected(lowConfidence), Presence)]
  }

  /** A detected warning must carry the statutory text `canonical`, up to `Normalize`. */
  function WarningTextCheck(d: LabelData, canonical: string): (r: seq<Issue>)
    ensures forall i :: 0 <= i < |r| ==> r[i].subject == WarningText
  {
    if IsTrue(d.warningPresent) && Given(d.warningText) then
      if Normalize(d.warningText.value) == Normalize(canonical) then []
      else [Issue(WarningText, NeedsReview, WarningTextDiffers, Presence)]
    else if IsTrue(d.warningPresent) then
      [Issue(WarningText, NeedsReview, WarningTextUnreadable, Presence)]
    else []
  }

  /** ABV and net contents: missing is critical, subject to the downgrade. */
  function RequiredCheck(subject: Subject, value: Option<string>, missing: Message, lowConfidence: bool): (r: seq<Issue>)
    ensures forall i :: 0 <= i < |r| ==> r[i].subject == subject
  {
    if Given(value) then [] else [Issue(subject, Downgrade(Critical, lowConfidence), missing, Presence)]
  }

  /** Producer name and address: missing needs review. */
  function ReviewCheck(subject: Subject, value: Option<string>, missing: Message): seq<Issue> {
    if Given(value) then [] else [Issue(subject, NeedsReview, missing, Presence)]
  }

  /** Informational: the flag or value is missing or falsy. */
  function InfoCheck(subject: Subject, present: bool, missing: Message): seq<Issue> {
    if present then [] else [Issue(subject, Info, missing, Presence)]
  }

  /** The header checks only run when the warning was detected. */
  function HeaderCapsCheck(d: LabelData): seq<Issue> {
    if !IsTrue(d.warningPresent) then []
    else if d.headerAllCaps == Some(false) then [Issue(HeaderAllCaps, Info, HeaderMayNotBeAllCaps, Presence)]
    else if d.headerAllCaps.None? then [Issue(HeaderAllCaps, Info, HeaderCapsUnknown, Presence)]
    else []
  }

  function HeaderBoldCheck(d: LabelData): seq<Issue> {
    if IsTrue(d.warningPresent) && d.headerBold != Some(true) then
      [Issue(HeaderBold, Info, HeaderBoldUnconfirmed, Presence)]
    else []
  }

  /** The checks after the net contents: two review checks and the
      informational ones. None of them is ever critical. */
  function LaterChecks(d: LabelData): (r: seq<Issue>)
    ensures forall i :: 0 <= i < |r| ==> r[i].severity != Critical
    ensures forall i :: 0 <= i < |r| ==> r[i].subject in LaterSubjects
  {
    ReviewCheck(ProducerName, d.producerName, ProducerNameNotDetected)
    + ReviewCheck(ProducerAddress, d.producerAddress, ProducerAddressNotDetected)
    + HeaderCapsCheck(d)
    + HeaderBoldCheck(d)
    + InfoCheck(CountryOfOrigin, Given(d.countryOfOrigin), CountryNotDetected)
    + InfoCheck(ClassType, Given(d.classType), ClassTypeNotDetected)
    + InfoCheck(SulfiteDeclaration, IsTrue(d.sulfitePresent), SulfiteNotDetected)
  }

  const LaterSubjects: set<Subject> :=
    {ProducerName, ProducerAddress, HeaderAllCaps, HeaderBold, CountryOfOrigin, ClassType, SulfiteDeclaration}

  /** Every presence issue, in the order the checks append them. */
  function PresenceIssues(d: LabelData, lowConfidence: bool, canonical: string): seq<Issue> {
    WarningPresenceCheck(d, lowConfidence)
    + WarningTextCheck(d, canonical)
    + RequiredCheck(AlcoholByVolume, d.alcoholByVolume, AbvNotDetected(lowConfidence), lowConfidence)
    + RequiredCheck(NetContents, d.netContents, NetContentsNotDetected(lowConfidence), lowConfidence)
    + ReviewCheck(ProducerName, d.producerName, ProducerNameNotDetected)
    + ReviewCheck(ProducerAddress, d.producerAddress, ProducerAddressNotDetected)
    + HeaderCapsCheck(d)
    + HeaderBoldCheck(d)
    + InfoCheck(CountryOfOrigin, Given(d.countryOfOrigin), CountryNotDetected)
    + InfoCheck(ClassType, Given(d.classType), ClassTypeNotDetected)
    + InfoCheck(SulfiteDeclaration, IsTrue(d.sulfitePresent), SulfiteNotDetected)
  }

  /** The presence issues as the four checks that can be critical or concern
      the warning text, followed by the later ones. */
  lemma PresenceSplit(d: LabelData, lowConfidence: bool, canonical: string)
    ensures PresenceIssues(d, lowConfidence, canonical) ==
      WarningPresenceCheck(d, lowConfidence)
      + WarningTextCheck(d, canonical)
      + RequiredCheck(AlcoholByVolume, d.alcoholByVolume, AbvNotDetected(lowConfidence), lowConfidence)
      + RequiredCheck(NetContents, d.netContents, NetContentsNotDetected(lowConfidence), lowConfidence)
      + LaterChecks(d)
  {
    var core :=
      WarningPresenceCheck(d, lowConfidence)
      + WarningTextCheck(d, canonical)
      + RequiredCheck(AlcoholByVolume, d.alcoholByVolume, AbvNotDetected(lowConfidence), lowConfidence)
      + RequiredCheck(NetContents, d.netContents, NetContentsNotDetected(lowConfidence), lowConfidence);
    var a := ReviewCheck(ProducerName, d.producerName, ProducerNameNotDetected);
    var b := ReviewCheck(ProducerAddress, d.producerAddress, ProducerAddressNotDetected);
    var c := HeaderCapsCheck(d);
    var e := HeaderBoldCheck(d);
    var f := InfoCheck(CountryOfOrigin, Given(d.countryOfOrigin), CountryNotDetected);
    var g := InfoCheck(ClassType, Given(d.classType), ClassTypeNotDetected);
    var h := InfoCheck(SulfiteDeclaration, IsTrue(d.sulfitePresent), SulfiteNotDetected);
    assert core + a + b == core + (a + b);
    assert core + (a + b) + c == core + (a + b + c);
    assert core + (a + b + c) + e == core + (a + b + c + e);
    assert core + (a + b + c + e) + f == core + (a + b + c + e + f);
    assert core + (a + b + c + e + f) + g == core + (a + b + c + e + f + g);
    assert core + (a + b + c + e + f + g) + h == core + (a + b + c + e + f + g + h);
  }

  /** `"low confidence" in issue["message"]`. */
  predicate SaysLowConfidence(issue: Issue) {
    Contains(issue.message.Text(), LowConfidencePhrase)
  }

  /** Some message already mentions low confidence. */
  predicate MentionsLowConfidence(issues: seq<Issue>) {
    exists i :: 0 <= i < |issues| && SaysLowConfidence(issues[i])
  }

  const QualityNote: Issue :=
    Issue(ExtractionQuality, NeedsReview, LowConfidenceExtraction, Presence)

  /** The quality note goes first, once, when nothing already says low confidence. */
  function WithQualityNote(issues: seq<Issue>, lowConfidence: bool): seq<Issue> {
    if lowConfidence && !MentionsLowConfidence(issues) then [QualityNote] + issues else issues
  }

  // ---------------------------------------------------------------------
  // Comparison statuses as issues
  // ---------------------------------------------------------------------

  /** `_CRITICAL_COMPARISON_FIELDS`, tested on the result's field key. */
  predicate IsCriticalComparisonField(f: Comparison.Field) {
    f.Name() in {"brand_name", "alcohol_content", "net_contents"}
  }

  /** A mismatch or a missing value on a critical field. */
  predicate IsCriticalMiss(fr: Comparison.FieldResult) {
    (fr.status == Comparison.Mismatch || fr.status == Comparison.NotFound)
    && IsCriticalComparisonField(fr.field)
  }

  /** The issue one comparison entry raises: none for a match. */
  function ComparisonIssue(fr: Comparison.FieldResult, lowConfidence: bool): (r: seq<Issue>)
    ensures |r| <= 1
    ensures r == [] <==> fr.status == Comparison.Match
    ensures r != [] ==>
      && r[0].subject == Compared(fr.field)
      && r[0].message == Relayed(fr.message)
      && r[0].issueType == FieldComparison
      && r[0].severity != Info
      && (r[0].severity == Critical <==> IsCriticalMiss(fr) && !lowConfidence)
  {
    match fr.status
    case Mismatch | NotFound =>
      var intended := if IsCriticalComparisonField(fr.field) then Critical else NeedsReview;
      [Issue(Compared(fr.field), Downgrade(intended, lowConfidence), Relayed(fr.message), FieldComparison)]
    case Partial | NeedsReview =>
      [Issue(Compared(fr.field), NeedsReview, Relayed(fr.message), FieldComparison)]
    case Match => []
  }

  /** The issues of a list of comparison entries, in order. */
  function ComparisonIssues(fields: seq<Comparison.FieldResult>, lowConfidence: bool): (r: seq<Issue>)
    ensures |r| <= |fields|
    ensures forall i :: 0 <= i < |r| ==> r[i].subject.Compared? && r[i].issueType == FieldComparison
  {
    if fields == [] then []
    else ComparisonIssues(fields[..|fields| - 1], lowConfidence) + ComparisonIssue(fields[|fields| - 1], lowConfidence)
  }

  // ---------------------------------------------------------------------
  // The whole check
  // ---------------------------------------------------------------------

  /** `passed`: no issue is critical. */
  predicate Passed(issues: seq<Issue>) {
    forall i :: 0 <= i < |issues| ==> issues[i].severity != Critical
  }

  /** The comparison run when an application row is given. */
  function ComparisonFor(d: LabelData, row: Option<ApplicationRow>, parsers: Comparison.Parsers, canonical: string)
    : (c: Option<Comparison.ComparisonResult>)
    ensures c.Some? <==> row.Some?
  {
    if row.Some? then Some(Comparison.CompareFields(d, row.value, parsers, canonical)) else None
  }

  /** The issue list of `check_compliance`, given the comparison it ran. */
  function AllIssues(d: LabelData, comparison: Option<Comparison.ComparisonResult>, canonical: string): seq<Issue> {
    var lowConfidence := IsLowConfidence(d);
    WithQualityNote(PresenceIssues(d, lowConfidence, canonical), lowConfidence)
    + (if comparison.Some? then ComparisonIssues(comparison.value.fields, lowConfidence) else [])
  }

  /** `check_compliance` as one expression, given the comparison it ran. */
  function Evaluate(d: LabelData, comparison: Option<Comparison.ComparisonResult>, canonical: string)
    : ComplianceResult
  {
    var issues := AllIssues(d, comparison, canonical);
    ComplianceResult(Passed(issues), issues, comparison)
  }

  /** `any("low confidence" in i["message"] for i in issues)`. */
  method ScanForLowConfidence(issues: seq<Issue>) returns (mentioned: bool)
    ensures mentioned <==> MentionsLowConfidence(issues)
  {
    mentioned := AnyIssue(SaysLowConfidence, issues);
  }

  /** Python's short-circuiting `any(p(i) for i in issues)`. */
  method AnyIssue(p: Issue -> bool, issues: seq<Issue>) returns (found: bool)
    ensures found <==> exists k :: 0 <= k < |issues| && p(issues[k])
  {
    var i := 0;
    while i < |issues|
      invariant 0 <= i <= |issues|
      invariant forall k :: 0 <= k < i ==> !p(issues[k])
    {
      if p(issues[i]) {
        return true;
      }
      i := i + 1;
    }
    return false;
  }

  /** The loop over the comparison entries: each appends its issue. */
  method AppendComparisonIssues(issues: seq<Issue>, fields: seq<Comparison.FieldResult>, lowConfidence: bool)
    returns (r: seq<Issue>)
    ensures r == issues + ComparisonIssues(fields, lowConfidence)
  {
    r := issues;
    var j := 0;
    while j < |fields|
      invariant 0 <= j <= |fields|
      invariant r == issues + ComparisonIssues(fields[..j], lowConfidence)
    {
      AppendedPrefix(issues, fields, lowConfidence, j, r);
      r := r + ComparisonIssue(fields[j], lowConfidence);
      j := j + 1;
    }
    assert fields[..j] == fields;
  }

  /** One more entry extends the issues appended so far by its own issue. */
  lemma AppendedPrefix(issues: seq<Issue>, fields: seq<Comparison.FieldResult>, lowConfidence: bool, j: nat, r: seq<Issue>)
    requires j < |fields|
    requires r == issues + ComparisonIssues(fields[..j], lowConfidence)
    ensures r + ComparisonIssue(fields[j], lowConfidence) == issues + ComparisonIssues(fields[..j + 1], lowConfidence)
  {
    ComparisonIssuesPrefix(fields, lowConfidence, j);
    SeqAssoc(issues, ComparisonIssues(fields[..j], lowConfidence), ComparisonIssue(fields[j], lowConfidence));
  }

  lemma ComparisonIssuesPrefix(fields: seq<Comparison.FieldResult>, lowConfidence: bool, j: nat)
    requires j < |fields|
    ensures ComparisonIssues(fields[..j + 1], lowConfidence) ==
      ComparisonIssues(fields[..j], lowConfidence) + ComparisonIssue(fields[j], lowConfidence)
  {
    assert fields[..j + 1][..j] == fields[..j];
  }

  lemma SeqAssoc(a: seq<Issue>, b: seq<Issue>, c: seq<Issue>)
    ensures (a + b) + c == a + (b + c)
  {
  }

  /** `not any(i["severity"] == "critical" for i in issues)`. */
  method ScanPassed(issues: seq<Issue>) returns (passed: bool)
    ensures passed <==> Passed(issues)
  {
    passed := true;
    var k := 0;
    while k < |issues|
      invariant 0 <= k <= |issues|
      invariant passed <==> forall m :: 0 <= m < k ==> issues[m].severity != Critical
    {
      if issues[k].severity == Critical {
        passed := false;
      }
      k := k + 1;
    }
  }

  /** The presence checks of `check_compliance`, each appending its issue
      when it finds one. */
  method CollectPresenceIssues(d: LabelData, lowConfidence: bool, canonical: string) returns (issues: seq<Issue>)
    ensures issues == PresenceIssues(d, lowConfidence, canonical)
  {
    issues := [];
    issues := issues + WarningPresenceCheck(d, lowConfidence);
    issues := issues + WarningTextCheck(d, canonical);
    issues := issues + RequiredCheck(AlcoholByVolume, d.alcoholByVolume, AbvNotDetected(lowConfidence), lowConfidence);
    issues := issues + RequiredCheck(NetContents, d.netContents, NetContentsNotDetected(lowConfidence), lowConfidence);
    issues := issues + ReviewCheck(ProducerName, d.producerName, ProducerNameNotDetected);
    issues := issues + ReviewCheck(ProducerAddress, d.producerAddress, ProducerAddressNotDetected);
    issues := issues + HeaderCapsCheck(d);
    issues := issues + HeaderBoldCheck(d);
    issues := issues + InfoCheck(CountryOfOrigin, Given(d.countryOfOrigin), CountryNotDetected);
    issues := issues + InfoCheck(ClassType, Given(d.classType), ClassTypeNotDetected);
    issues := issues + InfoCheck(SulfiteDeclaration, IsTrue(d.sulfitePresent), SulfiteNotDetected);
  }

  /** `check_compliance`: the presence checks append their issues, the
      quality note is put in front when called for, each comparison entry
      appends its issue, and the verdict is a scan for a critical issue. */
  method CheckCompliance(d: LabelData, row: Option<ApplicationRow>, parsers: Comparison.Parsers, canonical: string)
    returns (r: ComplianceResult)
    ensures r == Evaluate(d, ComparisonFor(d, row, parsers, canonical), canonical)
    ensures r.comparison.Some? <==> row.Some?
  {
    var lowConfidence := IsLowConfidence(d);
    var issues := CollectPresenceIssues(d, lowConfidence, canonical);
    ghost var presence := issues;
    if lowConfidence {
      var mentioned := ScanForLowConfidence(issues);
      if !mentioned {
        issues := [QualityNote] + issues;
      }
    }
    assert issues == WithQualityNote(presence, lowConfidence);
    ghost var noted := issues;

    var comparison: Option<Comparison.ComparisonResult> := None;
    if row.Some? {
      var c := Comparison.CompareFields(d, row.value, parsers, canonical);
      comparison := Some(c);
      issues := AppendComparisonIssues(issues, c.fields, lowConfidence);
    }
    assert comparison == ComparisonFor(d, row, parsers, canonical);
    assert issues == noted + (if comparison.Some? then ComparisonIssues(comparison.value.fields, lowConfidence) else []);

    var passed := ScanPassed(issues);
    r := ComplianceResult(passed, issues, comparison);
  }

  // ---------------------------------------------------------------------
  // The verdict
  // ---------------------------------------------------------------------

  /** Some comparison entry is a mismatch or a missing value on a critical field. */
  predicate HasCriticalMiss(fields: seq<Comparison.FieldResult>) {
    exists j :: 0 <= j < |fields| && IsCriticalMiss(fields[j])
  }

  lemma PassedAppend(a: seq<Issue>, b: seq<Issue>)
    ensures Passed(a + b) <==> Passed(a) && Passed(b)
  {
    assert forall i :: 0 <= i < |a| ==> (a + b)[i] == a[i];
    assert forall i :: 0 <= i < |b| ==> (a + b)[|a| + i] == b[i];
  }

  lemma PassedSingle(x: Issue)
    ensures Passed([x]) <==> x.severity != Critical
  {
    assert [x][0] == x;
  }

  lemma CheckPassed(xs: seq<Issue>, x: Issue)
    requires xs == [] || xs == [x]
    ensures Passed(xs) <==> xs == [] || x.severity != Critical
  {
    if xs != [] {
      PassedSingle(x);
    }
  }

  /** Only the missing warning, ABV and net contents are critical among the
      presence checks, and only when the extraction is trusted. */
  lemma PresencePassed(d: LabelData, lowConfidence: bool, canonical: string)
    ensures Passed(PresenceIssues(d, lowConfidence, canonical)) <==>
      lowConfidence || (IsTrue(d.warningPresent) && Given(d.alcoholByVolume) && Given(d.netContents))
  {
    var w := WarningPresenceCheck(d, lowConfidence);
    var t := WarningTextCheck(d, canonical);
    var abv := RequiredCheck(AlcoholByVolume, d.alcoholByVolume, AbvNotDetected(lowConfidence), lowConfidence);
    var net := RequiredCheck(NetContents, d.netContents, NetContentsNotDetected(lowConfidence), lowConfidence);
    var rest := LaterChecks(d);
    PresenceSplit(d, lowConfidence, canonical);
    CheckPassed(w, Issue(WarningPresent, Downgrade(Critical, lowConfidence), WarningNotDetected(lowConfidence), Presence));
    assert Passed(t);
    CheckPassed(abv, Issue(AlcoholByVolume, Downgrade(Critical, lowConfidence), AbvNotDetected(lowConfidence), Presence));
    CheckPassed(net, Issue(NetContents, Downgrade(Critical, lowConfidence), NetContentsNotDetected(lowConfidence), Presence));
    PassedAppend(w, t);
    PassedAppend(w + t, abv);
    PassedAppend(w + t + abv, net);
    PassedAppend(w + t + abv + net, rest);
  }

  lemma ComparisonIssuePassed(fr: Comparison.FieldResult, lowConfidence: bool)
    ensures Passed(ComparisonIssue(fr, lowConfidence)) <==> lowConfidence || !IsCriticalMiss(fr)
  {
    var r := ComparisonIssue(fr, lowConfidence);
    if r != [] {
      PassedSingle(r[0]);
      assert r == [r[0]];
    }
  }

  lemma HasCriticalMissSnoc(fields: seq<Comparison.FieldResult>)
    requires fields != []
    ensures HasCriticalMiss(fields) <==>
      HasCriticalMiss(fields[..|fields| - 1]) || IsCriticalMiss(fields[|fields| - 1])
  {
    var init := fields[..|fields| - 1];
    if HasCriticalMiss(init) {
      var j :| 0 <= j < |init| && IsCriticalMiss(init[j]);
      assert fields[j] == init[j];
    }
    if HasCriticalMiss(fields) {
      var j :| 0 <= j < |fields| && IsCriticalMiss(fields[j]);
      if j < |init| {
        assert init[j] == fields[j];
      }
    }
  }

  /** A comparison issue is critical exactly for a critical miss on a trusted extraction. */
  lemma {:induction false} ComparisonPassed(fields: seq<Comparison.FieldResult>, lowConfidence: bool)
    ensures Passed(ComparisonIssues(fields, lowConfidence)) <==> lowConfidence || !HasCriticalMiss(fields)
  {
    if fields != [] {
      var init := fields[..|fields| - 1];
      var last := fields[|fields| - 1];
      ComparisonPassed(init, lowConfidence);
      ComparisonIssuePassed(last, lowConfidence);
      PassedAppend(ComparisonIssues(init, lowConfidence), ComparisonIssue(last, lowConfidence));
      HasCriticalMissSnoc(fields);
    }
  }

  /** The verdict as a decision table: a label passes exactly when the
      extraction is low-confidence, or the warning, the ABV and the net
      contents were all detected and no comparison entry is a mismatch or a
      missing value on the brand name, the alcohol content or the net
      contents. In particular a low-confidence extraction always passes, and
      neither the review checks nor the informational checks ever fail a label. */
  lemma PassedIff(d: LabelData, comparison: Option<Comparison.ComparisonResult>, canonical: string)
    ensures Evaluate(d, comparison, canonical).passed <==>
      || IsLowConfidence(d)
      || (&& IsTrue(d.warningPresent) && Given(d.alcoholByVolume) && Given(d.netContents)
          && (comparison.None? || !HasCriticalMiss(comparison.value.fields)))
  {
    var lowConfidence := IsLowConfidence(d);
    var presence := PresenceIssues(d, lowConfidence, canonical);
    var compared := if comparison.Some? then ComparisonIssues(comparison.value.fields, lowConfidence) else [];
    PresencePassed(d, lowConfidence, canonical);
    if lowConfidence && !MentionsLowConfidence(presence) {
      PassedAppend([QualityNote], presence);
    }
    PassedAppend(WithQualityNote(presence, lowConfidence), compared);
    if comparison.Some? {
      ComparisonPassed(comparison.value.fields, lowConfidence);
    }
  }

  // ---------------------------------------------------------------------
  // The issues about one subject
  // ---------------------------------------------------------------------

  /** The issues about subject `s`, in order. */
  function IssuesFor(issues: seq<Issue>, s: Subject): (r: seq<Issue>)
    ensures |r| <= |issues|
    ensures forall i :: 0 <= i < |r| ==> r[i].subject == s
  {
    if issues == [] then []
    else (if issues[0].subject == s then [issues[0]] else []) + IssuesFor(issues[1..], s)
  }

  lemma {:induction false} IssuesForAppend(a: seq<Issue>, b: seq<Issue>, s: Subject)
    ensures IssuesFor(a + b, s) == IssuesFor(a, s) + IssuesFor(b, s)
  {
    if a == [] {
      assert a + b == b;
    } else {
      assert (a + b)[1..] == a[1..] + b;
      IssuesForAppend(a[1..], b, s);
    }
  }

  lemma IssuesForSingle(x: Issue, s: Subject)
    ensures IssuesFor([x], s) == if x.subject == s then [x] else []
  {
    assert [x][1..] == [];
  }

  lemma {:induction false} IssuesForAbsent(xs: seq<Issue>, s: Subject)
    requires forall i :: 0 <= i < |xs| ==> xs[i].subject != s
    ensures IssuesFor(xs, s) == []
  {
    if xs != [] {
      IssuesForAbsent(xs[1..], s);
    }
  }

  /** The comparison issues are about compared fields only. */
  lemma ComparedAbout(comparison: Option<Comparison.ComparisonResult>, lowConfidence: bool, s: Subject)
    requires !s.Compared?
    ensures IssuesFor(if comparison.Some? then ComparisonIssues(comparison.value.fields, lowConfidence) else [], s) == []
  {
    IssuesForAbsent(if comparison.Some? then ComparisonIssues(comparison.value.fields, lowConfidence) else [], s);
  }

  /** The quality note adds an issue about the extraction quality and nothing else. */
  lemma NoteAbout(presence: seq<Issue>, lowConfidence: bool, s: Subject)
    requires s != ExtractionQuality
    ensures IssuesFor(WithQualityNote(presence, lowConfidence), s) == IssuesFor(presence, s)
  {
    if lowConfidence && !MentionsLowConfidence(presence) {
      IssuesForAppend([QualityNote], presence, s);
      IssuesForSingle(QualityNote, s);
    }
  }

  /** Issues about a presence subject come from the presence checks alone:
      the quality note and the comparison issues are about other subjects. */
  lemma EvaluateIssuesFor(d: LabelData, comparison: Option<Comparison.ComparisonResult>, canonical: string, s: Subject)
    requires !s.Compared? && s != ExtractionQuality
    ensures IssuesFor(AllIssues(d, comparison, canonical), s) ==
      IssuesFor(PresenceIssues(d, IsLowConfidence(d), canonical), s)
  {
    var lowConfidence := IsLowConfidence(d);
    var presence := PresenceIssues(d, lowConfidence, canonical);
    var compared := if comparison.Some? then ComparisonIssues(comparison.value.fields, lowConfidence) else [];
    NoteAbout(presence, lowConfidence, s);
    ComparedAbout(comparison, lowConfidence, s);
    IssuesForAppend(WithQualityNote(presence, lowConfidence), compared, s);
  }

  /** The presence issues about `s`, check by check. */
  lemma PresenceIssuesFor(d: LabelData, lowConfidence: bool, canonical: string, s: Subject)
    ensures IssuesFor(PresenceIssues(d, lowConfidence, canonical), s) ==
      IssuesFor(WarningPresenceCheck(d, lowConfidence), s)
      + IssuesFor(WarningTextCheck(d, canonical), s)
      + IssuesFor(RequiredCheck(AlcoholByVolume, d.alcoholByVolume, AbvNotDetected(lowConfidence), lowConfidence), s)
      + IssuesFor(RequiredCheck(NetContents, d.netContents, NetContentsNotDetected(lowConfidence), lowConfidence), s)
      + IssuesFor(LaterChecks(d), s)
  {
    var w := WarningPresenceCheck(d, lowConfidence);
    var t := WarningTextCheck(d, canonical);
    var abv := RequiredCheck(AlcoholByVolume, d.alcoholByVolume, AbvNotDetected(lowConfidence), lowConfidence);
    var net := RequiredCheck(NetContents, d.netContents, NetContentsNotDetected(lowConfidence), lowConfidence);
    PresenceSplit(d, lowConfidence, canonical);
    IssuesForAppend(w + t + abv + net, LaterChecks(d), s);
    IssuesForAppend(w + t + abv, net, s);
    IssuesForAppend(w + t, abv, s);
    IssuesForAppend(w, t, s);
  }

  /** A check that raises at most `x` contributes `x` to its own subject and nothing to another. */
  lemma CheckIssuesFor(xs: seq<Issue>, x: Issue, s: Subject)
    requires xs == [] || xs == [x]
    ensures IssuesFor(xs, s) == if xs != [] && x.subject == s then [x] else []
  {
    if xs != [] {
      IssuesForSingle(x, s);
    }
  }

  /** The checks other than the two required-field ones raise nothing about those fields. */
  lemma OtherChecksAbout(d: LabelData, lowConfidence: bool, canonical: string, s: Subject)
    requires s == AlcoholByVolume || s == NetContents
    ensures IssuesFor(WarningPresenceCheck(d, lowConfidence), s) == []
    ensures IssuesFor(WarningTextCheck(d, canonical), s) == []
    ensures IssuesFor(LaterChecks(d), s) == []
  {
    IssuesForAbsent(WarningPresenceCheck(d, lowConfidence), s);
    TextCheckAbout(d, canonical, s);
    LaterChecksAbout(d, s);
  }

  lemma TextCheckAbout(d: LabelData, canonical: string, s: Subject)
    requires s != WarningText
    ensures IssuesFor(WarningTextCheck(d, canonical), s) == []
  {
    IssuesForAbsent(WarningTextCheck(d, canonical), s);
  }

  lemma LaterChecksAbout(d: LabelData, s: Subject)
    requires s !in LaterSubjects
    ensures IssuesFor(LaterChecks(d), s) == []
  {
    IssuesForAbsent(LaterChecks(d), s);
  }

  lemma RequiredCheckAbout(subject: Subject, value: Option<string>, missing: Message, lowConfidence: bool, s: Subject)
    ensures IssuesFor(RequiredCheck(subject, value, missing, lowConfidence), s) ==
      if subject == s then RequiredCheck(subject, value, missing, lowConfidence) else []
  {
    var r := RequiredCheck(subject, value, missing, lowConfidence);
    if r != [] {
      IssuesForSingle(r[0], s);
    }
  }

  /** Among the presence issues, a required field raises its one issue
      exactly when it is missing. */
  lemma PresenceRequiredIssues(d: LabelData, lowConfidence: bool, canonical: string, s: Subject)
    requires s == AlcoholByVolume || s == NetContents
    ensures IssuesFor(PresenceIssues(d, lowConfidence, canonical), s) ==
      if s == AlcoholByVolume
      then RequiredCheck(AlcoholByVolume, d.alcoholByVolume, AbvNotDetected(lowConfidence), lowConfidence)
      else RequiredCheck(NetContents, d.netContents, NetContentsNotDetected(lowConfidence), lowConfidence)
  {
    var abv := RequiredCheck(AlcoholByVolume, d.alcoholByVolume, AbvNotDetected(lowConfidence), lowConfidence);
    var net := RequiredCheck(NetContents, d.netContents, NetContentsNotDetected(lowConfidence), lowConfidence);
    PresenceIssuesFor(d, lowConfidence, canonical, s);
    OtherChecksAbout(d, lowConfidence, canonical, s);
    RequiredCheckAbout(AlcoholByVolume, d.alcoholByVolume, AbvNotDetected(lowConfidence), lowConfidence, s);
    RequiredCheckAbout(NetContents, d.netContents, NetContentsNotDetected(lowConfidence), lowConfidence, s);
    if s == AlcoholByVolume {
      OnlyThird(abv);
    } else {
      OnlyFourth(net);
    }
  }

  lemma OnlyThird(x: seq<Issue>)
    ensures [] + [] + x + [] + [] == x
  {
  }

  lemma OnlyFourth(x: seq<Issue>)
    ensures [] + [] + [] + x + [] == x
  {
  }

  /** A missing ABV raises exactly one issue about the ABV, critical unless
      the extraction is low-confidence, and a detected ABV raises none;
      the same holds for the net contents. */
  lemma RequiredFieldIssues(d: LabelData, comparison: Option<Comparison.ComparisonResult>, canonical: string)
    ensures IssuesFor(Evaluate(d, comparison, canonical).issues, AlcoholByVolume) ==
      if Given(d.alcoholByVolume) then []
      else [Issue(AlcoholByVolume, Downgrade(Critical, IsLowConfidence(d)), AbvNotDetected(IsLowConfidence(d)), Presence)]
    ensures IssuesFor(Evaluate(d, comparison, canonical).issues, NetContents) ==
      if Given(d.netContents) then []
      else [Issue(NetContents, Downgrade(Critical, IsLowConfidence(d)), NetContentsNotDetected(IsLowConfidence(d)), Presence)]
  {
    var lowConfidence := IsLowConfidence(d);
    EvaluateIssuesFor(d, comparison, canonical, AlcoholByVolume);
    PresenceRequiredIssues(d, lowConfidence, canonical, AlcoholByVolume);
    EvaluateIssuesFor(d, comparison, canonical, NetContents);
    PresenceRequiredIssues(d, lowConfidence, canonical, NetContents);
  }

  lemma IssuesForAll(xs: seq<Issue>, s: Subject)
    requires forall i :: 0 <= i < |xs| ==> xs[i].subject == s
    ensures IssuesFor(xs, s) == xs
  {
    if xs != [] {
      IssuesForSingle(xs[0], s);
      if |xs| == 2 {
        IssuesForSingle(xs[1], s);
        assert xs[1..] == [xs[1]];
      }
    }
  }

  /** The checks other than the warning-text one raise nothing about the warning text. */
  lemma OtherChecksAboutText(d: LabelData, lowConfidence: bool)
    ensures IssuesFor(WarningPresenceCheck(d, lowConfidence), WarningText) == []
    ensures IssuesFor(RequiredCheck(AlcoholByVolume, d.alcoholByVolume, AbvNotDetected(lowConfidence), lowConfidence), WarningText) == []
    ensures IssuesFor(RequiredCheck(NetContents, d.netContents, NetContentsNotDetected(lowConfidence), lowConfidence), WarningText) == []
    ensures IssuesFor(LaterChecks(d), WarningText) == []
  {
    IssuesForAbsent(WarningPresenceCheck(d, lowConfidence), WarningText);
    IssuesForAbsent(RequiredCheck(AlcoholByVolume, d.alcoholByVolume, AbvNotDetected(lowConfidence), lowConfidence), WarningText);
    IssuesForAbsent(RequiredCheck(NetContents, d.netContents, NetContentsNotDetected(lowConfidence), lowConfidence), WarningText);
    IssuesForAbsent(LaterChecks(d), WarningText);
  }

  /** The issues about the warning text are those of the warning-text check. */
  lemma PresenceTextIssues(d: LabelData, lowConfidence: bool, canonical: string)
    ensures IssuesFor(PresenceIssues(d, lowConfidence, canonical), WarningText) == WarningTextCheck(d, canonical)
  {
    var t := WarningTextCheck(d, canonical);
    PresenceIssuesFor(d, lowConfidence, canonical, WarningText);
    OtherChecksAboutText(d, lowConfidence);
    IssuesForAll(t, WarningText);
    var e: seq<Issue> := [];
    assert e + t + e + e + e == t;
  }

  /** No warning-text issue when the warning is absent or its text matches
      the statutory text after `Normalize`; one review issue when the text
      differs or could not be read. */
  lemma WarningTextIssues(d: LabelData, comparison: Option<Comparison.ComparisonResult>, canonical: string)
    ensures !IsTrue(d.warningPresent) ==> IssuesFor(Evaluate(d, comparison, canonical).issues, WarningText) == []
    ensures IsTrue(d.warningPresent) && !Given(d.warningText) ==>
      IssuesFor(Evaluate(d, comparison, canonical).issues, WarningText) ==
      [Issue(WarningText, NeedsReview, WarningTextUnreadable, Presence)]
    ensures IsTrue(d.warningPresent) && Given(d.warningText) ==>
      IssuesFor(Evaluate(d, comparison, canonical).issues, WarningText) ==
      if Normalize(d.warningText.value) == Normalize(canonical) then []
      else [Issue(WarningText, NeedsReview, WarningTextDiffers, Presence)]
  {
    EvaluateIssuesFor(d, comparison, canonical, WarningText);
    PresenceTextIssues(d, IsLowConfidence(d), canonical);
  }

  // ---------------------------------------------------------------------
  // The quality note
  // ---------------------------------------------------------------------

  /** Every presence issue is about a presence subject. */
  predicate AboutPresence(issues: seq<Issue>) {
    forall i :: 0 <= i < |issues| ==> !issues[i].subject.Compared? && issues[i].subject != ExtractionQuality
  }

  lemma AboutPresenceAppend(a: seq<Issue>, b: seq<Issue>)
    requires AboutPresence(a) && AboutPresence(b)
    ensures AboutPresence(a + b)
  {
    assert forall i :: |a| <= i < |a + b| ==> (a + b)[i] == b[i - |a|];
  }

  lemma PresenceAboutPresence(d: LabelData, lowConfidence: bool, canonical: string)
    ensures AboutPresence(PresenceIssues(d, lowConfidence, canonical))
  {
    var w := WarningPresenceCheck(d, lowConfidence);
    var t := WarningTextCheck(d, canonical);
    var abv := RequiredCheck(AlcoholByVolume, d.alcoholByVolume, AbvNotDetected(lowConfidence), lowConfidence);
    var net := RequiredCheck(NetContents, d.netContents, NetContentsNotDetected(lowConfidence), lowConfidence);
    PresenceSplit(d, lowConfidence, canonical);
    CoreAboutPresence(w, t, abv, net);
    LaterAboutPresence(d);
    AboutPresenceAppend(w + t + abv + net, LaterChecks(d));
  }

  lemma CoreAboutPresence(w: seq<Issue>, t: seq<Issue>, abv: seq<Issue>, net: seq<Issue>)
    requires forall i :: 0 <= i < |w| ==> w[i].subject == WarningPresent
    requires forall i :: 0 <= i < |t| ==> t[i].subject == WarningText
    requires forall i :: 0 <= i < |abv| ==> abv[i].subject == AlcoholByVolume
    requires forall i :: 0 <= i < |net| ==> net[i].subject == NetContents
    ensures AboutPresence(w + t + abv + net)
  {
    AboutPresenceAppend(w, t);
    AboutPresenceAppend(w + t, abv);
    AboutPresenceAppend(w + t + abv, net);
  }

  lemma LaterAboutPresence(d: LabelData)
    ensures AboutPresence(LaterChecks(d))
  {
    var r := LaterChecks(d);
    forall i | 0 <= i < |r|
      ensures !r[i].subject.Compared? && r[i].subject != ExtractionQuality
    {
      assert r[i].subject in LaterSubjects;
    }
  }

  /** The quality note opens the list exactly when the extraction is
      low-confidence and no presence message already says so, and it never
      appears twice. */
  lemma QualityNotePlacement(d: LabelData, comparison: Option<Comparison.ComparisonResult>, canonical: string)
    ensures (|Evaluate(d, comparison, canonical).issues| > 0 && Evaluate(d, comparison, canonical).issues[0] == QualityNote)
      <==> IsLowConfidence(d) && !MentionsLowConfidence(PresenceIssues(d, IsLowConfidence(d), canonical))
    ensures |IssuesFor(Evaluate(d, comparison, canonical).issues, ExtractionQuality)| <= 1
  {
    var lowConfidence := IsLowConfidence(d);
    var presence := PresenceIssues(d, lowConfidence, canonical);
    var compared := if comparison.Some? then ComparisonIssues(comparison.value.fields, lowConfidence) else [];
    assert WithQualityNote(presence, lowConfidence) + compared == Evaluate(d, comparison, canonical).issues;
    PresenceAboutPresence(d, lowConfidence, canonical);
    NoteFirst(presence, compared, lowConfidence);
    NoteOnce(presence, compared, lowConfidence);
  }

  lemma NoteFirst(presence: seq<Issue>, compared: seq<Issue>, lowConfidence: bool)
    requires AboutPresence(presence)
    requires forall i :: 0 <= i < |compared| ==> compared[i].subject.Compared?
    ensures var issues := WithQualityNote(presence, lowConfidence) + compared;
      (|issues| > 0 && issues[0] == QualityNote) <==> lowConfidence && !MentionsLowConfidence(presence)
  {
    var issues := WithQualityNote(presence, lowConfidence) + compared;
    if !(lowConfidence && !MentionsLowConfidence(presence)) && |issues| > 0 {
      if |presence| > 0 {
        assert issues[0] == presence[0];
      } else {
        assert issues[0] == compared[0];
      }
    }
  }

  lemma NoteOnce(presence: seq<Issue>, compared: seq<Issue>, lowConfidence: bool)
    requires AboutPresence(presence)
    requires forall i :: 0 <= i < |compared| ==> compared[i].subject.Compared?
    ensures |IssuesFor(WithQualityNote(presence, lowConfidence) + compared, ExtractionQuality)| <= 1
  {
    var noted := WithQualityNote(presence, lowConfidence);
    IssuesForAbsent(presence, ExtractionQuality);
    IssuesForAbsent(compared, ExtractionQuality);
    IssuesForAppend(noted, compared, ExtractionQuality);
    if lowConfidence && !MentionsLowConfidence(presence) {
      IssuesForAppend([QualityNote], presence, ExtractionQuality);
      IssuesForSingle(QualityNote, ExtractionQuality);
    }
  }

  lemma ContainsMiddle(a: string, n: string, b: string)
    ensures Contains(a + n + b, n)
  {
    ContainsSelf(n);
    ContainsBefore(n, b, n);
    ContainsAfter(a, n + b, n);
    assert a + (n + b) == a + n + b;
  }

  /** Each message carrying the low-confidence suffix says "low confidence". */
  lemma SuffixSaysLowConfidence(prefix: string)
    ensures Contains(prefix + LowConfidenceNote(true), LowConfidencePhrase)
  {
    var tail := " extraction -- manual review recommended)";
    ContainsMiddle(" (", LowConfidencePhrase, tail);
    assert LowConfidenceNote(true) == " (" + LowConfidencePhrase + tail;
    ContainsAfter(prefix, LowConfidenceNote(true), LowConfidencePhrase);
  }

  lemma MentionsAppend(a: seq<Issue>, b: seq<Issue>)
    ensures MentionsLowConfidence(a) ==> MentionsLowConfidence(a + b)
    ensures MentionsLowConfidence(b) ==> MentionsLowConfidence(a + b)
  {
    if MentionsLowConfidence(a) {
      var i :| 0 <= i < |a| && SaysLowConfidence(a[i]);
      assert (a + b)[i] == a[i];
    }
    if MentionsLowConfidence(b) {
      var i :| 0 <= i < |b| && SaysLowConfidence(b[i]);
      assert (a + b)[|a| + i] == b[i];
    }
  }

  /** On a low-confidence extraction that misses the warning, the ABV or the
      net contents, that issue's message already says "low confidence", so
      no quality note is added. */
  lemma NoQualityNoteAfterCriticalMiss(d: LabelData, canonical: string)
    requires IsLowConfidence(d)
    requires !IsTrue(d.warningPresent) || !Given(d.alcoholByVolume) || !Given(d.netContents)
    ensures MentionsLowConfidence(PresenceIssues(d, true, canonical))
    ensures WithQualityNote(PresenceIssues(d, true, canonical), true) == PresenceIssues(d, true, canonical)
  {
    var w := WarningPresenceCheck(d, true);
    var t := WarningTextCheck(d, canonical);
    var abv := RequiredCheck(AlcoholByVolume, d.alcoholByVolume, AbvNotDetected(true), true);
    var net := RequiredCheck(NetContents, d.netContents, NetContentsNotDetected(true), true);
    PresenceSplit(d, true, canonical);
    if !IsTrue(d.warningPresent) {
      WarningMissMentions(d);
      MentionsAppend(w, t);
      MentionsAppend(w + t, abv);
    } else if !Given(d.alcoholByVolume) {
      AbvMissMentions(d);
      MentionsAppend(w + t, abv);
    } else {
      NetMissMentions(d);
    }
    MentionsAppend(w + t + abv, net);
    MentionsAppend(w + t + abv + net, LaterChecks(d));
  }

  lemma WarningMissMentions(d: LabelData)
    requires !IsTrue(d.warningPresent)
    ensures MentionsLowConfidence(WarningPresenceCheck(d, true))
  {
    var w := WarningPresenceCheck(d, true);
    SuffixSaysLowConfidence("Government warning not detected on label");
    assert SaysLowConfidence(w[0]);
  }

  lemma AbvMissMentions(d: LabelData)
    requires !Given(d.alcoholByVolume)
    ensures MentionsLowConfidence(RequiredCheck(AlcoholByVolume, d.alcoholByVolume, AbvNotDetected(true), true))
  {
    RequiredMissMentions(AlcoholByVolume, d.alcoholByVolume, AbvNotDetected(true), "Alcohol content (ABV) not detected");
  }

  lemma NetMissMentions(d: LabelData)
    requires !Given(d.netContents)
    ensures MentionsLowConfidence(RequiredCheck(NetContents, d.netContents, NetContentsNotDetected(true), true))
  {
    RequiredMissMentions(NetContents, d.netContents, NetContentsNotDetected(true), "Net contents not detected");
  }

  lemma RequiredMissMentions(subject: Subject, value: Option<string>, missing: Message, prefix: string)
    requires !Given(value) && missing.Text() == prefix + LowConfidenceNote(true)
    ensures MentionsLowConfidence(RequiredCheck(subject, value, missing, true))
  {
    SuffixSaysLowConfidence(prefix);
    assert SaysLowConfidence(RequiredCheck(subject, value, missing, true)[0]);
  }

  // ---------------------------------------------------------------------
  // Comparison issues
  // ---------------------------------------------------------------------

  /** Only brand name, alcohol content and net contents are critical
      comparison fields; the warning text never is. */
  lemma CriticalComparisonFields(f: Comparison.Field)
    ensures IsCriticalComparisonField(f) <==>
      f == Comparison.BrandName || f == Comparison.AlcoholContent || f == Comparison.NetContents
  {
    match f
    case ClassType => assert f.Name()[0] == 'c';
    case ProducerName => assert f.Name()[0] == 'p';
    case ProducerAddress => assert f.Name()[0] == 'p';
    case GovernmentWarning => assert f.Name()[0] == 'g';
    case _ =>
  }

  /** The comparison raises no issue exactly when every entry matches. */
  lemma {:induction false} ComparisonIssuesNone(fields: seq<Comparison.FieldResult>, lowConfidence: bool)
    ensures ComparisonIssues(fields, lowConfidence) == [] <==>
      forall i :: 0 <= i < |fields| ==> fields[i].status == Comparison.Match
  {
    if fields != [] {
      var init := fields[..|fields| - 1];
      ComparisonIssuesNone(init, lowConfidence);
      assert forall i :: 0 <= i < |init| ==> init[i] == fields[i];
    }
  }

  /** The issues of one entry about `s`: all of them or none. */
  lemma EntryIssuesFor(fr: Comparison.FieldResult, lowConfidence: bool, s: Subject)
    ensures IssuesFor(ComparisonIssue(fr, lowConfidence), s) ==
      if Compared(fr.field) == s then ComparisonIssue(fr, lowConfidence) else []
  {
    var r := ComparisonIssue(fr, lowConfidence);
    if r != [] {
      assert r == [r[0]];
      IssuesForSingle(r[0], s);
    }
  }

  lemma ComparisonIssuesSnoc(fields: seq<Comparison.FieldResult>, lowConfidence: bool, s: Subject)
    requires fields != []
    ensures IssuesFor(ComparisonIssues(fields, lowConfidence), s) ==
      IssuesFor(ComparisonIssues(fields[..|fields| - 1], lowConfidence), s)
      + (if Compared(fields[|fields| - 1].field) == s then ComparisonIssue(fields[|fields| - 1], lowConfidence) else [])
  {
    var init := fields[..|fields| - 1];
    var last := fields[|fields| - 1];
    IssuesForAppend(ComparisonIssues(init, lowConfidence), ComparisonIssue(last, lowConfidence), s);
    EntryIssuesFor(last, lowConfidence, s);
  }

  lemma {:induction false} ComparisonIssuesAbsent(fields: seq<Comparison.FieldResult>, lowConfidence: bool, f: Comparison.Field)
    requires forall i :: 0 <= i < |fields| ==> fields[i].field != f
    ensures IssuesFor(ComparisonIssues(fields, lowConfidence), Compared(f)) == []
  {
    if fields != [] {
      var init := fields[..|fields| - 1];
      assert forall i :: 0 <= i < |init| ==> init[i] == fields[i];
      ComparisonIssuesAbsent(init, lowConfidence, f);
      ComparisonIssuesSnoc(fields, lowConfidence, Compared(f));
    }
  }

  /** When the entry for a field is the only one, the issues about that field
      are the one issue its status maps to (none for a match). */
  lemma {:induction false} ComparisonIssuesFor(fields: seq<Comparison.FieldResult>, lowConfidence: bool, k: nat)
    requires k < |fields|
    requires forall i :: 0 <= i < |fields| && i != k ==> fields[i].field != fields[k].field
    ensures IssuesFor(ComparisonIssues(fields, lowConfidence), Compared(fields[k].field)) ==
      ComparisonIssue(fields[k], lowConfidence)
  {
    var init := fields[..|fields| - 1];
    if k == |fields| - 1 {
      ComparisonIssuesAbsent(init, lowConfidence, fields[k].field);
      LastEntryIssues(fields, lowConfidence);
    } else {
      ComparisonIssuesFor(init, lowConfidence, k);
      EarlierEntryIssues(fields, lowConfidence, k);
    }
  }

  lemma LastEntryIssues(fields: seq<Comparison.FieldResult>, lowConfidence: bool)
    requires fields != []
    requires IssuesFor(ComparisonIssues(fields[..|fields| - 1], lowConfidence), Compared(fields[|fields| - 1].field)) == []
    ensures IssuesFor(ComparisonIssues(fields, lowConfidence), Compared(fields[|fields| - 1].field)) ==
      ComparisonIssue(fields[|fields| - 1], lowConfidence)
  {
    ComparisonIssuesSnoc(fields, lowConfidence, Compared(fields[|fields| - 1].field));
  }

  lemma EarlierEntryIssues(fields: seq<Comparison.FieldResult>, lowConfidence: bool, k: nat)
    requires k < |fields| - 1 && fields[|fields| - 1].field != fields[k].field
    requires IssuesFor(ComparisonIssues(fields[..|fields| - 1], lowConfidence), Compared(fields[k].field)) ==
      ComparisonIssue(fields[k], lowConfidence)
    ensures IssuesFor(ComparisonIssues(fields, lowConfidence), Compared(fields[k].field)) ==
      ComparisonIssue(fields[k], lowConfidence)
  {
    ComparisonIssuesSnoc(fields, lowConfidence, Compared(fields[k].field));
  }

  /** Presence issues and the quality note are never about a compared field. */
  lemma NotedAboutPresence(presence: seq<Issue>, lowConfidence: bool, f: Comparison.Field)
    requires AboutPresence(presence)
    ensures IssuesFor(WithQualityNote(presence, lowConfidence), Compared(f)) == []
  {
    NoteAbout(presence, lowConfidence, Compared(f));
    IssuesForAbsent(presence, Compared(f));
  }

  /** In the whole check, the issues about a field compared once are exactly
      the issue its comparison status maps to. */
  lemma EvaluateComparedIssues(d: LabelData, comparison: Option<Comparison.ComparisonResult>, canonical: string, k: nat)
    requires comparison.Some? && k < |comparison.value.fields|
    requires forall i :: 0 <= i < |comparison.value.fields| && i != k ==>
      comparison.value.fields[i].field != comparison.value.fields[k].field
    ensures IssuesFor(Evaluate(d, comparison, canonical).issues, Compared(comparison.value.fields[k].field)) ==
      ComparisonIssue(comparison.value.fields[k], IsLowConfidence(d))
  {
    var lowConfidence := IsLowConfidence(d);
    var fields := comparison.value.fields;
    var presence := PresenceIssues(d, lowConfidence, canonical);
    var noted := WithQualityNote(presence, lowConfidence);
    var s := Compared(fields[k].field);
    assert Evaluate(d, comparison, canonical).issues == noted + ComparisonIssues(fields, lowConfidence);
    PresenceAboutPresence(d, lowConfidence, canonical);
    NotedAboutPresence(presence, lowConfidence, fields[k].field);
    ComparisonIssuesFor(fields, lowConfidence, k);
    IssuesForAppend(noted, ComparisonIssues(fields, lowConfidence), s);
  }

  /** With an application row, each compared field yields exactly the issue
      its comparison status maps to: none for a match, a review issue for a
      partial match or a missing warning text, and for a mismatch or a
      missing value a critical issue on brand name, alcohol content or net
      contents unless the extraction is low-confidence. */
  lemma CheckedFieldIssues(d: LabelData, row: ApplicationRow, parsers: Comparison.Parsers, canonical: string, k: nat)
    requires k < |Comparison.CompareFields(d, row, parsers, canonical).fields|
    ensures var fr := Comparison.CompareFields(d, row, parsers, canonical).fields[k];
      IssuesFor(Evaluate(d, ComparisonFor(d, Some(row), parsers, canonical), canonical).issues, Compared(fr.field)) ==
      ComparisonIssue(fr, IsLowConfidence(d))
  {
    var fs := Comparison.CompareFields(d, row, parsers, canonical).fields;
    Comparison.CompareFieldsOrdered(d, row, parsers, canonical, fs);
    forall i | 0 <= i < |fs| && i != k ensures fs[i].field != fs[k].field {
      if i < k {
        assert fs[i].field.Rank() < fs[k].field.Rank();
      } else {
        assert fs[k].field.Rank() < fs[i].field.Rank();
      }
    }
    EvaluateComparedIssues(d, ComparisonFor(d, Some(row), parsers, canonical), canonical, k);
  }

  /** If the comparison finds the warning text matching, the rule engine
      raises no warning-text issue either. */
  lemma WarningMatchMeansNoTextIssue(d: LabelData, comparison: Option<Comparison.ComparisonResult>, canonical: string)
    requires Comparison.CompareWarning(d, canonical).status == Comparison.Match
    ensures IssuesFor(Evaluate(d, comparison, canonical).issues, WarningText) == []
  {
    SameWarningFormSameNormal(d.warningText.value, canonical);
    WarningTextIssues(d, comparison, canonical);
  }

  // ---------------------------------------------------------------------
  // Extraction quality
  // ---------------------------------------------------------------------

  lemma {:induction false} CountTrueMonotone(a: seq<bool>, b: seq<bool>)
    requires |a| == |b|
    requires forall i :: 0 <= i < |a| ==> a[i] ==> b[i]
    ensures CountTrue(a) <= CountTrue(b)
  {
    if a != [] {
      CountTrueMonotone(a[1..], b[1..]);
    }
  }

  /** Filling in main fields, with the same raw text, never makes an
      extraction low-confidence. */
  lemma LowConfidenceMonotone(fuller: LabelData, sparser: LabelData)
    requires fuller.rawText == sparser.rawText
    requires forall i :: 0 <= i < 10 ==> MainFieldsNull(fuller)[i] ==> MainFieldsNull(sparser)[i]
    ensures IsLowConfidence(fuller) ==> IsLowConfidence(sparser)
  {
    CountTrueMonotone(MainFieldsNull(fuller), MainFieldsNull(sparser));
  }
}
