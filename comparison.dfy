/**
 * The field comparison engine: each comparator classifies the value an
 * application row expects against the value extracted from the label, and
 * `CompareFields` assembles the per-field results of one label.
 *
 * The two regular-expression parsers are abstract: `Parsers.abv` stands for
 * the ABV pattern search with its float conversion, and `Parsers.netContents`
 * for the net-contents pattern search, returning the captured number and unit
 * text. What happens to that unit text afterwards is modelled.
 */
module Comparison {
  import opened Wrappers
  import opened Text
  import opened Labels

  datatype Status = Match | Partial | Mismatch | NotFound | NeedsReview

  /** The fields an entry can report on, in the order the engine emits them. */
  datatype Field =
    | BrandName | AlcoholContent | NetContents | ClassType | ProducerName | ProducerAddress
    | GovernmentWarning
  {
    /** The key written to the result dictionary. */
    function Name(): string {
      match this
      case BrandName => "brand_name"
      case AlcoholContent => "alcohol_content"
      case NetContents => "net_contents"
      case ClassType => "class_type"
      case ProducerName => "producer_name"
      case ProducerAddress => "producer_address"
      case GovernmentWarning => "government_warning"
    }

    function Rank(): nat {
      match this
      case BrandName => 0
      case AlcoholContent => 1
      case NetContents => 2
      case ClassType => 3
      case ProducerName => 4
      case ProducerAddress => 5
      case GovernmentWarning => 6
    }
  }

  /** The dictionary `_result` builds. */
  datatype FieldResult = FieldResult(
    field: Field,
    expected: Option<string>,
    extracted: Option<string>,
    status: Status,
    message: string)

  /** What the net-contents pattern captures: the number and the unit text. */
  datatype NetMatch = NetMatch(value: real, unit: string)

  /** The two pattern searches, left abstract. */
  datatype Parsers = Parsers(abv: string -> Option<real>, netContents: string -> Option<NetMatch>)

  datatype ComparisonResult = ComparisonResult(matchedRow: string, fields: seq<FieldResult>)

  /** The six application fields compared, in the order they are compared. */
  const CheckOrder: seq<Field> :=
    [BrandName, AlcoholContent, NetContents, ClassType, ProducerName, ProducerAddress]

  const AbvTolerance: real := 0.15
  const NetContentsTolerance: real := 1.0

  // ---------------------------------------------------------------------
  // Text normalisation
  // ---------------------------------------------------------------------

  /** The characters `re.sub(r"[^\w\s%.]", "", ...)` keeps: ASCII word
      characters, whitespace, `%` and `.`. */
  predicate IsNormTextChar(c: char) {
    IsLower(c) || IsUpper(c) || IsDigit(c) || c == '_' || IsSpace(c) || c == '%' || c == '.'
  }

  /** The shape of a `NormText` result: no uppercase letter, nothing but kept
      characters, single plain spaces and none at either end. */
  ghost predicate NormalText(t: string) {
    && NoEdgeSpace(t)
    && SingleSpaced(t)
    && forall i :: 0 <= i < |t| ==> IsNormTextChar(t[i]) && !IsUpper(t[i])
  }

  /** `_norm_text`: strip, lowercase, straighten quotes and dashes, drop
      punctuation other than `%` and `.`, collapse whitespace, strip. */
  function NormText(s: string): (r: string)
    ensures NormalText(r)
    ensures |r| <= |s|
  {
    NormTextShape(s);
    Strip(CollapseSpaces(Filter(IsNormTextChar, Straighten(Lower(Strip(s))))))
  }

  /** The steps of `_norm_text` leave text in normal form, no longer than its input. */
  lemma NormTextShape(s: string)
    ensures NormalText(Strip(CollapseSpaces(Filter(IsNormTextChar, Straighten(Lower(Strip(s)))))))
    ensures |Strip(CollapseSpaces(Filter(IsNormTextChar, Straighten(Lower(Strip(s))))))| <= |s|
  {
    var lowered := Straighten(Lower(Strip(s)));
    var kept := Filter(IsNormTextChar, lowered);
    forall i | 0 <= i < |kept| ensures IsNormTextChar(kept[i]) && !IsUpper(kept[i]) {
      assert kept[i] in lowered;
    }
    var collapsed := CollapseSpaces(kept);
    CollapseChars(kept);
    forall i | 0 <= i < |collapsed| ensures IsNormTextChar(collapsed[i]) && !IsUpper(collapsed[i]) {
      if collapsed[i] != ' ' {
        assert collapsed[i] in kept;
      }
    }
    StripKeepsChars(collapsed, c => IsNormTextChar(c) && !IsUpper(c));
    StripKeepsSingleSpaced(collapsed);
  }

  /** Lowercasing, straightening and the character filter leave kept,
      lowercase characters alone. */
  lemma NormCharsFixed(t: string)
    requires forall i :: 0 <= i < |t| ==> IsNormTextChar(t[i]) && !IsUpper(t[i])
    ensures Filter(IsNormTextChar, Straighten(Lower(t))) == t
  {
    forall i | 0 <= i < |t|
      ensures LowerChar(t[i]) == t[i]
    {
    }
    MapCharsIdentity(LowerChar, t);
    forall i | 0 <= i < |t|
      ensures StraightenChar(t[i]) == t[i]
    {
    }
    MapCharsIdentity(StraightenChar, t);
  }

  /** Text already in normal form is left unchanged. */
  lemma NormTextFixes(t: string)
    requires NormalText(t)
    ensures NormText(t) == t
  {
    StripIdentity(t);
    NormCharsFixed(t);
    CollapseIdentity(t);
  }

  /** Normalising twice is normalising once. */
  lemma NormTextIdempotent(s: string)
    ensures NormText(NormText(s)) == NormText(s)
  {
    NormTextFixes(NormText(s));
  }

  /** `_strip_all_punct`: lowercase, then keep only `[a-z0-9]`. */
  function StripAllPunct(s: string): (r: string)
    ensures forall i :: 0 <= i < |r| ==> IsLowerAlnum(r[i])
    ensures |r| <= |s|
  {
    Filter(IsLowerAlnum, Lower(s))
  }

  /** Loose comparison text distributes over concatenation. */
  lemma StripAllPunctAppend(a: string, b: string)
    ensures StripAllPunct(a + b) == StripAllPunct(a) + StripAllPunct(b)
  {
    MapCharsAppend(LowerChar, a, b);
    FilterAppend(IsLowerAlnum, Lower(a), Lower(b));
  }

  // ---------------------------------------------------------------------
  // Names: brand, class/type and producer
  // ---------------------------------------------------------------------

  /** The decision shared by the brand, class/type and producer-name
      comparators, on their `_strip_all_punct` forms. */
  function ClassifyNames(expected: string, extracted: Option<string>): (s: Status)
    ensures s == NotFound <==> !Given(extracted)
    ensures s == Match <==> Given(extracted) && StripAllPunct(expected) == StripAllPunct(extracted.value)
    ensures s == Partial <==>
      && Given(extracted)
      && StripAllPunct(expected) != StripAllPunct(extracted.value)
      && (Contains(StripAllPunct(extracted.value), StripAllPunct(expected))
          || Contains(StripAllPunct(expected), StripAllPunct(extracted.value)))
    ensures s == Mismatch <==>
      && Given(extracted)
      && !Contains(StripAllPunct(extracted.value), StripAllPunct(expected))
      && !Contains(StripAllPunct(expected), StripAllPunct(extracted.value))
    ensures s != NeedsReview
  {
    if !Given(extracted) then NotFound
    else
      var e := StripAllPunct(expected);
      var x := StripAllPunct(extracted.value);
      ContainsSelf(e);
      if e == x then Match
      else if Contains(x, e) || Contains(e, x) then Partial
      else Mismatch
  }

  /** Swapping the application value and the label value changes nothing. */
  lemma ClassifyNamesSymmetric(a: string, b: string)
    requires a != [] && b != []
    ensures ClassifyNames(a, Some(b)) == ClassifyNames(b, Some(a))
  {
  }

  /** A label that shows the application's name with extra text around it
      ("Bourbon Whiskey" inside "Kentucky Straight Bourbon Whiskey") is
      never a mismatch. */
  lemma ClassifyNamesEmbedded(before: string, name: string, after: string)
    requires before + name + after != []
    ensures ClassifyNames(name, Some(before + name + after)) in {Match, Partial}
  {
    StripAllPunctAppend(before, name);
    StripAllPunctAppend(before + name, after);
    var e := StripAllPunct(name);
    ContainsSelf(e);
    ContainsAfter(StripAllPunct(before), e, e);
    ContainsBefore(StripAllPunct(before) + e, StripAllPunct(after), e);
  }

  // ---------------------------------------------------------------------
  // Measures: alcohol content and net contents
  // ---------------------------------------------------------------------

  function Abs(x: real): real {
    if x < 0.0 then -x else x
  }

  /** The decision shared by the alcohol-content and net-contents
      comparators: numeric within a tolerance when both sides parse, else
      equality of normalised text. */
  function ClassifyMeasure(expected: string, extracted: Option<string>, parse: string -> Option<real>, tolerance: real): (s: Status)
    ensures s == NotFound <==> !Given(extracted)
    ensures Given(extracted) && parse(expected).Some? && parse(extracted.value).Some? ==>
      && (s == Match <==> Abs(parse(expected).value - parse(extracted.value).value) <= tolerance)
      && (s == Match || s == Mismatch)
    ensures Given(extracted) && (parse(expected).None? || parse(extracted.value).None?) ==>
      && (s == Match <==> NormText(expected) == NormText(extracted.value))
      && (s == Match || s == NeedsReview)
  {
    if !Given(extracted) then NotFound
    else
      var e := parse(expected);
      var x := parse(extracted.value);
      if e.Some? && x.Some? then
        if Abs(e.value - x.value) <= tolerance then Match else Mismatch
      else if NormText(expected) == NormText(extracted.value) then Match
      else NeedsReview
  }

  /** Both measure comparators are symmetric in their two values. */
  lemma ClassifyMeasureSymmetric(a: string, b: string, parse: string -> Option<real>, tolerance: real)
    requires a != [] && b != []
    ensures ClassifyMeasure(a, Some(b), parse, tolerance) == ClassifyMeasure(b, Some(a), parse, tolerance)
  {
  }

  /** A label showing exactly the application's value matches it. */
  lemma ClassifyMeasureReflexive(a: string, parse: string -> Option<real>, tolerance: real)
    requires a != [] && tolerance >= 0.0
    ensures ClassifyMeasure(a, Some(a), parse, tolerance) == Match
  {
  }

  /** `_ML_CONVERSIONS`: millilitres per unit. The comparison uses this table. */
  const MlConversions: map<string, real> := map[
    "ml" := 1.0, "milliliter" := 1.0, "millilitre" := 1.0, "milliliters" := 1.0, "millilitres" := 1.0,
    "cl" := 10.0, "centiliter" := 10.0, "centilitre" := 10.0, "centiliters" := 10.0, "centilitres" := 10.0,
    "l" := 1000.0, "liter" := 1000.0, "litre" := 1000.0, "liters" := 1000.0, "litres" := 1000.0,
    "fl oz" := 29.5735, "fl. oz." := 29.5735, "fl. oz" := 29.5735, "fl oz." := 29.5735,
    "fluid ounce" := 29.5735, "fluid ounces" := 29.5735, "oz" := 29.5735,
    "gal" := 3785.41, "gallon" := 3785.41, "gallons" := 3785.41,
    "pt" := 473.176, "pint" := 473.176, "pints" := 473.176,
    "qt" := 946.353, "quart" := 946.353, "quarts" := 946.353]

  /** The table completed with the two fluid-ounce spellings the unit
      pattern accepts but `_ML_CONVERSIONS` lacks; only the corrected
      parse below uses it. */
  const MlConversionsCompleted: map<string, real> :=
    MlConversions["fl.oz" := 29.5735]["floz" := 29.5735]

  /** Every unit spelling the alternatives of the net-contents pattern
      accept, lowercased, with whitespace runs collapsed and trailing dots
      removed. */
  const RecognisedUnits: set<string> := {
    "ml", "milliliter", "milliliters", "millilitre", "millilitres",
    "cl", "centiliter", "centiliters", "centilitre", "centilitres",
    "l", "liter", "liters", "litre", "litres",
    "fl oz", "fl. oz", "fl.oz", "floz", "fluid ounce", "fluid ounces", "oz",
    "gal", "gallon", "gallons", "pt", "pint", "pints", "qt", "quart", "quarts"}

  /** `str.rstrip(c)`. */
  function TrimEndChar(s: string, c: char): (r: string)
    ensures |r| <= |s| && r == s[..|r|]
    ensures r == [] || r[|r| - 1] != c
    ensures forall i :: |r| <= i < |s| ==> s[i] == c
  {
    if s != [] && s[|s| - 1] == c then TrimEndChar(s[..|s| - 1], c) else s
  }

  /** The captured unit: lowercased, stripped, trailing dots removed, whitespace collapsed. */
  function NormalizeUnit(unit: string): (r: string)
    ensures |r| <= |unit|
    ensures SingleSpaced(r) && (r == [] || !IsSpace(r[0]))
    ensures forall i :: 0 <= i < |r| ==> !IsUpper(r[i])
  {
    var lowered := Strip(Lower(unit));
    StripKeepsChars(Lower(unit), c => !IsUpper(c));
    var t := TrimEndChar(lowered, '.');
    CollapseChars(t);
    CollapseSpaces(t)
  }

  /** The table lookup, retried without trailing `s` characters. */
  function LookupFactor(table: map<string, real>, unit: string): (r: Option<real>)
    ensures r.Some? <==> unit in table || TrimEndChar(unit, 's') in table
    ensures unit in table ==> r == Some(table[unit])
    ensures unit !in table && TrimEndChar(unit, 's') in table ==> r == Some(table[TrimEndChar(unit, 's')])
  {
    if unit in table then Some(table[unit])
    else
      var shorter := TrimEndChar(unit, 's');
      if shorter in table then Some(table[shorter]) else None
  }

  /** A quantity in millilitres: the captured number times the unit's factor. */
  function Millilitres(value: real, factor: real): real {
    value * factor
  }

  /** `_parse_net_contents_ml` against a given conversion table, in exact
      arithmetic. */
  function ParseNetContentsWith(table: map<string, real>, m: Option<NetMatch>): (r: Option<real>)
    ensures m.None? ==> r.None?
    ensures m.Some? ==> (r.Some? <==> NormalizeUnit(m.value.unit) in table || TrimEndChar(NormalizeUnit(m.value.unit), 's') in table)
    ensures m.Some? && NormalizeUnit(m.value.unit) in table ==>
      r == Some(Millilitres(m.value.value, table[NormalizeUnit(m.value.unit)]))
  {
    match m
    case None => None
    case Some(nm) =>
      match LookupFactor(table, NormalizeUnit(nm.unit))
      case None => None
      case Some(factor) => Some(Millilitres(nm.value, factor))
  }

  /** `_parse_net_contents_ml` after the pattern search. */
  function ParseNetContentsMl(m: Option<NetMatch>): Option<real> {
    ParseNetContentsWith(MlConversions, m)
  }

  /** The corrected parse, against the completed table. */
  function ParseNetContentsMlCompleted(m: Option<NetMatch>): Option<real> {
    ParseNetContentsWith(MlConversionsCompleted, m)
  }

  /** A unit already in normalised form is not changed by `NormalizeUnit`. */
  lemma NormalizeUnitFixes(u: string)
    requires NoEdgeSpace(u) && SingleSpaced(u)
    requires forall i :: 0 <= i < |u| ==> !IsUpper(u[i])
    requires u == [] || u[|u| - 1] != '.'
    ensures NormalizeUnit(u) == u
  {
    MapCharsIdentity(LowerChar, u);
    StripIdentity(u);
    CollapseIdentity(u);
  }

  /** "fl.oz" is already a normalised unit. */
  lemma FluidOunceUnitNormal()
    ensures NormalizeUnit("fl.oz") == "fl.oz"
  {
    var u := "fl.oz";
    assert SingleSpaced(u) by {
      forall i | 0 <= i < |u| ensures !IsSpace(u[i]) { }
    }
    NormalizeUnitFixes(u);
  }

  /** Neither "fl.oz" nor its form without trailing `s` is a key of the table as written. */
  lemma FluidOunceMissingAsWritten()
    ensures LookupFactor(MlConversions, "fl.oz") == None
  {
    FluidOunceNotKey();
    assert TrimEndChar("fl.oz", 's') == "fl.oz";
  }

  lemma FluidOunceNotKey()
    ensures "fl.oz" !in MlConversions
  {
  }

  /** As written, "12 fl.oz" (or any other amount in "fl.oz") is captured
      by the unit pattern yet parses to nothing. */
  lemma FluidOunceWithoutSpaceUnparsed(value: real)
    ensures "fl.oz" in RecognisedUnits
    ensures ParseNetContentsMl(Some(NetMatch(value, "fl.oz"))) == None
  {
    FluidOunceUnitNormal();
    FluidOunceMissingAsWritten();
  }

  /** With the completed table every recognised unit has a factor. */
  lemma EveryRecognisedUnitConverts(value: real, unit: string)
    requires NormalizeUnit(unit) in RecognisedUnits
    ensures ParseNetContentsMlCompleted(Some(NetMatch(value, unit))) == Some(Millilitres(value, MlConversionsCompleted[NormalizeUnit(unit)]))
  {
    var u := NormalizeUnit(unit);
    assert u in MlConversionsCompleted;
  }

  // ---------------------------------------------------------------------
  // Government warning
  // ---------------------------------------------------------------------

  /** The warning comparator's exact-match form: uppercase, strip, collapse whitespace. */
  function WarningForm(s: string): string {
    CollapseSpaces(Strip(Upper(s)))
  }

  /** `set(re.findall(r"[a-z0-9]+", s.lower()))`. */
  function Words(s: string): set<string> {
    RunSet(IsLowerAlnum, Lower(s))
  }

  /** `max(n, 1)`, the denominator of both overlap ratios. */
  function AtLeastOne(n: nat): (r: nat)
    ensures r >= 1 && r >= n
    ensures n >= 1 ==> r == n
  {
    if n < 1 then 1 else n
  }

  function Overlap(a: set<string>, b: set<string>): nat {
    |a * b|
  }

  /** The decision on an extracted warning text against the statutory
      text: exact after uppercasing and collapsing whitespace, else at least
      80% of the statutory words (`5 * overlap >= 4 * total`) for a partial
      match. */
  function ClassifyWarningText(canonical: string, text: string): (s: Status)
    ensures s == Match <==> WarningForm(text) == WarningForm(canonical)
    ensures s == Partial <==>
      && WarningForm(text) != WarningForm(canonical)
      && 5 * Overlap(Words(canonical), Words(text)) >= 4 * AtLeastOne(|Words(canonical)|)
    ensures s == Mismatch <==>
      && WarningForm(text) != WarningForm(canonical)
      && 5 * Overlap(Words(canonical), Words(text)) < 4 * AtLeastOne(|Words(canonical)|)
  {
    if WarningForm(canonical) == WarningForm(text) then Match
    else
      var canonWords := Words(canonical);
      if 5 * Overlap(canonWords, Words(text)) >= 4 * AtLeastOne(|canonWords|) then Partial
      else Mismatch
  }

  /** `_compare_government_warning`, against the statutory text `canonical`
      (`Labels.CanonicalWarning` in the backend). */
  function CompareWarning(d: LabelData, canonical: string): (r: FieldResult)
    ensures r.field == GovernmentWarning && r.expected == Some(canonical)
    ensures r.status == NotFound <==> !IsTrue(d.warningPresent)
    ensures r.status == NeedsReview <==> IsTrue(d.warningPresent) && !Given(d.warningText)
    ensures !IsTrue(d.warningPresent) || !Given(d.warningText) ==>
      r.extracted == Some(if Given(d.warningText) then d.warningText.value else "Not detected on label")
    ensures IsTrue(d.warningPresent) && Given(d.warningText) ==>
      r.extracted == d.warningText && r.status == ClassifyWarningText(canonical, d.warningText.value)
  {
    var present := IsTrue(d.warningPresent);
    if !present || !Given(d.warningText) then
      var shown := if Given(d.warningText) then d.warningText.value else "Not detected on label";
      if !present then
        FieldResult(GovernmentWarning, Some(canonical), Some(shown), NotFound,
                    "Government warning not detected on label")
      else
        FieldResult(GovernmentWarning, Some(canonical), Some(shown), NeedsReview,
                    "Warning detected but text could not be extracted")
    else
      var status := ClassifyWarningText(canonical, d.warningText.value);
      var message :=
        match status
        case Partial => "Warning text does not exactly match the required federal text -- verify manually"
        case Mismatch => "Warning text does not match the required federal text"
        case _ => "";
      FieldResult(GovernmentWarning, Some(canonical), d.warningText, status, message)
  }

  /** A warning text that contains every statutory word is at worst a
      partial match. */
  lemma WarningWithAllWordsNotMismatch(canonical: string, text: string)
    requires Words(canonical) != {}
    requires Words(canonical) <= Words(text)
    ensures ClassifyWarningText(canonical, text) in {Match, Partial}
  {
    var canon := Words(canonical);
    assert canon * Words(text) == canon;
  }

  /** A warning text that shares no word with the statutory text is a mismatch. */
  lemma WarningWithNoWordsMismatch(canonical: string, text: string)
    requires Words(canonical) * Words(text) == {}
    requires WarningForm(text) != WarningForm(canonical)
    ensures ClassifyWarningText(canonical, text) == Mismatch
  {
  }

  // ---------------------------------------------------------------------
  // Producer address
  // ---------------------------------------------------------------------

  /** `set(_norm_text(s).split())`. */
  function AddressWords(s: string): set<string> {
    RunSet(NonSpace, NormText(s))
  }

  /** The address thresholds on the word overlap: at least 60% of the
      application's words (`5 * overlap >= 3 * total`) is a match, some
      shared word a partial match, none a mismatch. */
  function AddressOutcome(overlap: nat, total: nat): (s: Status)
    requires total >= 1
    ensures s == Mismatch <==> overlap == 0
    ensures s == Match <==> 5 * overlap >= 3 * total
    ensures s in {Match, Partial, Mismatch}
  {
    if 5 * overlap >= 3 * total then Match
    else if overlap > 0 then Partial
    else Mismatch
  }

  /** Order of the three address outcomes. */
  function AddressRank(s: Status): nat {
    match s
    case Match => 2
    case Partial => 1
    case _ => 0
  }

  /** A larger overlap never gives a lower outcome. */
  lemma AddressOutcomeMonotone(o1: nat, o2: nat, total: nat)
    requires total >= 1 && o1 <= o2
    ensures AddressRank(AddressOutcome(o1, total)) <= AddressRank(AddressOutcome(o2, total))
  {
  }

  /** `_compare_producer_address`'s decision. */
  function ClassifyAddress(expected: string, extracted: Option<string>): (s: Status)
    ensures s == NotFound <==> !Given(extracted)
    ensures Given(extracted) ==>
      s == AddressOutcome(Overlap(AddressWords(expected), AddressWords(extracted.value)),
                          AtLeastOne(|AddressWords(expected)|))
  {
    if !Given(extracted) then NotFound
    else
      var e := AddressWords(expected);
      AddressOutcome(Overlap(e, AddressWords(extracted.value)), AtLeastOne(|e|))
  }

  /** Reading more words off the label never lowers the address outcome. */
  lemma ClassifyAddressMonotone(expected: string, x: string, y: string)
    requires x != [] && y != []
    requires AddressWords(x) <= AddressWords(y)
    ensures AddressRank(ClassifyAddress(expected, Some(x))) <= AddressRank(ClassifyAddress(expected, Some(y)))
  {
    var e := AddressWords(expected);
    var total := AtLeastOne(|e|);
    var ox := Overlap(e, AddressWords(x));
    var oy := Overlap(e, AddressWords(y));
    SubsetCardinality(e * AddressWords(x), e * AddressWords(y));
    assert ClassifyAddress(expected, Some(x)) == AddressOutcome(ox, total);
    assert ClassifyAddress(expected, Some(y)) == AddressOutcome(oy, total);
    AddressOutcomeMonotone(ox, oy, total);
  }

  /** An address with at least one word matches itself. */
  lemma ClassifyAddressReflexive(a: string)
    requires AddressWords(a) != {}
    ensures ClassifyAddress(a, Some(a)) == Match
  {
    var e := AddressWords(a);
    OverlapSelf(e);
    assert |e| >= 1;
  }

  lemma OverlapSelf(e: set<string>)
    ensures Overlap(e, e) == |e|
  {
    assert e * e == e;
  }

  // ---------------------------------------------------------------------
  // The per-field results of one label
  // ---------------------------------------------------------------------

  /** The outcomes the comparator of an application field can report; the
      warning comparator carries messages of its own. */
  function Outcomes(f: Field): set<Status> {
    match f
    case AlcoholContent => {Match, Mismatch, NeedsReview, NotFound}
    case NetContents => {Match, Mismatch, NeedsReview, NotFound}
    case GovernmentWarning => {}
    case _ => {Match, Partial, Mismatch, NotFound}
  }

  /** The message each comparator attaches to each outcome. The two numeric
      mismatch messages are rendered without their parsed numbers. */
  function Message(f: Field, s: Status): (r: string)
    ensures s in Outcomes(f) ==> (r == "" <==> s == Match && f != ProducerAddress)
    ensures s !in Outcomes(f) ==> r == ""
  {
    match (f, s)
    case (BrandName, NotFound) => "Brand name not found on label"
    case (BrandName, Partial) => "Brand name is a partial match -- verify"
    case (BrandName, Mismatch) => "Brand name does not match application data"
    case (AlcoholContent, NotFound) => "Alcohol content not found on label"
    case (AlcoholContent, Mismatch) => "ABV mismatch"
    case (AlcoholContent, NeedsReview) => "Could not parse ABV numerically -- manual comparison required"
    case (NetContents, NotFound) => "Net contents not found on label"
    case (NetContents, Mismatch) => "Net contents mismatch"
    case (NetContents, NeedsReview) => "Could not parse net contents numerically -- manual comparison required"
    case (ClassType, NotFound) => "Class/type designation not found on label"
    case (ClassType, Partial) => "Class/type is a partial match -- one value contains the other"
    case (ClassType, Mismatch) => "Class/type designation does not match application data"
    case (ProducerName, NotFound) => "Producer/bottler name not found on label"
    case (ProducerName, Partial) => "Producer name is a partial match -- verify"
    case (ProducerName, Mismatch) => "Producer name does not match application data"
    case (ProducerAddress, NotFound) => "Producer address not found on label"
    case (ProducerAddress, Match) => "Address appears to match (relaxed comparison)"
    case (ProducerAddress, Partial) => "Address partially matches -- verify details"
    case (ProducerAddress, Mismatch) => "Producer address does not match application data"
    case _ => ""
  }

  /** The application value compared for a field. */
  function ExpectedFor(row: ApplicationRow, f: Field): Option<string> {
    match f
    case BrandName => row.brandName
    case AlcoholContent => row.alcoholContent
    case NetContents => row.netContents
    case ClassType => row.classType
    case ProducerName => row.producerName
    case ProducerAddress => row.producerAddress
    case GovernmentWarning => None
  }

  /** The extracted value compared for a field. */
  function ExtractedFor(d: LabelData, f: Field): Option<string> {
    match f
    case BrandName => d.brandName
    case AlcoholContent => d.alcoholByVolume
    case NetContents => d.netContents
    case ClassType => d.classType
    case ProducerName => d.producerName
    case ProducerAddress => d.producerAddress
    case GovernmentWarning => d.warningText
  }

  function NetContentsParser(parsers: Parsers): string -> Option<real> {
    t => ParseNetContentsMl(parsers.netContents(t))
  }

  /** The comparator of one application field. */
  function CompareField(f: Field, expected: string, d: LabelData, parsers: Parsers): (r: FieldResult)
    requires f != GovernmentWarning
    ensures r.field == f && r.expected == Some(expected) && r.extracted == ExtractedFor(d, f)
    ensures r.status == NotFound <==> !Given(ExtractedFor(d, f))
    ensures r.message == Message(f, r.status)
    ensures r.status in Outcomes(f)
    ensures r.message == "" <==> r.status == Match && f != ProducerAddress
  {
    var x := ExtractedFor(d, f);
    var s :=
      match f
      case BrandName => ClassifyNames(expected, x)
      case ClassType => ClassifyNames(expected, x)
      case ProducerName => ClassifyNames(expected, x)
      case AlcoholContent => ClassifyMeasure(expected, x, parsers.abv, AbvTolerance)
      case NetContents => ClassifyMeasure(expected, x, NetContentsParser(parsers), NetContentsTolerance)
      case ProducerAddress => ClassifyAddress(expected, x);
    FieldResult(f, Some(expected), x, s, Message(f, s))
  }

  /** As written, a label amount in "fl.oz" never compares numerically: the
      net-contents comparison falls back to the normalised text and, when
      that differs from the application's ("12 fl.oz" against "12 fl oz"),
      asks for manual review. */
  lemma FluidOunceLabelNeedsReview(expected: string, d: LabelData, parsers: Parsers, value: real)
    requires Given(d.netContents)
    requires parsers.netContents(d.netContents.value) == Some(NetMatch(value, "fl.oz"))
    requires NormText(expected) != NormText(d.netContents.value)
    ensures CompareField(NetContents, expected, d, parsers).status == NeedsReview
  {
    FluidOunceWithoutSpaceUnparsed(value);
  }

  /** The fields among `fs` for which the row gives an expected value. */
  function Requested(fs: seq<Field>, row: ApplicationRow): (r: seq<Field>)
    ensures |r| <= |fs|
    ensures forall i :: 0 <= i < |r| ==> ExpectedFor(row, r[i]).Some?
  {
    if fs == [] then []
    else if ExpectedFor(row, fs[0]).Some? then [fs[0]] + Requested(fs[1..], row)
    else Requested(fs[1..], row)
  }

  /** A field is kept exactly when it is listed and the row gives it a value. */
  lemma {:induction false} RequestedMembers(fs: seq<Field>, row: ApplicationRow, f: Field)
    ensures f in Requested(fs, row) <==> f in fs && ExpectedFor(row, f).Some?
  {
    if fs != [] {
      RequestedMembers(fs[1..], row, f);
      assert f in fs <==> f == fs[0] || f in fs[1..];
    }
  }

  /** Every kept field ranks at least as high as the lowest listed rank. */
  lemma {:induction false} RequestedRanksFrom(fs: seq<Field>, row: ApplicationRow, low: nat)
    requires forall k :: 0 <= k < |fs| ==> low <= fs[k].Rank()
    ensures forall i :: 0 <= i < |Requested(fs, row)| ==> low <= Requested(fs, row)[i].Rank()
  {
    if fs != [] {
      RequestedRanksFrom(fs[1..], row, low);
    }
  }

  /** The loop of `compare_fields`: one result per field that has an
      expected value, in the order of `fs`. */
  function RunComparisons(fs: seq<Field>, d: LabelData, row: ApplicationRow, parsers: Parsers): (r: seq<FieldResult>)
    requires GovernmentWarning !in fs
    ensures |r| == |Requested(fs, row)|
    ensures forall i :: 0 <= i < |r| ==> r[i].field == Requested(fs, row)[i]
  {
    if fs == [] then []
    else
      var rest := RunComparisons(fs[1..], d, row, parsers);
      var e := ExpectedFor(row, fs[0]);
      if e.Some? then [CompareField(fs[0], e.value, d, parsers)] + rest else rest
  }

  /** An entry of the loop: an application field other than the warning,
      compared by its comparator against the row's value for it. */
  ghost predicate ComparedEntry(r: FieldResult, d: LabelData, row: ApplicationRow, parsers: Parsers) {
    && r.field != GovernmentWarning
    && ExpectedFor(row, r.field).Some?
    && r == CompareField(r.field, ExpectedFor(row, r.field).value, d, parsers)
  }

  /** Each result of the loop is its field's comparator applied to the row's value. */
  lemma {:induction false} RunComparisonsEntries(fs: seq<Field>, d: LabelData, row: ApplicationRow, parsers: Parsers, rs: seq<FieldResult>)
    requires GovernmentWarning !in fs
    requires rs == RunComparisons(fs, d, row, parsers)
    ensures forall i :: 0 <= i < |rs| ==> ComparedEntry(rs[i], d, row, parsers)
  {
    if fs != [] {
      var rest := RunComparisons(fs[1..], d, row, parsers);
      RunComparisonsEntries(fs[1..], d, row, parsers, rest);
      var e := ExpectedFor(row, fs[0]);
      if e.Some? {
        var head := CompareField(fs[0], e.value, d, parsers);
        assert rs == [head] + rest;
        HeadEntry(fs[0], d, row, parsers);
        ConsEntries(head, rest, d, row, parsers);
      }
    }
  }

  lemma HeadEntry(f: Field, d: LabelData, row: ApplicationRow, parsers: Parsers)
    requires f != GovernmentWarning && ExpectedFor(row, f).Some?
    ensures ComparedEntry(CompareField(f, ExpectedFor(row, f).value, d, parsers), d, row, parsers)
  {
  }

  lemma ConsEntries(head: FieldResult, rest: seq<FieldResult>, d: LabelData, row: ApplicationRow, parsers: Parsers)
    requires ComparedEntry(head, d, row, parsers)
    requires forall i :: 0 <= i < |rest| ==> ComparedEntry(rest[i], d, row, parsers)
    ensures forall i :: 0 <= i < |[head] + rest| ==> ComparedEntry(([head] + rest)[i], d, row, parsers)
  {
    ConsAll(r => ComparedEntry(r, d, row, parsers), head, rest);
  }

  /** A property of the head and of every later element holds of every element. */
  lemma ConsAll<T>(p: T -> bool, head: T, rest: seq<T>)
    requires p(head) && forall i :: 0 <= i < |rest| ==> p(rest[i])
    ensures forall i :: 0 <= i < |[head] + rest| ==> p(([head] + rest)[i])
  {
    forall i | 0 < i < |[head] + rest|
      ensures p(([head] + rest)[i])
    {
      assert ([head] + rest)[i] == rest[i - 1];
    }
  }

  /** A label that reproduces the statutory warning of 27 CFR 16.21 passes
      the warning comparison. */
  lemma StatutoryWarningMatches(d: LabelData)
    requires IsTrue(d.warningPresent) && d.warningText == Some(CanonicalWarning)
    ensures CompareWarning(d, CanonicalWarning).status == Match
  {
  }

  /** `compare_fields`: one entry per application field that has a value,
      in the fixed order, then always the government warning entry checked
      against `canonical` (`Labels.CanonicalWarning` in the backend). */
  function CompareFields(d: LabelData, row: ApplicationRow, parsers: Parsers, canonical: string): (r: ComparisonResult)
    ensures r.matchedRow == row.labelId
    ensures |r.fields| == |Requested(CheckOrder, row)| + 1
    ensures forall i :: 0 <= i < |r.fields| - 1 ==> r.fields[i].field == Requested(CheckOrder, row)[i]
    ensures r.fields[|r.fields| - 1] == CompareWarning(d, canonical)
  {
    var checked := RunComparisons(CheckOrder, d, row, parsers);
    ComparisonResult(row.labelId, checked + [CompareWarning(d, canonical)])
  }

  /** Appending one entry keeps every earlier entry where it was. */
  lemma EntriesBeforeLast(fs: seq<FieldResult>, checked: seq<FieldResult>, w: FieldResult, d: LabelData, row: ApplicationRow, parsers: Parsers)
    requires fs == checked + [w]
    requires forall i :: 0 <= i < |checked| ==> ComparedEntry(checked[i], d, row, parsers)
    ensures forall i :: 0 <= i < |fs| - 1 ==> ComparedEntry(fs[i], d, row, parsers)
  {
    forall i | 0 <= i < |fs| - 1
      ensures ComparedEntry(fs[i], d, row, parsers)
    {
      assert fs[i] == checked[i];
    }
  }

  /** Every entry before the warning is the comparator's result for its field. */
  lemma CompareFieldsEntries(d: LabelData, row: ApplicationRow, parsers: Parsers, canonical: string, fs: seq<FieldResult>)
    requires fs == CompareFields(d, row, parsers, canonical).fields
    ensures forall i :: 0 <= i < |fs| - 1 ==>
      && fs[i].field != GovernmentWarning
      && ExpectedFor(row, fs[i].field).Some?
      && fs[i] == CompareField(fs[i].field, ExpectedFor(row, fs[i].field).value, d, parsers)
  {
    var checked := RunComparisons(CheckOrder, d, row, parsers);
    RunComparisonsEntries(CheckOrder, d, row, parsers, checked);
    EntriesBeforeLast(fs, checked, CompareWarning(d, canonical), d, row, parsers);
  }

  /** The application fields compared, in strictly increasing rank and never the warning. */
  lemma RequestedInOrder(row: ApplicationRow, req: seq<Field>)
    requires req == Requested(CheckOrder, row)
    ensures forall i, j :: 0 <= i < j < |req| ==> req[i].Rank() < req[j].Rank()
    ensures forall i :: 0 <= i < |req| ==> req[i] != GovernmentWarning
  {
    RequestedOrdered(CheckOrder, row);
  }

  /** Entries come in strictly increasing field order, so no field is reported twice. */
  lemma CompareFieldsOrdered(d: LabelData, row: ApplicationRow, parsers: Parsers, canonical: string, fs: seq<FieldResult>)
    requires fs == CompareFields(d, row, parsers, canonical).fields
    ensures forall i, j :: 0 <= i < j < |fs| ==> fs[i].field.Rank() < fs[j].field.Rank()
  {
    var req := Requested(CheckOrder, row);
    RequestedInOrder(row, req);
    OrderedThenWarning(fs, req);
  }

  /** Entries following `req` in order, then the warning, are in rank order. */
  lemma OrderedThenWarning(fs: seq<FieldResult>, req: seq<Field>)
    requires |fs| == |req| + 1
    requires forall i :: 0 <= i < |req| ==> fs[i].field == req[i] && req[i] != GovernmentWarning
    requires forall i, j :: 0 <= i < j < |req| ==> req[i].Rank() < req[j].Rank()
    requires fs[|req|].field == GovernmentWarning
    ensures forall i, j :: 0 <= i < j < |fs| ==> fs[i].field.Rank() < fs[j].field.Rank()
  {
    forall i, j | 0 <= i < j < |fs| ensures fs[i].field.Rank() < fs[j].field.Rank() {
      if j < |req| {
        assert fs[i].field == req[i] && fs[j].field == req[j];
      } else {
        assert fs[i].field == req[i];
      }
    }
  }

  /** Keeping a subsequence of fields listed in increasing rank keeps them in increasing rank. */
  lemma {:induction false} RequestedOrdered(fs: seq<Field>, row: ApplicationRow)
    requires forall i, j :: 0 <= i < j < |fs| ==> fs[i].Rank() < fs[j].Rank()
    ensures forall i, j :: 0 <= i < j < |Requested(fs, row)| ==>
      Requested(fs, row)[i].Rank() < Requested(fs, row)[j].Rank()
  {
    if fs != [] {
      var tail := fs[1..];
      forall i, j | 0 <= i < j < |tail| ensures tail[i].Rank() < tail[j].Rank() {
        assert tail[i] == fs[i + 1] && tail[j] == fs[j + 1];
      }
      RequestedOrdered(tail, row);
      var rest := Requested(tail, row);
      if ExpectedFor(row, fs[0]).Some? {
        forall k | 0 <= k < |tail| ensures fs[0].Rank() + 1 <= tail[k].Rank() {
          assert tail[k] == fs[k + 1];
        }
        RequestedRanksFrom(tail, row, fs[0].Rank() + 1);
        var r := Requested(fs, row);
        assert r == [fs[0]] + rest;
        forall i, j | 0 <= i < j < |r| ensures r[i].Rank() < r[j].Rank() {
          assert r[j] == rest[j - 1];
          assert fs[0].Rank() + 1 <= rest[j - 1].Rank();
          if i > 0 {
            assert r[i] == rest[i - 1];
          } else {
            assert r[i] == fs[0];
          }
        }
      } else {
        assert Requested(fs, row) == rest;
      }
    }
  }

  /** Every application field is listed in `CheckOrder`, so the row alone decides which are compared. */
  lemma RequestedCoverage(row: ApplicationRow, req: seq<Field>, f: Field)
    requires req == Requested(CheckOrder, row)
    requires f != GovernmentWarning
    ensures f in req <==> ExpectedFor(row, f).Some?
  {
    RequestedMembers(CheckOrder, row, f);
  }

  /** A list of results that lists `req` in order and ends with the warning
      holds a result for a field other than the warning exactly when `req`
      names it. */
  lemma ResultsCoverage(fs: seq<FieldResult>, req: seq<Field>, f: Field)
    requires |fs| == |req| + 1
    requires forall i :: 0 <= i < |req| ==> fs[i].field == req[i]
    requires fs[|req|].field == GovernmentWarning
    requires f != GovernmentWarning
    ensures (exists i :: 0 <= i < |fs| && fs[i].field == f) <==> f in req
  {
    if f in req {
      var k :| 0 <= k < |req| && req[k] == f;
      assert fs[k].field == f;
    }
    if i :| 0 <= i < |fs| && fs[i].field == f {
      assert i < |req|;
      assert req[i] == f;
    }
  }

  /** A field of the application is compared exactly when the row gives a value for it. */
  lemma CompareFieldsCoverage(d: LabelData, row: ApplicationRow, parsers: Parsers, canonical: string, fs: seq<FieldResult>, f: Field)
    requires fs == CompareFields(d, row, parsers, canonical).fields
    requires f != GovernmentWarning
    ensures (exists i :: 0 <= i < |fs| && fs[i].field == f) <==> ExpectedFor(row, f).Some?
  {
    var req := Requested(CheckOrder, row);
    RequestedCoverage(row, req, f);
    ResultsCoverage(fs, req, f);
  }
}
