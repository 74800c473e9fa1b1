/**
 * The records the three cores exchange: the label data the vision
 * extractor returns (one optional value per key of its tool schema), the
 * application row a reviewer supplies for a label, and the health warning
 * statement every label must carry.
 */
module Labels {
  import opened Wrappers

  /** One extracted label. Every key of the extraction dictionary may be
      missing or null; both are `None` here. */
  datatype LabelData = LabelData(
    brandName: Option<string>,
    productType: Option<string>,
    alcoholByVolume: Option<string>,
    netContents: Option<string>,
    countryOfOrigin: Option<string>,
    warningPresent: Option<bool>,
    warningText: Option<string>,
    headerAllCaps: Option<bool>,
    headerBold: Option<bool>,
    sulfitePresent: Option<bool>,
    classType: Option<string>,
    producerName: Option<string>,
    producerAddress: Option<string>,
    rawText: Option<string>)

  /** One row of the application data (form 5100.31) for a single label. */
  datatype ApplicationRow = ApplicationRow(
    labelId: string,
    brandName: Option<string>,
    classType: Option<string>,
    alcoholContent: Option<string>,
    netContents: Option<string>,
    producerName: Option<string>,
    producerAddress: Option<string>)

  /** The health warning statement of 27 CFR 16.21, word for word. */
  const CanonicalWarning: string :=
    "GOVERNMENT WARNING: (1) According to the Surgeon General, women should not "
    + "drink alcoholic beverages during pregnancy because of the risk of birth defects. "
    + "(2) Consumption of alcoholic beverages impairs your ability to drive a car or "
    + "operate machinery, and may cause health problems."

  /** Python truthiness of an optional string: present and non-empty. */
  predicate Given(s: Option<string>) {
    s.Some? && s.value != []
  }

  /** Python truthiness of an optional flag: present and true. */
  predicate IsTrue(b: Option<bool>) {
    b == Some(true)
  }
}
