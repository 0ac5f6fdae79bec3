/** Translation of the form service's raw control types into the seven
    canonical field types of the catalog (`normalize_type`). */
module FieldTypes {

  import opened Wrappers

  /** The canonical field types a descriptor can carry. */
  const CanonicalTypes: set<string> :=
    {"full_name", "address", "phone", "date", "number", "enum", "string"}

  /** The raw control types that have a dedicated canonical type, each with
      its translation; every other raw type falls back to "string". */
  const TypeTable: map<string, string> := map[
    "control_fullname" := "full_name",
    "control_address" := "address",
    "control_phone" := "phone",
    "control_datetime" := "date",
    "control_number" := "number",
    "control_spinner" := "number",
    "control_radio" := "enum",
    "control_dropdown" := "enum",
    "control_checkbox" := "enum"
  ]

  /** Canonical type of a question whose raw `type` is `jfType`; `None` is a
      JSON null, which like the empty string falls through to "string". */
  function NormalizeType(jfType: Option<string>): (r: string)
    ensures r in CanonicalTypes
    ensures r == "number" <==> jfType in {Some("control_number"), Some("control_spinner")}
    ensures r == "enum" <==>
      jfType in {Some("control_radio"), Some("control_dropdown"), Some("control_checkbox")}
    ensures r == "string" <==> jfType.None? || jfType.value !in TypeTable
  {
    var t := jfType.GetOr("");
    if t == "control_fullname" then "full_name"
    else if t == "control_address" then "address"
    else if t == "control_phone" then "phone"
    else if t == "control_datetime" then "date"
    else if t in {"control_number", "control_spinner"} then "number"
    else if t in {"control_radio", "control_dropdown", "control_checkbox"} then "enum"
    else "string"
  }

  /** The chain of comparisons agrees with the lookup table: a raw type in
      the table gets its entry, anything else (empty and null included) gets
      "string". */
  lemma NormalizeTypeIsTableLookup(jfType: Option<string>)
    ensures NormalizeType(jfType) ==
      if jfType.Some? && jfType.value in TypeTable then TypeTable[jfType.value] else "string"
  {
  }

  /** There are exactly seven canonical types and every one of them is the
      translation of some raw type. */
  lemma CanonicalTypesAllReached()
    ensures |CanonicalTypes| == 7
    ensures forall c :: c in CanonicalTypes ==> exists t :: NormalizeType(t) == c
  {
    assert NormalizeType(Some("control_fullname")) == "full_name";
    assert NormalizeType(Some("control_address")) == "address";
    assert NormalizeType(Some("control_phone")) == "phone";
    assert NormalizeType(Some("control_datetime")) == "date";
    assert NormalizeType(Some("control_number")) == "number";
    assert NormalizeType(Some("control_radio")) == "enum";
    assert NormalizeType(None) == "string";
  }
}
