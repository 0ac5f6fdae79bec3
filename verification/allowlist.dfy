/** The optional allow-list of form ids: parsing it from its comma-separated
    configuration value, admitting a single form id, and filtering the list of
    forms returned by the form service. */
module AllowList {

  import opened Wrappers
  import Seqs
  import Text

  /** Why a form-scoped request is refused before any call to the service. */
  datatype Refusal = NotAllowed(formId: string)

  /** A form object as listed by the form service: its `id` and its
      remaining attributes, passed through untouched. The `id` is `None`
      when it is absent, null, a number or a boolean: such a value is never
      equal to a listed string. Array and object ids are not represented. */
  datatype Form = Form(id: Option<string>, attributes: map<string, string>)

  /** The allow-list held in the comma-separated configuration value `raw`
      (empty when the value is unset): the stripped, non-empty pieces. */
  function Parse(raw: string): (allowed: set<string>)
    ensures forall id :: id in allowed ==> id != "" && Text.Strip(id) == id
    ensures forall id :: id in allowed <==>
      id != "" && exists j :: 0 <= j < |Text.Split(raw, ',')| && Text.Strip(Text.Split(raw, ',')[j]) == id
  {
    var pieces := Text.Split(raw, ',');
    var ids := Text.TrimmedNonEmpty(pieces);
    forall id ensures id in ids <==> id != "" && exists j :: 0 <= j < |pieces| && Text.Strip(pieces[j]) == id {
      Text.TrimmedNonEmptyMember(pieces, id);
    }
    set id | id in ids
  }

  /** `check_allowed`: a form id is refused exactly when the allow-list is
      non-empty and does not contain it; an empty allow-list admits every id. */
  function CheckAllowed(allowed: set<string>, formId: string): (r: Outcome<Refusal>)
    ensures r.Pass? <==> allowed == {} || formId in allowed
    ensures r.Fail? ==> r.error == NotAllowed(formId)
  {
    if allowed != {} && formId !in allowed then Fail(NotAllowed(formId)) else Pass
  }

  /** Whether a listed form is shown under a non-empty allow-list. */
  function Listed(allowed: set<string>): Form -> bool {
    (f: Form) => f.id.Some? && f.id.value in allowed
  }

  /** The forms `list_forms` returns from the service's list: all of them when
      the allow-list is empty, otherwise those whose id is on it, in order. */
  function FilterForms(allowed: set<string>, forms: seq<Form>): (r: seq<Form>)
    ensures allowed == {} ==> r == forms
    ensures allowed != {} ==>
      forall k :: 0 <= k < |r| ==> r[k].id.Some? && r[k].id.value in allowed
    ensures forall k :: 0 <= k < |r| ==> r[k] in forms
  {
    if allowed == {} then forms else Seqs.Filter(forms, Listed(allowed))
  }

  /** Under a non-empty allow-list, the filtered list is the order-preserving
      subsequence of exactly the forms with an allowed id: the k-th result is
      the form at the k-th kept position, positions ascend, and a position is
      kept if and only if its form's id is on the list. */
  lemma {:induction false} FilterFormsSelects(allowed: set<string>, forms: seq<Form>)
    requires allowed != {}
    ensures var r, idx := FilterForms(allowed, forms), Seqs.Kept(forms, Listed(allowed));
      && |r| == |idx|
      && Seqs.Ascending(idx)
      && (forall k :: 0 <= k < |idx| ==> r[k] == forms[idx[k]])
      && (forall j :: 0 <= j < |forms| ==>
            (j in idx <==> forms[j].id.Some? && forms[j].id.value in allowed))
  {
    Seqs.FilterSelects(forms, Listed(allowed));
  }

  /** The list filter and the per-form check agree: a form with an id is
      listed exactly when `check_allowed` would admit that id, and a form
      without an id is listed only when there is no allow-list. */
  lemma FilterFormsAgreesWithCheck(allowed: set<string>, forms: seq<Form>)
    ensures forall f :: f in FilterForms(allowed, forms) <==>
      f in forms && (allowed == {} || (f.id.Some? && CheckAllowed(allowed, f.id.value).Pass?))
  {
    if allowed != {} {
      FilterFormsSelects(allowed, forms);
      var r, idx := FilterForms(allowed, forms), Seqs.Kept(forms, Listed(allowed));
      forall f | f in forms && f.id.Some? && f.id.value in allowed
        ensures f in r
      {
        var j :| 0 <= j < |forms| && forms[j] == f;
        var k :| 0 <= k < |idx| && idx[k] == j;
        assert r[k] == f;
      }
    }
  }

  /** Every allowed form that the service lists is shown once per listing:
      the filter neither drops nor duplicates admitted forms. */
  lemma FilterFormsCount(allowed: set<string>, forms: seq<Form>, f: Form)
    ensures multiset(FilterForms(allowed, forms))[f] ==
      if allowed == {} || Listed(allowed)(f) then multiset(forms)[f] else 0
  {
    if allowed != {} {
      Seqs.FilterCount(forms, Listed(allowed), f);
    }
  }

  /** Parsing inverts writing the list out: joining stripped, non-empty,
      comma-free ids with commas and parsing the result yields exactly those
      ids. */
  lemma {:induction false} ParseJoin(ids: seq<string>)
    requires forall k :: 0 <= k < |ids| ==> ids[k] != "" && Text.Strip(ids[k]) == ids[k]
    requires forall k :: 0 <= k < |ids| ==> ',' !in ids[k]
    ensures Parse(Text.Join(ids, ',')) == set id | id in ids
  {
    if |ids| == 0 {
      assert Text.Split("", ',') == [""];
      Text.StripCharsKeepsStripped("", Text.Whitespace);
      Text.TrimmedNonEmptyMember([""], "");
    } else {
      Text.SplitJoin(ids, ',');
      Text.TrimmedNonEmptyKeepsClean(ids);
    }
  }

  /** An unset or blank configuration value means no allow-list at all, so
      every form id is admitted. */
  lemma {:induction false} BlankParsesEmpty(raw: string)
    requires forall k :: 0 <= k < |raw| ==> raw[k] in Text.Whitespace
    ensures Parse(raw) == {}
    ensures forall id :: CheckAllowed(Parse(raw), id).Pass?
  {
    SplitNoSepWhitespace(raw);
    Text.LeadLenExact(raw, Text.Whitespace, |raw|);
    assert Text.Strip(raw) == "";
  }

  /** A string of whitespace has no comma, so it is a single piece. */
  lemma SplitNoSepWhitespace(raw: string)
    requires forall k :: 0 <= k < |raw| ==> raw[k] in Text.Whitespace
    ensures Text.Split(raw, ',') == [raw]
  {
    assert ',' !in Text.Whitespace;
    Text.SplitNoSep(raw, ',');
  }
}
