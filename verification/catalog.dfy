/** The `catalog` endpoint's normalisation: one descriptor per question of a
    form, with the label falling back to the question's key, the canonical
    field type, and the list of choices for choice questions. */
module Catalog {

  import opened Wrappers
  import Seqs
  import Text
  import FieldTypes

  /** The `options` property of a question: a `|`-delimited string, a list
      of choices, or anything else (absent, null, a number, ...). */
  datatype OptionsValue = PipeString(s: string) | OptionList(items: seq<string>) | NoOptions

  /** A question object as returned by the form service, with its id.
      `text` and `jfType` are `None` for JSON null, and a missing `type` or
      `name` reads as "". `options` is `NoOptions` when `properties` is
      missing or falsy, or has no string or list `options` entry. */
  datatype Question = Question(
    qid: string,
    name: string,
    text: Option<string>,
    jfType: Option<string>,
    options: OptionsValue)

  /** A catalog field descriptor. `choices` is the `enum` entry: `None` is
      JSON null. */
  datatype Descriptor = Descriptor(
    qid: string,
    key: string,
    displayLabel: string,
    jfType: Option<string>,
    canonical: string,
    choices: Option<seq<string>>)

  /** The question text when it is present and non-empty, otherwise its key. */
  function Label(q: Question): (l: string)
    ensures l == q.name || (q.text.Some? && l == q.text.value)
    ensures l == q.name <==> q.text.None? || q.text.value == "" || q.text.value == q.name
    ensures l == "" ==> q.name == ""
  {
    if q.text.Some? && q.text.value != "" then q.text.value else q.name
  }

  /** The choices carried by an `options` value: the stripped, non-empty
      segments of a `|`-delimited string, the stripped, non-empty entries of
      a list, or none for any other value. */
  function ExtractOptions(v: OptionsValue): (r: Option<seq<string>>)
    ensures r.None? <==> v.NoOptions?
    ensures r.Some? ==> forall k :: 0 <= k < |r.value| ==>
      r.value[k] != "" && Text.Strip(r.value[k]) == r.value[k]
  {
    match v
    case PipeString(s) => Some(Text.TrimmedNonEmpty(Text.Split(s, '|')))
    case OptionList(items) => Some(Text.TrimmedNonEmpty(items))
    case NoOptions => None
  }

  /** The descriptor built for one question. */
  function Describe(q: Question): (d: Descriptor)
    ensures d.canonical in FieldTypes.CanonicalTypes
    ensures d.choices.Some? ==> d.canonical == "enum"
    ensures d.choices.Some? <==>
      q.jfType in {Some("control_radio"), Some("control_dropdown"), Some("control_checkbox")}
      && !q.options.NoOptions?
  {
    var canonical := FieldTypes.NormalizeType(q.jfType);
    Descriptor(
      q.qid, q.name, Label(q), q.jfType, canonical,
      if canonical == "enum" then ExtractOptions(q.options) else None)
  }

  /** The `fields` list of the catalog: exactly one descriptor per question,
      in the order the service lists the questions. */
  method BuildCatalog(qs: seq<Question>) returns (out: seq<Descriptor>)
    ensures |out| == |qs|
    ensures forall i :: 0 <= i < |qs| ==>
      && out[i].qid == qs[i].qid
      && out[i].key == qs[i].name
      && out[i].jfType == qs[i].jfType
      && out[i].canonical == FieldTypes.NormalizeType(qs[i].jfType)
    ensures forall i :: 0 <= i < |qs| ==>
      out[i].displayLabel == if qs[i].text.Some? && qs[i].text.value != "" then qs[i].text.value else qs[i].name
    ensures forall i :: 0 <= i < |qs| ==>
      out[i].choices == if out[i].canonical == "enum" then ExtractOptions(qs[i].options) else None
  {
    out := [];
    var i := 0;
    while i < |qs|
      invariant 0 <= i <= |qs|
      invariant |out| == i
      invariant forall k :: 0 <= k < i ==> out[k] == Describe(qs[k])
    {
      out := out + [Describe(qs[i])];
      i := i + 1;
    }
  }

  /** Choices from a `|`-delimited string are the order-preserving
      subsequence of its stripped segments with the empty ones removed. */
  lemma {:induction false} PipeOptionsSelect(s: string)
    ensures var segs := Text.Split(s, '|');
      var r, idx := ExtractOptions(PipeString(s)).value, Seqs.Kept(Text.StripEach(segs), Text.NonEmpty);
      && |r| == |idx|
      && Seqs.Ascending(idx)
      && (forall k :: 0 <= k < |idx| ==> idx[k] < |segs| && r[k] == Text.Strip(segs[idx[k]]))
      && (forall j :: 0 <= j < |segs| ==> (j in idx <==> Text.Strip(segs[j]) != ""))
  {
    Text.TrimmedNonEmptySelects(Text.Split(s, '|'));
  }

  /** Choices from a list are the order-preserving subsequence of its
      stripped entries with the empty ones removed. */
  lemma ListOptionsSelect(items: seq<string>)
    ensures var r, idx := ExtractOptions(OptionList(items)).value, Seqs.Kept(Text.StripEach(items), Text.NonEmpty);
      && |r| == |idx|
      && Seqs.Ascending(idx)
      && (forall k :: 0 <= k < |idx| ==> idx[k] < |items| && r[k] == Text.Strip(items[idx[k]]))
      && (forall j :: 0 <= j < |items| ==> (j in idx <==> Text.Strip(items[j]) != ""))
  {
    Text.TrimmedNonEmptySelects(items);
  }

  /** Choices are not deduplicated: a choice appears once for every segment
      or entry that strips to it. */
  lemma {:induction false} OptionsKeepDuplicates(v: OptionsValue, c: string)
    requires !v.NoOptions? && c != ""
    ensures multiset(ExtractOptions(v).value)[c] ==
      match v
      case PipeString(s) => multiset(Text.StripEach(Text.Split(s, '|')))[c]
      case OptionList(items) => multiset(Text.StripEach(items))[c]
  {
    match v
    case PipeString(s) => Text.TrimmedNonEmptyCount(Text.Split(s, '|'), c);
    case OptionList(items) => Text.TrimmedNonEmptyCount(items, c);
  }
  /** A choice as it would be written by hand: non-empty, without outer
      whitespace and without the `|` delimiter. */
  predicate PlainChoice(x: string) {
    x != "" && Text.Stripped(x, Text.Whitespace) && '|' !in x
  }

  /** The segments of "a | b |c" keep their spaces. */
  lemma SplitSpacedChoices(a: string, b: string, c: string)
    requires PlainChoice(a) && PlainChoice(b) && PlainChoice(c)
    ensures Text.Split(a + " | " + b + " |" + c, '|') == [a + " ", " " + b + " ", c]
  {
    var segs := [a + " ", " " + b + " ", c];
    Text.JoinCons(" " + b + " ", [c], '|');
    Text.JoinCons(a + " ", [" " + b + " ", c], '|');
    assert Text.Join(segs, '|') == (a + " ") + "|" + ((" " + b + " ") + "|" + c);
    assert a + " | " + b + " |" + c == (a + " ") + "|" + ((" " + b + " ") + "|" + c);
    Text.SplitJoin(segs, '|');
  }

  /** Stripping those segments leaves the plain choices. */
  lemma StripSpacedChoices(a: string, b: string, c: string)
    requires PlainChoice(a) && PlainChoice(b) && PlainChoice(c)
    ensures Text.StripEach([a + " ", " " + b + " ", c]) == [a, b, c]
  {
    Text.StripTrailingSpace(a);
    Text.StripSurroundingSpaces(b);
    Text.StripCharsKeepsStripped(c, Text.Whitespace);
    Text.StripEachThree(a + " ", " " + b + " ", c);
  }

  /** Segments are stripped and order kept: the options string "a | b |c"
      gives the choices a, b, c (for instance "Red | Blue |Green" gives Red,
      Blue, Green). */
  lemma SpacedPipeOptions(a: string, b: string, c: string)
    requires PlainChoice(a) && PlainChoice(b) && PlainChoice(c)
    ensures ExtractOptions(PipeString(a + " | " + b + " |" + c)) == Some([a, b, c])
  {
    SplitSpacedChoices(a, b, c);
    StripSpacedChoices(a, b, c);
    Seqs.FilterKeepsAll([a, b, c], Text.NonEmpty);
  }

  /** Stripping the list a, "", " b " leaves a, "", b. */
  lemma StripListItems(a: string, b: string)
    requires PlainChoice(a) && PlainChoice(b)
    ensures Text.StripEach([a, "", " " + b + " "]) == [a, "", b]
  {
    Text.StripCharsKeepsStripped(a, Text.Whitespace);
    Text.StripCharsKeepsStripped("", Text.Whitespace);
    Text.StripSurroundingSpaces(b);
    Text.StripEachThree(a, "", " " + b + " ");
  }

  /** Dropping the empty entry of a, "", b leaves a, b. */
  lemma FilterListItems(a: string, b: string)
    requires a != "" && b != ""
    ensures Seqs.Filter([a, "", b], Text.NonEmpty) == [a, b]
  {
    var xs := [a, "", b];
    assert xs[1..] == ["", b] && xs[1..][1..] == [b] && xs[1..][1..][1..] == [];
    assert Text.NonEmpty(a) && !Text.NonEmpty("") && Text.NonEmpty(b);
    assert Seqs.Filter([b], Text.NonEmpty) == [b];
    assert Seqs.Filter(["", b], Text.NonEmpty) == [b];
  }

  /** List entries are stripped and empty ones dropped: the list a, "", " b "
      gives a, b (for instance A, "", " B " gives A, B). */
  lemma ListOptionsDropEmpty(a: string, b: string)
    requires PlainChoice(a) && PlainChoice(b)
    ensures ExtractOptions(OptionList([a, "", " " + b + " "])) == Some([a, b])
  {
    StripListItems(a, b);
    FilterListItems(a, b);
  }

  /** "a|a" splits into two copies of a. */
  lemma RepeatedSegments(a: string)
    requires PlainChoice(a)
    ensures Text.Split(a + "|" + a, '|') == [a, a]
  {
    Text.JoinCons(a, [a], '|');
    Text.SplitJoin([a, a], '|');
  }

  /** Trimming keeps both copies of a plain choice. */
  lemma RepeatedTrimmed(a: string)
    requires PlainChoice(a)
    ensures Text.TrimmedNonEmpty([a, a]) == [a, a]
  {
    Text.StripCharsKeepsStripped(a, Text.Whitespace);
    Text.TrimmedNonEmptyKeepsClean([a, a]);
  }

  /** Repeated choices survive: "a|a" gives a twice. */
  lemma RepeatedChoiceKept(a: string)
    requires PlainChoice(a)
    ensures ExtractOptions(PipeString(a + "|" + a)) == Some([a, a])
  {
    RepeatedSegments(a);
    RepeatedTrimmed(a);
  }

  /** A form with one choice question and one free-text question yields
      exactly two descriptors, with choices only on the choice question. */
  method TwoQuestionCatalog(choice: Question, free: Question) returns (out: seq<Descriptor>)
    requires choice.jfType == Some("control_radio") && choice.options.PipeString?
    requires free.jfType == Some("control_textbox")
    ensures |out| == 2
    ensures out[0].canonical == "enum" && out[0].choices.Some?
    ensures out[1].canonical == "string" && out[1].choices.None?
  {
    assert "control_textbox" !in FieldTypes.TypeTable;
    out := BuildCatalog([choice, free]);
  }
}
