/** The question editor of the administration pages: the default question id,
    the default options per type, the save rule and the stored options, the
    type labels and the option chips of the preview. */
module QuestionTable {
  import opened Seqs
  import opened JsCore

  /** `'Q' + (questions.length + 1)` */
  function DefaultQuestionId(count: nat): (r: string)
    ensures |r| > 1 && r[0] == 'Q'
  {
    "Q" + NatToString(count + 1)
  }

  /** The number after the 'Q' reads back as one more than the questions listed. */
  lemma DefaultQuestionIdValue(count: nat)
    ensures DigitsValue(DefaultQuestionId(count)[1..]) == count + 1
  {
    assert DefaultQuestionId(count)[1..] == NatToString(count + 1);
    NatToStringValue(count + 1);
  }

  /** Different list lengths propose different ids. */
  lemma DefaultQuestionIdDistinct(m: nat, n: nat)
    requires m != n
    ensures DefaultQuestionId(m) != DefaultQuestionId(n)
  {
    DefaultQuestionIdValue(m);
    DefaultQuestionIdValue(n);
  }

  /** `getDefaultOptions`: the scale points for the scale types, nothing for
      text, and the current input for any other type. */
  function DefaultOptions(questionType: string, current: string): (r: string)
    ensures !FixedOptions(questionType) ==> r == current
    ensures questionType == "text" ==> r == ""
    ensures questionType == "scale_5" || questionType == "scale_7" ==> r != "" && r[0] == '1'
  {
    match questionType
    case "scale_5" => "1,2,3,4,5"
    case "scale_7" => "1,2,3,4,5,6,7"
    case "text" => ""
    case _ => current
  }

  /** The types whose stored options are the defaults. */
  predicate FixedOptions(questionType: string)
  {
    questionType == "scale_5" || questionType == "scale_7" || questionType == "text"
  }

  /** The options stored on save: the default for the scale and text types,
      the trimmed input for the others. */
  function StoredOptions(questionType: string, options: string): (r: string)
    ensures !FixedOptions(questionType) ==> r == Trim(options)
    ensures questionType == "text" ==> r == ""
  {
    if FixedOptions(questionType) then DefaultOptions(questionType, options) else Trim(options)
  }

  /** Scale questions always store their scale points, whatever was typed. */
  lemma ScaleOptionsFixed(options: string, other: string)
    ensures StoredOptions("scale_5", options) == StoredOptions("scale_5", other) == "1,2,3,4,5"
    ensures StoredOptions("scale_7", options) == StoredOptions("scale_7", other) == "1,2,3,4,5,6,7"
  {
  }

  datatype NewQuestion = NewQuestion(questionId: string, category: string, text: string,
                                     questionType: string, options: string, isRequired: bool)

  /** The save rule shared by adding and updating: the id and the text must
      not be blank, and the options must not be blank for any type but text,
      scale types included. */
  predicate Savable(questionId: string, text: string, questionType: string, options: string)
    ensures Savable(questionId, text, questionType, options) ==> !IsBlank(questionId) && !IsBlank(text)
    ensures questionType != "text" && IsBlank(options) ==> !Savable(questionId, text, questionType, options)
    ensures questionType == "text" ==>
              (Savable(questionId, text, questionType, options) <==> !IsBlank(questionId) && !IsBlank(text))
  {
    !IsBlank(questionId) && !IsBlank(text) && (questionType == "text" || !IsBlank(options))
  }

  /** `handleAddQuestion`: the record stored, or nothing for a form the rule refuses. */
  function AddQuestion(questionId: string, category: string, text: string, questionType: string,
                       options: string, isRequired: bool): (r: Option<NewQuestion>)
    ensures r.Some? <==> Savable(questionId, text, questionType, options)
    ensures r.Some? ==> r.value.questionId == Trim(questionId) && r.value.category == Trim(category)
                        && r.value.text == Trim(text) && r.value.questionType == questionType
                        && r.value.options == StoredOptions(questionType, options)
                        && r.value.isRequired == isRequired
  {
    if Trim(questionId) == "" || Trim(text) == "" || (questionType != "text" && Trim(options) == "") then None
    else Some(NewQuestion(Trim(questionId), Trim(category), Trim(text), questionType,
                          StoredOptions(questionType, options), isRequired))
  }

  /** `handleUpdateQuestion`: the same rule, and a question must be open for editing. */
  function UpdateQuestion(editing: bool, questionId: string, category: string, text: string,
                          questionType: string, options: string, isRequired: bool): (r: Option<NewQuestion>)
    ensures r.Some? <==> editing && Savable(questionId, text, questionType, options)
  {
    if !editing then None else AddQuestion(questionId, category, text, questionType, options, isRequired)
  }

  /** A scale question with blank options is refused although its options
      would be replaced by the scale points. */
  lemma ScaleNeedsOptions(questionId: string, category: string, text: string, options: string, isRequired: bool)
    requires IsBlank(options)
    ensures AddQuestion(questionId, category, text, "scale_5", options, isRequired).None?
    ensures AddQuestion(questionId, category, text, "scale_7", options, isRequired).None?
  {
  }

  /** `getQuestionTypeLabel`: the label of the five known types; any other type as it is. */
  function QuestionTypeLabel(t: string): (r: string)
    ensures (t == "single_choice" || t == "multiple_choice" || t == "scale_5" || t == "scale_7" || t == "text") <==> r != t
  {
    match t
    case "single_choice" => "단일 선택"
    case "multiple_choice" => "다중 선택"
    case "scale_5" => "5점 척도"
    case "scale_7" => "7점 척도"
    case "text" => "텍스트"
    case _ => t
  }

  /** The preview chips: shown for a type other than text with some options
      typed, one per comma-separated part, trimmed. */
  function PreviewChips(questionType: string, options: string): (r: seq<string>)
    ensures r == [] <==> questionType == "text" || options == ""
    ensures r != [] ==> |r| == Count(options, ',') + 1
  {
    SplitParts(options, ',');
    if questionType != "text" && options != "" then SplitTrim(options, ',') else []
  }

  /** There is one chip more than there are commas, and every chip is trimmed and comma-free. */
  lemma PreviewChipsShape(questionType: string, options: string)
    requires questionType != "text" && options != ""
    ensures |PreviewChips(questionType, options)| == Count(options, ',') + 1
    ensures forall i :: 0 <= i < |PreviewChips(questionType, options)| ==>
              PreviewChips(questionType, options)[i] == Trim(Split(options, ',')[i])
              && ',' !in PreviewChips(questionType, options)[i]
  {
    SplitParts(options, ',');
    var parts := Split(options, ',');
    forall i | 0 <= i < |parts|
      ensures ',' !in Trim(parts[i])
    {
      TrimWithin(parts[i], ',');
    }
  }

  /** Trimming keeps only characters of the text. */
  lemma TrimWithin(s: string, c: char)
    requires c !in s
    ensures c !in Trim(s)
  {
    TrimStartWithin(s, c);
    TrimEndWithin(TrimStart(s), c);
  }

  lemma {:induction false} TrimStartWithin(s: string, c: char)
    requires c !in s
    ensures c !in TrimStart(s)
    decreases |s|
  {
    if |s| > 0 && IsWhite(s[0]) {
      TrimStartWithin(s[1..], c);
    }
  }

  lemma {:induction false} TrimEndWithin(s: string, c: char)
    requires c !in s
    ensures c !in TrimEnd(s)
    decreases |s|
  {
    if |s| > 0 && IsWhite(s[|s| - 1]) {
      assert forall k :: 0 <= k < |s| - 1 ==> s[..|s| - 1][k] == s[k];
      TrimEndWithin(s[..|s| - 1], c);
    }
  }
}
