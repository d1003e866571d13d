/** The survey-set table of the administration pages: question counts per
    set, the type suggestions and labels, the newest-first ordering of the
    rows, the add/update/copy form rules and the question copy. */
module SurveySetTable {
  import opened Seqs
  import opened JsCore
  import opened JsObject
  import ListChange

  /** The suggested set types, in the order of the suggestion list. */
  const SuggestedTypes: seq<string> := ["demographic", "organizational", "satisfaction", "engagement", "leadership"]

  /** `counts[id] = (counts[id] || 0) + 1` over the fetched question rows, keyed
      by each row's set id: every row counts once, under its own set. */
  method QuestionCounts(setIds: seq<string>) returns (counts: Dict<int>)
    ensures Valid(counts) && SumOf(Counter(counts), counts.order) == |setIds|
    ensures forall id :: Counter(counts)(id) == Count(setIds, id)
  {
    counts := CountKeys(setIds);
    TallyTotal(setIds);
    forall id
      ensures Counter(counts)(id) == Count(setIds, id)
    {
      TallyCount(setIds, id);
    }
  }

  /** `getTypeLabel`: the label of a suggested type; anything else is shown as it is. */
  function TypeLabel(t: string): (r: string)
    ensures t in SuggestedTypes <==> r != t
  {
    match t
    case "demographic" => "인구통계학적"
    case "organizational" => "OCI조직문화"
    case "satisfaction" => "CGS분석"
    case "engagement" => "업무몰입"
    case "leadership" => "리더십"
    case _ => t
  }

  /** `getAllTypes`: the types in use, then the suggested ones, each once. */
  function AllTypes(existing: seq<string>): (r: seq<string>)
    ensures NoDups(r)
    ensures forall t :: t in r <==> t in existing || t in SuggestedTypes
  {
    Distinct(Distinct(existing) + SuggestedTypes)
  }

  /** Every type in use and every suggested type is offered exactly once, and
      the types in use come first, in first-seen order. */
  lemma AllTypesShape(existing: seq<string>)
    ensures NoDups(AllTypes(existing))
    ensures forall t :: t in AllTypes(existing) <==> t in existing || t in SuggestedTypes
    ensures |Distinct(existing)| <= |AllTypes(existing)|
    ensures AllTypes(existing)[..|Distinct(existing)|] == Distinct(existing)
  {
    DistinctPrefix(Distinct(existing), SuggestedTypes);
    DistinctOfNoDups(Distinct(existing));
  }

  // ---------------------------------------------------------------- rows

  datatype SurveySet = SurveySet(id: string, name: string, setType: string, createdAt: int)

  function CreatedAt(s: SurveySet): int
  {
    s.createdAt
  }

  /** The table rows: a sorted copy, newest first, sets created at the same time
      kept in the order they were given (the sort is stable); the list it was
      given is a value and stays as it was. */
  function Rows(sets: seq<SurveySet>): (r: seq<SurveySet>)
    ensures multiset(r) == multiset(sets)
    ensures DescendingBy(r, CreatedAt)
    ensures forall t :: WithKey(r, CreatedAt, t) == WithKey(sets, CreatedAt, t)
  {
    SortDescending(sets, CreatedAt);
    assert forall t :: WithKey(SortDescBy(sets, CreatedAt), CreatedAt, t) == WithKey(sets, CreatedAt, t) by {
      forall t ensures WithKey(SortDescBy(sets, CreatedAt), CreatedAt, t) == WithKey(sets, CreatedAt, t) {
        SortStable(sets, CreatedAt, t);
      }
    }
    SortDescBy(sets, CreatedAt)
  }

  // ---------------------------------------------------------------- forms

  /** `handleAddSurveySet`: a blank name or type is refused; both are stored trimmed. */
  function AddForm(name: string, setType: string): (r: Option<(string, string)>)
    ensures r.None? <==> IsBlank(name) || IsBlank(setType)
    ensures r.Some? ==> r.value == (Trim(name), Trim(setType)) && r.value.0 != "" && r.value.1 != ""
  {
    if Trim(name) == "" || Trim(setType) == "" then None else Some((Trim(name), Trim(setType)))
  }

  /** `handleUpdateSurveySet`: as adding, and a set must be open for editing. */
  function UpdateForm(current: Option<SurveySet>, name: string, setType: string): (r: Option<SurveySet>)
    ensures r.None? <==> IsBlank(name) || IsBlank(setType) || current.None?
    ensures r.Some? ==> r.value.id == current.value.id && r.value.name == Trim(name) && r.value.setType == Trim(setType)
  {
    if Trim(name) == "" || Trim(setType) == "" || current.None? then None
    else Some(current.value.(name := Trim(name), setType := Trim(setType)))
  }

  /** The row `handleUpdateSurveySet` hands to the page's list afterwards: the
      name trimmed, but the type as it was typed. */
  function UpdatedRow(current: SurveySet, name: string, setType: string): (r: SurveySet)
    ensures r.id == current.id && r.name == Trim(name) && r.setType == setType
  {
    current.(name := Trim(name), setType := setType)
  }

  /** A type typed with surrounding white space is stored trimmed, while the
      page's list keeps it untrimmed until the next fetch. */
  lemma UpdatedRowKeepsSpaces(current: SurveySet, name: string, setType: string)
    requires !IsBlank(name) && !IsBlank(setType) && Trim(setType) != setType
    ensures UpdateForm(Some(current), name, setType).Some?
    ensures UpdatedRow(current, name, setType) != UpdateForm(Some(current), name, setType).value
  {
  }

  /** `handleCopyClick`: the proposed name of the copy. */
  function CopyName(original: SurveySet): (r: string)
    ensures StartsWith(r, original.name) && r[|original.name|..] == " (복사본)"
  {
    original.name + " (복사본)"
  }

  /** `handleCopySurveySet`: a blank name is refused; the copy keeps the
      original's type as it is and gets the trimmed name. */
  function CopyForm(original: Option<SurveySet>, newName: string): (r: Option<(string, string)>)
    ensures r.None? <==> original.None? || IsBlank(newName)
    ensures r.Some? ==> r.value == (Trim(newName), original.value.setType)
  {
    if original.None? || Trim(newName) == "" then None else Some((Trim(newName), original.value.setType))
  }

  /** A stored question with the fields the copy reads. */
  datatype Question = Question(setId: string, questionId: string, category: string, text: string,
                               questionType: string, options: string, isRequired: bool)

  /** The copied questions: each question of the original set, re-homed in the new set. */
  function CopyQuestions(qs: seq<Question>, newSetId: string): (r: seq<Question>)
    ensures |r| == |qs|
  {
    seq(|qs|, i requires 0 <= i < |qs| => qs[i].(setId := newSetId))
  }

  /** Only the set id changes, and copying the copy back restores the questions
      of the original set. */
  lemma CopyKeepsFields(qs: seq<Question>, newSetId: string, oldSetId: string)
    ensures forall i :: 0 <= i < |qs| ==> CopyQuestions(qs, newSetId)[i].setId == newSetId
    ensures forall i :: 0 <= i < |qs| ==> CopyQuestions(qs, newSetId)[i].(setId := qs[i].setId) == qs[i]
    ensures (forall i :: 0 <= i < |qs| ==> qs[i].setId == oldSetId) ==>
              CopyQuestions(CopyQuestions(qs, newSetId), oldSetId) == qs
  {
  }

  // ---------------------------------------------------------------- list reducer

  function SetId(s: SurveySet): string
  {
    s.id
  }

  /** `handleSurveySetChange` of the survey-set page. */
  function SurveySetChange(sets: seq<SurveySet>, row: SurveySet, action: string): (r: seq<SurveySet>)
    ensures action == "add" ==> r == sets + [row]
    ensures action == "update" ==> |r| == |sets|
                                   && forall i :: 0 <= i < |r| ==> r[i] == (if sets[i].id == row.id then row else sets[i])
    ensures action == "delete" ==> forall x :: x in r <==> x in sets && x.id != row.id
    ensures action != "add" && action != "update" && action != "delete" ==> r == sets
  {
    ListChange.Change(sets, SetId, row, action)
  }
}
