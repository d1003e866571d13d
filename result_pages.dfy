/** The per-distribution result pages that load their own data: the category
    page (its category list, its first-set default and its paged answer
    fetch), the demographics page and the correlations page (the sets it
    decorates in place, the participants, the set choice and the category
    lists). */
module ResultPages {
  import opened Seqs
  import opened JsCore
  import opened AnalysisSets
  import AnalysisHooks

  // ---------------------------------------------------------------- category page

  /** The first link's set is chosen when nothing is selected yet. */
  function PageSelection(selected: Option<Key>, links: seq<Link>): (r: Option<Key>)
    ensures (selected.Some? && KeyTruthy(selected.value)) || |links| == 0 ==> r == selected
    ensures !(selected.Some? && KeyTruthy(selected.value)) && |links| > 0 ==> r == Some(links[0].surveySetId)
  {
    if !(selected.Some? && KeyTruthy(selected.value)) && |links| > 0 then Some(links[0].surveySetId) else selected
  }

  function QuestionCategory(q: Question): string
  {
    q.questionCategory
  }

  /** `questions.filter(q => q.survey_set_id == selected).map(q => q.question_category).filter(Boolean)`, each once. */
  function PageCategories(questions: seq<Question>, selected: Key): (r: seq<string>)
    ensures NoDups(r) && "" !in r
    ensures forall c :: c in r <==> exists i :: 0 <= i < |questions| && LooseEq(questions[i].surveySetId, selected)
                                              && questions[i].questionCategory == c && c != ""
  {
    CategoryList(questions, (q: Question) => LooseEq(q.surveySetId, selected), QuestionCategory)
  }

  /** The ids of the questions `fetchResponses` queries for: `q.survey_set_id === surveySetId`. */
  function QueriedQuestions(questions: seq<Question>, surveySetId: Key): (r: seq<Question>)
    ensures forall q :: q in r <==> q in questions && q.surveySetId == surveySetId
  {
    Filter(questions, (q: Question) => StrictEq(q.surveySetId, surveySetId))
  }

  const PageSize: nat := 1000

  /** `.range(page * PAGE_SIZE, (page + 1) * PAGE_SIZE - 1)` over the rows the query selects. */
  function Page<R>(store: seq<R>, page: nat): (r: seq<R>)
    ensures |r| <= PageSize
  {
    var from := if page * PageSize < |store| then page * PageSize else |store|;
    var to := if (page + 1) * PageSize < |store| then (page + 1) * PageSize else |store|;
    store[from..to]
  }

  /** The paging loop: pages are appended until one comes back shorter than a
      full page. */
  method FetchAll<R>(store: seq<R>) returns (all: seq<R>, queries: nat)
    ensures all == store
    ensures queries == |store| / PageSize + 1
  {
    all := [];
    queries := 0;
    var page: nat := 0;
    var hasMore := true;
    while hasMore
      invariant hasMore ==> page * PageSize <= |store| && all == store[..page * PageSize] && queries == page
      invariant !hasMore ==> all == store && queries == |store| / PageSize + 1
      decreases if hasMore then |store| - page * PageSize + 1 else 0
    {
      var data := Page(store, page);
      queries := queries + 1;
      if |data| > 0 {
        assert store[..page * PageSize] + data == store[..page * PageSize + |data|];
        all := all + data;
        page := page + 1;
        hasMore := |data| == PageSize;
        if !hasMore {
          assert page * PageSize - PageSize < |store| < page * PageSize;
          assert all == store[..|store|];
        }
      } else {
        hasMore := false;
        assert |store| == page * PageSize;
        assert all == store[..|store|];
      }
    }
  }

  /** `fetchResponses`: no query at all when no question of the set matches
      strictly; otherwise every page of the selected answers, in order. */
  method FetchResponses(questions: seq<Question>, surveySetId: Key, store: seq<Response>)
    returns (responses: seq<Response>, queries: nat)
    ensures QueriedQuestions(questions, surveySetId) == [] ==> responses == [] && queries == 0
    ensures QueriedQuestions(questions, surveySetId) != [] ==> responses == store && queries == |store| / PageSize + 1
  {
    if |QueriedQuestions(questions, surveySetId)| == 0 {
      return [], 0;
    }
    responses, queries := FetchAll(store);
  }

  /** A question whose set id equals the selection only loosely lists its
      category but is not queried. */
  lemma LooseOnly(q: Question, selected: Key)
    requires LooseEq(q.surveySetId, selected) && !StrictEq(q.surveySetId, selected) && q.questionCategory != ""
    ensures PageCategories([q], selected) == [q.questionCategory]
    ensures QueriedQuestions([q], selected) == []
  {
    var cs := PageCategories([q], selected);
    assert [q][0] == q;
    OnlyMember(cs, q.questionCategory);
  }

  /** A set id kept as the text "7" on the questions and selected as the number
      7 lists the questions' categories, yet its answers are never fetched. */
  lemma LooseCategoriesStrictFetch()
    ensures var q := Question(Some(Text("q1")), "Q1", Text("7"), "리더십", "");
      PageCategories([q], Int(7)) == ["리더십"] && QueriedQuestions([q], Int(7)) == []
  {
    TextAndNumber();
    LooseOnly(Question(Some(Text("q1")), "Q1", Text("7"), "리더십", ""), Int(7));
  }

  // ---------------------------------------------------------------- demographics page

  /** The first demographic-typed set, else the first set; nothing from no sets. */
  function DemographicSetId(rows: seq<SetRow>): (r: Option<Key>)
    ensures r.None? <==> |rows| == 0
  {
    match FirstIndex(rows, IsDemographic)
    case Some(d) => Some(rows[d].id)
    case None => if |rows| == 0 then None else Some(rows[0].id)
  }

  /** The demographic categories, from a demographic-typed set only; `None`
      (the list stays empty) on the fallback. */
  function DemographicCategories(rows: seq<SetRow>, questions: seq<Question>): (r: Option<seq<string>>)
    ensures r.Some? <==> exists i :: 0 <= i < |rows| && IsDemographic(rows[i])
  {
    match FirstIndex(rows, IsDemographic)
    case Some(d) =>
      var id := rows[d].id;
      Some(CategoryList(questions, (q: Question) => StrictEq(q.surveySetId, id), QuestionCategory))
    case None => None
  }

  /** The demographics page picks the set the correlation choice calls demographic. */
  lemma DemographicSetAgrees(rows: seq<SetRow>)
    requires |rows| > 0
    ensures DemographicSetId(rows).value == ChooseSets(rows, RowId, IsDemographic).value.demographic
  {
  }

  // ---------------------------------------------------------------- correlations page

  /** A fetched set object, which the page decorates in place. */
  class FetchedSet {
    const id: Key
    const setType: Option<string>
    var displayOrder: int
    var questions: seq<Question>

    constructor (id: Key, setType: Option<string>)
      ensures this.id == id && this.setType == setType
    {
      this.id := id;
      this.setType := setType;
      displayOrder := -1;
      questions := [];
    }
  }

  /** `questions.filter(q => q.survey_set_id === set.id)` */
  function QuestionsOf(questions: seq<Question>, id: Key): (r: seq<Question>)
    ensures forall q :: q in r <==> q in questions && q.surveySetId == id
  {
    Filter(questions, (q: Question) => StrictEq(q.surveySetId, id))
  }

  /** `surveySetData.map((set, index) => { set.display_order = index; set.questions = …; return set })`:
      every set gets its questions; an object listed twice keeps the last index. */
  method Organize(sets: seq<FetchedSet>, questions: seq<Question>)
    modifies set s | s in sets
    ensures forall i :: 0 <= i < |sets| ==> sets[i].questions == QuestionsOf(questions, sets[i].id)
    ensures forall i :: 0 <= i < |sets| ==> i <= sets[i].displayOrder < |sets| && sets[sets[i].displayOrder] == sets[i]
                                            && forall j :: sets[i].displayOrder < j < |sets| ==> sets[j] != sets[i]
  {
    for k := 0 to |sets|
      invariant forall i :: 0 <= i < k ==> sets[i].questions == QuestionsOf(questions, sets[i].id)
      invariant forall i :: 0 <= i < k ==> i <= sets[i].displayOrder < k && sets[sets[i].displayOrder] == sets[i]
                                           && forall j :: sets[i].displayOrder < j < k ==> sets[j] != sets[i]
    {
      sets[k].displayOrder := k;
      sets[k].questions := QuestionsOf(questions, sets[k].id);
    }
  }

  function SetRowOf(s: FetchedSet): SetRow
    reads s
  {
    SetRow(s.id, "", s.setType)
  }

  datatype PageState = PageState(participants: seq<string>, choice: Option<Choice>,
                                 demographics: Option<seq<string>>, categories: seq<string>)

  /** What the correlations page derives from the fetched sets, questions and
      answers: ids compared strictly, categories read from `question_category` only. */
  function CorrelationsPage(rows: seq<SetRow>, questions: seq<Question>, responses: seq<Response>): (r: PageState)
    ensures r.participants == Participants(responses)
    ensures r.choice == ChooseSets(rows, RowId, IsDemographic)
    ensures r.demographics.Some? <==> r.choice.Some? && r.choice.value.found
  {
    var choice := ChooseSets(rows, RowId, IsDemographic);
    var demographics := if choice.Some? && choice.value.found
      then Some(CategoryList(questions, (q: Question) => StrictEq(q.surveySetId, choice.value.demographic), QuestionCategory))
      else None;
    PageState(Participants(responses), choice, demographics,
              CategoryList(questions, (q: Question) => true, QuestionCategory))
  }

  /** Every demographic category of the page is among all its categories. */
  lemma PageDemographicsAmongCategories(rows: seq<SetRow>, questions: seq<Question>, responses: seq<Response>)
    ensures var st := CorrelationsPage(rows, questions, responses);
      st.demographics.Some? ==> forall c :: c in st.demographics.value ==> c in st.categories
  {
  }

  /** Where the page and the correlation hook over the whole lists (the hook
      as evidently intended) agree: on sets and questions with text ids and no
      legacy `category` field, with answers present, they derive the same
      participants, choice and category lists. */
  lemma PageMatchesHook(rows: seq<SetRow>, questions: seq<Question>, responses: seq<Response>)
    requires |rows| > 0 && |questions| > 0 && |responses| > 0
    requires forall i :: 0 <= i < |rows| ==> rows[i].id.Text?
    requires forall i :: 0 <= i < |questions| ==> questions[i].surveySetId.Text? && questions[i].category == ""
    ensures var p := CorrelationsPage(rows, questions, responses);
      var h := AnalysisHooks.CorrelationDerived(Links(rows), questions, responses).value;
      p.participants == h.participants && p.choice == Some(h.choice)
      && p.demographics == h.demographics && p.categories == h.categories
  {
    LinksChooseAlike(rows);
    var c := ChooseSets(rows, RowId, IsDemographic).value;
    ChooseSetsShape(rows, RowId, IsDemographic);
    CategoryListAgree(questions, (q: Question) => true, QuestionCategory, (q: Question) => true, AnalysisHooks.CategoryOf);
    if c.found {
      var d :| 0 <= d < |rows| && IsDemographic(rows[d]) && c.demographic == rows[d].id;
      CategoryListAgree(questions, (q: Question) => StrictEq(q.surveySetId, c.demographic), QuestionCategory,
                        (q: Question) => StringEq(q.surveySetId, c.demographic), AnalysisHooks.CategoryOf);
    }
  }

  /** The hook as wired agrees with the page when every question and answer
      belongs to the first set, as with a distribution of one set. */
  lemma PageMatchesWiredHook(rows: seq<SetRow>, questions: seq<Question>, responses: seq<Response>)
    requires |rows| > 0 && |questions| > 0 && |responses| > 0
    requires forall i :: 0 <= i < |rows| ==> rows[i].id.Text?
    requires forall i :: 0 <= i < |questions| ==> questions[i].surveySetId == rows[0].id && questions[i].category == ""
    requires forall i :: 0 <= i < |responses| ==> responses[i].surveySetId == rows[0].id
    ensures var p := CorrelationsPage(rows, questions, responses);
      var h := AnalysisHooks.CorrelationHook(Links(rows), questions, responses).value;
      p.participants == h.participants && p.choice == Some(h.choice)
      && p.demographics == h.demographics && p.categories == h.categories
  {
    var selected := AnalysisHooks.FirstSelection(Links(rows));
    assert selected == Some(rows[0].id);
    FilterAll(questions, (q: Question) => KeyString(q.surveySetId) == AnalysisHooks.SelectedText(selected));
    FilterAll(responses, (x: Response) => KeyString(x.surveySetId) == AnalysisHooks.SelectedText(selected));
    PageMatchesHook(rows, questions, responses);
  }

  /** With the demographic set listed second, the hook as wired offers no
      demographic category, while the page offers every category of that set. */
  lemma HookMissesDemographics(rows: seq<SetRow>, questions: seq<Question>, responses: seq<Response>, i: nat)
    requires |rows| >= 2 && !IsDemographic(rows[0]) && IsDemographic(rows[1])
    requires rows[0].id.Text? && rows[1].id.Text? && rows[0].id != rows[1].id
    requires i < |questions| && questions[i].surveySetId == rows[1].id && questions[i].questionCategory != ""
    requires AnalysisHooks.CorrelationHook(Links(rows), questions, responses).Some?
    ensures AnalysisHooks.CorrelationHook(Links(rows), questions, responses).value.demographics == Some([])
    ensures var p := CorrelationsPage(rows, questions, responses);
      p.demographics.Some? && questions[i].questionCategory in p.demographics.value
  {
    SecondSetChosen(rows);
    KeysByText(rows[0].id, rows[1].id);
    AnalysisHooks.CorrelationHookFirstSetOnly(Links(rows), questions, responses);
    PageDemographicsOf(rows, questions, i);
  }

  /** A demographic set listed second, after a set of another type, is the
      demographic choice. */
  lemma SecondSetChosen(rows: seq<SetRow>)
    requires |rows| >= 2 && !IsDemographic(rows[0]) && IsDemographic(rows[1])
    ensures var c := ChooseSets(rows, RowId, IsDemographic).value;
      c.found && c.demographic == rows[1].id
    ensures ChooseSets(Links(rows), LinkSetId, LinkIsDemographic) == ChooseSets(rows, RowId, IsDemographic)
  {
    LinksChooseAlike(rows);
    ChooseSetsShape(rows, RowId, IsDemographic);
    var c := ChooseSets(rows, RowId, IsDemographic).value;
    var d :| 0 <= d < |rows| && IsDemographic(rows[d]) && c.demographic == rows[d].id
             && forall j :: 0 <= j < d ==> !IsDemographic(rows[j]);
    assert d == 1;
  }

  /** The page offers every category of the demographic set's questions. */
  lemma PageDemographicsOf(rows: seq<SetRow>, questions: seq<Question>, i: nat)
    requires |rows| > 0 && ChooseSets(rows, RowId, IsDemographic).value.found
    requires i < |questions| && questions[i].questionCategory != ""
    requires questions[i].surveySetId == ChooseSets(rows, RowId, IsDemographic).value.demographic
    ensures forall responses :: var p := CorrelationsPage(rows, questions, responses);
      p.demographics.Some? && questions[i].questionCategory in p.demographics.value
  {
    assert StrictEq(questions[i].surveySetId, ChooseSets(rows, RowId, IsDemographic).value.demographic);
  }
}
