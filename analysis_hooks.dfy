/** The analysis hooks: the data hook (set links, selection, categories, the
    per-question statistics map and the per-set filters), the correlation
    hook, the demographic hook and the category hook. */
module AnalysisHooks {
  import opened Seqs
  import opened JsCore
  import opened JsObject
  import opened AnalysisSets

  // ---------------------------------------------------------------- data hook

  /** `String(selectedSurveySetId)`; `None` is `null`. */
  function SelectedText(selected: Option<Key>): string
  {
    if selected.Some? then KeyString(selected.value) else "null"
  }

  predicate Chosen(selected: Option<Key>)
  {
    selected.Some? && KeyTruthy(selected.value)
  }

  /** The set whose data is loaded: the current selection when there is one,
      otherwise (with some links) the initial id from the address or the
      first link's set. */
  function InitialSelection(selected: Option<Key>, initial: Option<Key>, links: seq<Link>): (r: Option<Key>)
    ensures Chosen(selected) || |links| == 0 ==> r == selected
    ensures !Chosen(selected) && |links| > 0 ==> r == (if Chosen(initial) then initial else Some(links[0].surveySetId))
  {
    if !Chosen(selected) && |links| > 0 then
      if Chosen(initial) then initial else Some(links[0].surveySetId)
    else selected
  }

  /** Loading again with the selection made keeps it. */
  lemma InitialSelectionStable(selected: Option<Key>, initial: Option<Key>, links: seq<Link>)
    ensures InitialSelection(InitialSelection(selected, initial, links), initial, links)
            == InitialSelection(selected, initial, links)
  {
  }

  /** `q.question_category || q.category || '미분류'` */
  function AnalysisCategory(q: Question): (r: string)
    ensures r != ""
    ensures r == "미분류" <==> (q.questionCategory == "" && q.category == "") || Or(q.questionCategory, q.category) == "미분류"
  {
    Or(Or(q.questionCategory, q.category), "미분류")
  }

  /** The categories of the selected set's questions; nothing is set (`None`)
      when no question came back. */
  function AnalysisCategories(questions: seq<Question>, selected: Option<Key>): (r: Option<seq<string>>)
    ensures r.None? <==> |questions| == 0
    ensures r.Some? ==> NoDups(r.value) && "" !in r.value
    ensures r.Some? ==> forall c :: c in r.value <==>
              exists i :: 0 <= i < |questions| && KeyString(questions[i].surveySetId) == SelectedText(selected)
                          && AnalysisCategory(questions[i]) == c
  {
    if |questions| == 0 then None
    else Some(CategoryList(questions, (q: Question) => KeyString(q.surveySetId) == SelectedText(selected), AnalysisCategory))
  }

  /** `questions.filter((q: Question) => String(q.survey_set_id) === String(selectedSurveySetId))` */
  function SetQuestions(questions: seq<Question>, selected: Option<Key>): (r: seq<Question>)
    ensures forall q :: q in r <==> q in questions && KeyString(q.surveySetId) == SelectedText(selected)
  {
    Filter(questions, (q: Question) => KeyString(q.surveySetId) == SelectedText(selected))
  }

  /** `responses.filter(r => String(r.survey_set_id) === String(selectedSurveySetId))` */
  function SetResponses(responses: seq<Response>, selected: Option<Key>): (r: seq<Response>)
    ensures forall x :: x in r <==> x in responses && KeyString(x.surveySetId) == SelectedText(selected)
  {
    Filter(responses, (x: Response) => KeyString(x.surveySetId) == SelectedText(selected))
  }

  /** The categories offered are those of the questions the hook exposes. */
  lemma CategoriesOfExposed(questions: seq<Question>, selected: Option<Key>)
    requires |questions| > 0
    ensures forall c :: c in AnalysisCategories(questions, selected).value <==>
              exists q :: q in SetQuestions(questions, selected) && AnalysisCategory(q) == c
  {
    var r := AnalysisCategories(questions, selected).value;
    forall c | c in r
      ensures exists q :: q in SetQuestions(questions, selected) && AnalysisCategory(q) == c
    {
      var i :| 0 <= i < |questions| && KeyString(questions[i].surveySetId) == SelectedText(selected)
                && AnalysisCategory(questions[i]) == c;
      assert questions[i] in SetQuestions(questions, selected);
    }
    forall c | exists q :: q in SetQuestions(questions, selected) && AnalysisCategory(q) == c
      ensures c in r
    {
      var q :| q in SetQuestions(questions, selected) && AnalysisCategory(q) == c;
      var i :| 0 <= i < |questions| && questions[i] == q;
    }
  }

  // ---------------------------------------------------------------- statistics map

  /** One row of the items endpoint. */
  datatype Item = Item(questionId: string, responseCount: JsVal, questionText: string, questionType: string,
                       questionCategory: string, avgValue: JsVal, frequencies: Option<Dict<JsVal>>)

  datatype ItemStat = ItemStat(count: int, question: string, questionType: string, category: string,
                               average: Num, frequencies: Dict<JsVal>, frequenciesArray: seq<(string, JsVal)>)

  /** `parseInt(item.response_count) || 0` */
  function CountOf(v: JsVal): (r: int)
    ensures ParseInt(ToStr(v)).NaN? ==> r == 0
  {
    match ParseInt(ToStr(v))
    case Dec(m, _) => m
    case NaN => 0
  }

  /** A count written in decimal digits reads back as that count. */
  lemma CountOfDigits(n: nat)
    ensures CountOf(Str(NatToString(n))) == n
  {
    NatToStringValue(n);
    ParseIntDigits(NatToString(n));
  }

  /** `item.avg_value !== undefined ? parseFloat(item.avg_value) : 0` */
  function AverageOf(v: JsVal): (r: Num)
    ensures v == Undefined ==> r == Dec(0, 0)
  {
    if v == Undefined then Dec(0, 0) else ParseFloat(ToStr(v))
  }

  /** A well-formed item: its frequencies object, when present, is a consistent dictionary. */
  ghost predicate WellFormed(item: Item)
  {
    item.frequencies.Some? ==> Valid(item.frequencies.value)
  }

  /** The entry stored for one item. */
  function StatOf(item: Item): (r: ItemStat)
    requires WellFormed(item)
    ensures r.count == CountOf(item.responseCount) && r.average == AverageOf(item.avgValue)
  {
    var freqs := if item.frequencies.Some? then item.frequencies.value else Empty();
    ItemStat(CountOf(item.responseCount), item.questionText, item.questionType, item.questionCategory,
             AverageOf(item.avgValue), freqs, Entries(freqs))
  }

  /** The frequency rows are the frequencies object's entries: none when the
      object is missing, otherwise one row per key holding that key's count. */
  lemma StatFrequencies(item: Item)
    requires WellFormed(item)
    ensures item.frequencies.None? ==> StatOf(item).frequenciesArray == []
    ensures item.frequencies.Some? ==>
              var f := item.frequencies.value;
              StatOf(item).frequencies == f
              && |StatOf(item).frequenciesArray| == |Keys(f)|
              && forall k :: k in f.m ==> exists i :: 0 <= i < |StatOf(item).frequenciesArray|
                                                     && StatOf(item).frequenciesArray[i] == (k, f.m[k])
  {
    if item.frequencies.Some? {
      var f := item.frequencies.value;
      var es := Entries(f);
      KeysCover(f);
      forall k | k in f.m
        ensures exists i :: 0 <= i < |es| && es[i] == (k, f.m[k])
      {
        var i :| 0 <= i < |Keys(f)| && Keys(f)[i] == k;
        assert es[i] == (k, f.m[k]);
      }
    } else {
      assert Keys(Empty<JsVal>()) == [];
    }
  }

  function QuestionIds(items: seq<Item>): (r: seq<string>)
    ensures |r| == |items| && forall i :: 0 <= i < |items| ==> r[i] == items[i].questionId
  {
    seq(|items|, i requires 0 <= i < |items| => items[i].questionId)
  }

  function ItemStats(items: seq<Item>): (r: seq<ItemStat>)
    requires forall i :: 0 <= i < |items| ==> WellFormed(items[i])
    ensures |r| == |items| && forall i :: 0 <= i < |items| ==> r[i] == StatOf(items[i])
  {
    seq(|items|, i requires 0 <= i < |items| && WellFormed(items[i]) => StatOf(items[i]))
  }

  /** The map after every item has been stored under its question id. */
  function StatsMap(items: seq<Item>): Dict<ItemStat>
    requires forall i :: 0 <= i < |items| ==> WellFormed(items[i])
  {
    Store(QuestionIds(items), ItemStats(items))
  }

  /** `items.forEach(item => { statsMap[item.question_id] = … })` */
  method BuildStatsMap(items: seq<Item>) returns (stats: Dict<ItemStat>)
    requires forall i :: 0 <= i < |items| ==> WellFormed(items[i])
    ensures stats == StatsMap(items)
  {
    stats := StoreAll(QuestionIds(items), ItemStats(items));
  }

  /** One entry per question id of the items. */
  lemma StatsMapKeys(items: seq<Item>)
    requires forall i :: 0 <= i < |items| ==> WellFormed(items[i])
    ensures Valid(StatsMap(items))
    ensures forall k :: k in StatsMap(items).m <==> exists i :: 0 <= i < |items| && items[i].questionId == k
  {
    var ids, vals := QuestionIds(items), ItemStats(items);
    StoreValid(ids, vals);
    StoreKeys(ids, vals);
    assert forall k :: k in ids <==> exists i :: 0 <= i < |items| && items[i].questionId == k;
  }

  /** Each entry holds the last item with its question id. */
  lemma StatsMapLast(items: seq<Item>, i: nat)
    requires forall i :: 0 <= i < |items| ==> WellFormed(items[i])
    requires i < |items| && forall j :: i < j < |items| ==> items[j].questionId != items[i].questionId
    ensures items[i].questionId in StatsMap(items).m
    ensures StatsMap(items).m[items[i].questionId] == StatOf(items[i])
  {
    var ids, vals := QuestionIds(items), ItemStats(items);
    assert forall j :: i < j < |ids| ==> ids[j] != ids[i];
    StoreLast(ids, vals, i);
  }

  // ---------------------------------------------------------------- correlation hook

  /** `q.question_category || q.category` */
  function CategoryOf(q: Question): string
  {
    Or(q.questionCategory, q.category)
  }

  datatype CorrelationState = CorrelationState(participants: seq<string>, choice: Choice,
                                               demographics: Option<seq<string>>, categories: seq<string>)

  /** What the correlation hook derives; nothing unless sets, questions and
      answers are all there. `demographics` is `None` (left as it was) when no
      set is demographic-typed. */
  function CorrelationDerived(links: seq<Link>, questions: seq<Question>, responses: seq<Response>)
    : (r: Option<CorrelationState>)
    ensures r.None? <==> |links| == 0 || |questions| == 0 || |responses| == 0
    ensures r.Some? ==> r.value.participants == Participants(responses)
                        && Some(r.value.choice) == ChooseSets(links, LinkSetId, LinkIsDemographic)
                        && (r.value.demographics.Some? <==> r.value.choice.found)
  {
    if |links| == 0 || |questions| == 0 || |responses| == 0 then None
    else
      var choice := ChooseSets(links, LinkSetId, LinkIsDemographic).value;
      var demo := choice.demographic;
      var demographics := if choice.found
        then Some(CategoryList(questions, (q: Question) => StringEq(q.surveySetId, demo), CategoryOf))
        else None;
      Some(CorrelationState(Participants(responses), choice, demographics,
                            CategoryList(questions, (q: Question) => true, CategoryOf)))
  }

  /** Every demographic category offered is also among all categories. */
  lemma DemographicsAmongCategories(links: seq<Link>, questions: seq<Question>, responses: seq<Response>)
    requires CorrelationDerived(links, questions, responses).Some?
    ensures var st := CorrelationDerived(links, questions, responses).value;
      st.demographics.Some? ==> forall c :: c in st.demographics.value ==> c in st.categories
  {
  }

  /** The selection the analysis hooks load with: neither the correlation
      hook nor the demographic hook passes an initial id, and neither exposes
      a way to change the selection, so it is the first link's set. */
  function FirstSelection(links: seq<Link>): (r: Option<Key>)
    ensures |links| > 0 ==> r == Some(links[0].surveySetId)
  {
    InitialSelection(None, None, links)
  }

  /** `useCorrelationAnalysis` as wired: the data hook hands it only the
      questions and answers of the selected set. */
  function CorrelationHook(links: seq<Link>, questions: seq<Question>, responses: seq<Response>)
    : (r: Option<CorrelationState>)
  {
    var selected := FirstSelection(links);
    CorrelationDerived(links, SetQuestions(questions, selected), SetResponses(responses, selected))
  }

  /** The wired hook sees the first set only: every category it offers and
      every participant it lists come from that set, and a demographic set
      other than the first is chosen but offers no category. */
  lemma CorrelationHookFirstSetOnly(links: seq<Link>, questions: seq<Question>, responses: seq<Response>)
    requires CorrelationHook(links, questions, responses).Some?
    ensures var st := CorrelationHook(links, questions, responses).value;
      var first := KeyString(links[0].surveySetId);
      && (forall c :: c in st.categories ==>
            exists q :: q in questions && KeyString(q.surveySetId) == first && CategoryOf(q) == c)
      && (forall u :: u in st.participants ==>
            exists x :: x in responses && KeyString(x.surveySetId) == first && x.userId == u)
      && (st.choice.found && KeyString(st.choice.demographic) != first ==> st.demographics == Some([]))
  {
    var selected := FirstSelection(links);
    var qs, rs := SetQuestions(questions, selected), SetResponses(responses, selected);
    var st := CorrelationDerived(links, qs, rs).value;
    var first := KeyString(links[0].surveySetId);
    forall c | c in st.categories
      ensures exists q :: q in questions && KeyString(q.surveySetId) == first && CategoryOf(q) == c
    {
      var i :| 0 <= i < |qs| && CategoryOf(qs[i]) == c;
      assert qs[i] in qs;
    }
    forall u | u in st.participants
      ensures exists x :: x in responses && KeyString(x.surveySetId) == first && x.userId == u
    {
      var i :| 0 <= i < |rs| && rs[i].userId == u;
      assert rs[i] in rs;
    }
    if st.choice.found && KeyString(st.choice.demographic) != first {
      var demo := st.choice.demographic;
      var ds := CategoryList(qs, (q: Question) => StringEq(q.surveySetId, demo), CategoryOf);
      forall i | 0 <= i < |qs|
        ensures !StringEq(qs[i].surveySetId, demo)
      {
        assert qs[i] in qs;
      }
      CategoryListNone(qs, (q: Question) => StringEq(q.surveySetId, demo), CategoryOf);
    }
  }

  // ---------------------------------------------------------------- demographic hook

  datatype DemographicState = DemographicState(demographicSetId: Key, demographics: Option<seq<string>>)

  /** What the demographic hook derives; nothing unless sets and questions are
      there. The fallback to the first set leaves the categories as they were. */
  function DemographicDerived(links: seq<Link>, questions: seq<Question>): (r: Option<DemographicState>)
    ensures r.None? <==> |links| == 0 || |questions| == 0
  {
    if |links| == 0 || |questions| == 0 then None
    else
      var found := FirstIndex(links, LinkIsDemographic);
      if found.Some? then
        var id := links[found.value].surveySetId;
        Some(DemographicState(id, Some(CategoryList(questions, (q: Question) => StringEq(q.surveySetId, id), CategoryOf))))
      else Some(DemographicState(links[0].surveySetId, None))
  }

  /** With answers present, the demographic hook and the correlation hook pick
      the same demographic set and offer the same demographic categories. */
  lemma HooksAgree(links: seq<Link>, questions: seq<Question>, responses: seq<Response>)
    requires |links| > 0 && |questions| > 0 && |responses| > 0
    ensures var d := DemographicDerived(links, questions).value;
      var c := CorrelationDerived(links, questions, responses).value;
      d.demographicSetId == c.choice.demographic && d.demographics == c.demographics
  {
  }

  // ---------------------------------------------------------------- category hook

  /** `getCategoryQuestions` */
  function CategoryQuestions(questions: seq<Question>, category: string): (r: seq<Question>)
    ensures forall q :: q in r <==> q in questions && CategoryOf(q) == category
  {
    Filter(questions, (q: Question) => CategoryOf(q) == category)
  }

  /** `q.id || q.question_id` */
  function QuestionKey(q: Question): Key
  {
    if q.id.Some? && KeyTruthy(q.id.value) then q.id.value else Text(q.questionId)
  }

  function QuestionKeys(qs: seq<Question>): (r: seq<Key>)
    ensures |r| == |qs| && forall i :: 0 <= i < |qs| ==> r[i] == QuestionKey(qs[i])
  {
    seq(|qs|, i requires 0 <= i < |qs| => QuestionKey(qs[i]))
  }

  /** `getCategoryResponses` */
  function CategoryResponses(questions: seq<Question>, responses: seq<Response>, category: string): (r: seq<Response>)
  {
    var keys := QuestionKeys(CategoryQuestions(questions, category));
    Filter(responses, (x: Response) => x.questionId in keys)
  }

  /** An answer is kept exactly when it answers a question of the category. */
  lemma CategoryResponsesMeaning(questions: seq<Question>, responses: seq<Response>, category: string)
    ensures forall x :: x in CategoryResponses(questions, responses, category) <==>
              x in responses && exists q :: q in questions && CategoryOf(q) == category && QuestionKey(q) == x.questionId
  {
    var cq := CategoryQuestions(questions, category);
    var keys := QuestionKeys(cq);
    forall x | x in responses && x.questionId in keys
      ensures exists q :: q in questions && CategoryOf(q) == category && QuestionKey(q) == x.questionId
    {
      var i :| 0 <= i < |keys| && keys[i] == x.questionId;
      assert cq[i] in cq;
    }
    forall x, q | x in responses && q in questions && CategoryOf(q) == category && QuestionKey(q) == x.questionId
      ensures x.questionId in keys
    {
      var i :| 0 <= i < |cq| && cq[i] == q;
    }
  }

  /** Two different categories never share a question. */
  lemma CategoriesDisjoint(questions: seq<Question>, c1: string, c2: string)
    requires c1 != c2
    ensures forall q :: q in CategoryQuestions(questions, c1) ==> q !in CategoryQuestions(questions, c2)
  {
  }

  /** A category without questions has no answers. */
  lemma NoQuestionsNoResponses(questions: seq<Question>, responses: seq<Response>, category: string)
    requires CategoryQuestions(questions, category) == []
    ensures CategoryResponses(questions, responses, category) == []
  {
    assert QuestionKeys(CategoryQuestions(questions, category)) == [];
    FilterNone(responses, (x: Response) => x.questionId in QuestionKeys(CategoryQuestions(questions, category)));
  }
}
