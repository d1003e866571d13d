/** The per-question and per-category statistics of the item-analysis page
    (src/pages/results/dist/items.js): `processAnswer`, `calculateQuestionStats`,
    `calculateCategoryStats`, `formatQuestionType`, `convertFrequenciesToArray`,
    the respondent counts and `chunkArray`. */
module ItemStats {
  import opened Seqs
  import opened JsCore
  import opened JsObject

  /** A question of the selected survey set, as the statistics pass reads it. */
  datatype Question = Question(id: string, qtype: string, text: string, category: string)

  /** A response row of the selected survey set. */
  datatype Response = Response(questionId: string, userId: string, answer: JsVal)

  /** A normalised answer: a number for scale questions, a string otherwise. */
  datatype Processed = PNum(n: Num) | PStr(s: string)

  predicate IsScale(qtype: string)
  {
    qtype == "scale_5" || qtype == "scale_7"
  }

  predicate IsChoice(qtype: string)
  {
    qtype == "single_choice" || qtype == "multiple_choice"
  }

  predicate IsBreak(c: char)
  {
    c == '\r' || c == '\n'
  }

  /** `s` without its leading run of line breaks. */
  function DropBreaks(s: string): (t: string)
    ensures |t| <= |s|
    ensures |t| > 0 ==> !IsBreak(t[0])
  {
    if |s| > 0 && IsBreak(s[0]) then DropBreaks(s[1..]) else s
  }

  /** `s.replace(/[\r\n]+/g, ' ')`: every run of CR/LF characters becomes one space. */
  function CollapseBreaks(s: string): (t: string)
    ensures |t| <= |s|
    ensures forall i :: 0 <= i < |t| ==> !IsBreak(t[i])
    decreases |s|
  {
    if |s| == 0 then ""
    else if IsBreak(s[0]) then " " + CollapseBreaks(DropBreaks(s[1..]))
    else [s[0]] + CollapseBreaks(s[1..])
  }

  /** A text without line breaks is left as it is. */
  lemma {:induction false} CollapseBreaksNone(s: string)
    requires forall i :: 0 <= i < |s| ==> !IsBreak(s[i])
    ensures CollapseBreaks(s) == s
    decreases |s|
  {
    if |s| > 0 {
      CollapseBreaksNone(s[1..]);
      assert s == [s[0]] + s[1..];
    }
  }

  /** `processAnswer(answer, type)`; `None` is `null`. */
  function ProcessAnswer(answer: JsVal, qtype: string): (r: Option<Processed>)
    ensures r.None? <==> answer.Null? || answer.Undefined? || (IsScale(qtype) && IsNaN(answer))
    ensures r.Some? && IsScale(qtype) ==> r.value.PNum?
    ensures r.Some? && !IsScale(qtype) ==> r.value.PStr?
    ensures r.Some? && IsChoice(qtype) ==> r.value.s == Trim(ToStr(answer))
    ensures r.Some? && qtype == "text" ==> forall i :: 0 <= i < |r.value.s| ==> !IsBreak(r.value.s[i])
  {
    if answer.Null? || answer.Undefined? then None
    else if IsScale(qtype) then
      if IsNaN(answer) then None else Some(PNum(ParseFloat(ToStr(answer))))
    else if IsChoice(qtype) then Some(PStr(Trim(ToStr(answer))))
    else if qtype == "text" then Some(PStr(CollapseBreaks(ToStr(answer))))
    else Some(PStr(ToStr(answer)))
  }

  /** A blank scale answer passes the `isNaN` guard (`Number("")` is 0) but `parseFloat`
      makes it NaN: it is counted, yet left out of the average. */
  lemma BlankScaleAnswerIsNaN()
    ensures ProcessAnswer(Str(""), "scale_5") == Some(PNum(NaN))
  {
  }

  /** Any other type keeps the answer's text unchanged. */
  lemma OtherTypesKeepText(answer: JsVal, qtype: string)
    requires !answer.Null? && !answer.Undefined?
    requires !IsScale(qtype) && !IsChoice(qtype) && qtype != "text"
    ensures ProcessAnswer(answer, qtype) == Some(PStr(ToStr(answer)))
  {
  }

  // ---------------------------------------------------------------- collecting answers

  /** `filteredQuestions.find(q => q.id === qId)` */
  function FindById(qs: seq<Question>, id: string): (r: Option<Question>)
    ensures r.Some? ==> r.value in qs && r.value.id == id
    ensures r.None? ==> forall i :: 0 <= i < |qs| ==> qs[i].id != id
  {
    if |qs| == 0 then None
    else if qs[0].id == id then Some(qs[0])
    else FindById(qs[1..], id)
  }

  /** The processed answer a response contributes, if any. */
  function Kept(qs: seq<Question>, r: Response): Option<Processed>
  {
    match FindById(qs, r.questionId)
    case None => None
    case Some(q) => ProcessAnswer(r.answer, q.qtype)
  }

  /** An entry of `newStats`: first the collected answers, then the statistics. */
  datatype Entry =
    | Pending(answers: seq<Processed>, qtype: string, text: string, category: string)
    | Stat(count: nat, question: string, questionType: string, answers: seq<Processed>, category: string,
           average: Option<real>, frequencies: Option<Dict<int>>)

  /** One response of the `relevantResponses.forEach` pass. */
  function Collect(d: Dict<Entry>, qs: seq<Question>, r: Response): (d': Dict<Entry>)
    ensures (forall k :: k in d.m ==> |d.m[k].answers| > 0) ==> forall k :: k in d'.m ==> |d'.m[k].answers| > 0
  {
    match Kept(qs, r)
    case None => d
    case Some(a) =>
      var q := FindById(qs, r.questionId).value;
      var e := if r.questionId in d.m then d.m[r.questionId] else Pending([], q.qtype, q.text, q.category);
      Put(d, r.questionId, e.(answers := e.answers + [a]))
  }

  function CollectAll(qs: seq<Question>, rs: seq<Response>): (r: Dict<Entry>)
    ensures forall k :: k in r.m ==> |r.m[k].answers| > 0
  {
    if |rs| == 0 then Empty() else Collect(CollectAll(qs, rs[..|rs| - 1]), qs, rs[|rs| - 1])
  }

  /** The processed answers of the responses to question `id`, in response order. */
  function AnswersFor(qs: seq<Question>, rs: seq<Response>, id: string): (as_: seq<Processed>)
    ensures |as_| <= |rs|
  {
    if |rs| == 0 then []
    else
      var r := rs[|rs| - 1];
      AnswersFor(qs, rs[..|rs| - 1], id) + (if r.questionId == id && Kept(qs, r).Some? then [Kept(qs, r).value] else [])
  }

  lemma {:induction false} CollectAllValid(qs: seq<Question>, rs: seq<Response>)
    ensures Valid(CollectAll(qs, rs))
  {
    if |rs| > 0 {
      var d := CollectAll(qs, rs[..|rs| - 1]);
      var r := rs[|rs| - 1];
      CollectAllValid(qs, rs[..|rs| - 1]);
      if Kept(qs, r).Some? {
        var q := FindById(qs, r.questionId).value;
        var e := if r.questionId in d.m then d.m[r.questionId] else Pending([], q.qtype, q.text, q.category);
        PutValid(d, r.questionId, e.(answers := e.answers + [Kept(qs, r).value]));
      }
    }
  }

  /** A question has an entry exactly when one of its responses was kept; the entry
      holds every kept answer in order, and the question's type, text and category. */
  lemma {:induction false} CollectAllEntry(qs: seq<Question>, rs: seq<Response>, id: string)
    ensures id in CollectAll(qs, rs).m <==> |AnswersFor(qs, rs, id)| > 0
    ensures id in CollectAll(qs, rs).m ==> FindById(qs, id).Some?
    ensures id in CollectAll(qs, rs).m ==>
      var q := FindById(qs, id).value;
      CollectAll(qs, rs).m[id] == Pending(AnswersFor(qs, rs, id), q.qtype, q.text, q.category)
  {
    if |rs| > 0 {
      var rs' := rs[..|rs| - 1];
      var r := rs[|rs| - 1];
      CollectAllEntry(qs, rs', id);
      assert AnswersFor(qs, rs, id) == AnswersFor(qs, rs', id)
        + (if r.questionId == id && Kept(qs, r).Some? then [Kept(qs, r).value] else []);
    }
  }

  // ---------------------------------------------------------------- statistics of one question

  /** The values of the non-NaN numeric answers: `answers.filter(a => !isNaN(a))`. */
  function Finite(answers: seq<Processed>): (xs: seq<real>)
    ensures |xs| <= |answers|
  {
    if |answers| == 0 then []
    else
      var a := answers[|answers| - 1];
      Finite(answers[..|answers| - 1]) + (if a.PNum? && a.n.Dec? then [Value(a.n)] else [])
  }

  /** The mean of the non-NaN answers, absent when there are none; `toFixed(2)` is not applied. */
  function Average(answers: seq<Processed>): (avg: Option<real>)
    ensures avg.Some? <==> |Finite(answers)| > 0
  {
    var xs := Finite(answers);
    if |xs| == 0 then None else Some(SumReal(xs) / |xs| as real)
  }

  /** `answer.split(';')` of a choice answer (a number never occurs there). */
  function Segments(a: Processed): seq<string>
  {
    if a.PStr? then Split(a.s, ';') else Split(NumToString(a.n), ';')
  }

  /** Counts every segment of one answer into `d`. */
  function CountSegments(d: Dict<int>, segs: seq<string>): Dict<int>
  {
    if |segs| == 0 then d else Bump(CountSegments(d, segs[..|segs| - 1]), segs[|segs| - 1])
  }

  /** Counting keeps the keys there were and adds the segments, each counted at least once. */
  lemma {:induction false} CountSegmentsKeys(d: Dict<int>, segs: seq<string>)
    requires forall k :: k in d.m ==> d.m[k] >= 1
    ensures forall k :: k in CountSegments(d, segs).m ==> CountSegments(d, segs).m[k] >= 1
    ensures forall k :: k in d.m || k in segs ==> k in CountSegments(d, segs).m
    decreases |segs|
  {
    if |segs| > 0 {
      CountSegmentsKeys(d, segs[..|segs| - 1]);
      assert forall k :: k in segs ==> k in segs[..|segs| - 1] || k == segs[|segs| - 1];
    }
  }

  /** The `frequencies` object after the first answers. */
  function Frequencies(answers: seq<Processed>): (r: Dict<int>)
    ensures forall k :: k in r.m ==> r.m[k] >= 1
    ensures forall i, k :: 0 <= i < |answers| && k in Segments(answers[i]) ==> k in r.m
  {
    if |answers| == 0 then Empty()
    else
      var init, last := answers[..|answers| - 1], answers[|answers| - 1];
      assert answers == init + [last];
      CountedAfter(Frequencies(init), init, last);
      CountSegments(Frequencies(init), Segments(last))
  }

  /** Counting one more answer into the counts of the earlier ones keeps every
      count positive and makes every segment of every answer a key. */
  lemma CountedAfter(prev: Dict<int>, init: seq<Processed>, last: Processed)
    requires forall k :: k in prev.m ==> prev.m[k] >= 1
    requires forall i, k :: 0 <= i < |init| && k in Segments(init[i]) ==> k in prev.m
    ensures forall k :: k in CountSegments(prev, Segments(last)).m ==> CountSegments(prev, Segments(last)).m[k] >= 1
    ensures forall i, k :: 0 <= i < |init + [last]| && k in Segments((init + [last])[i]) ==>
              k in CountSegments(prev, Segments(last)).m
  {
    CountSegmentsKeys(prev, Segments(last));
    forall i, k | 0 <= i < |init + [last]| && k in Segments((init + [last])[i])
      ensures k in CountSegments(prev, Segments(last)).m
    {
      if i < |init| {
        assert (init + [last])[i] == init[i];
      }
    }
  }

  /** The statistics that replace a collected entry with at least one answer. */
  function Finish(e: Entry): (r: Entry)
    ensures |e.answers| > 0 ==> r.Stat? && r.count == |e.answers| && r.answers == e.answers
    ensures |e.answers| == 0 ==> r == e
  {
    if |e.answers| == 0 then e
    else
      var qtype := if e.Pending? then e.qtype else e.questionType;
      var text := if e.Pending? then e.text else e.question;
      Stat(|e.answers|, text, qtype, e.answers, e.category,
           if IsScale(qtype) then Average(e.answers) else None,
           if IsChoice(qtype) then Some(Frequencies(e.answers)) else None)
  }

  /** `newStats` after the `Object.entries(newStats).forEach` pass: same keys, same order. */
  function Summarized(d: Dict<Entry>): (r: Dict<Entry>)
    ensures r.order == d.order && r.m.Keys == d.m.Keys
  {
    Dict(d.order, map k | k in d.m :: Finish(d.m[k]))
  }

  /** What `calculateQuestionStats()` returns. */
  function QuestionStats(qs: seq<Question>, rs: seq<Response>): (r: Dict<Entry>)
    ensures forall k :: k in r.m ==> r.m[k].Stat? && r.m[k].count == |r.m[k].answers| > 0
  {
    Summarized(CollectAll(qs, rs))
  }

  /** A question gets an entry only if at least one of its answers survives
      `processAnswer`, and its `count` is the number of those answers. */
  lemma QuestionStatsEntry(qs: seq<Question>, rs: seq<Response>, id: string)
    ensures id in QuestionStats(qs, rs).m <==> |AnswersFor(qs, rs, id)| > 0
    ensures id in QuestionStats(qs, rs).m ==> FindById(qs, id).Some?
    ensures id in QuestionStats(qs, rs).m ==>
      var s := QuestionStats(qs, rs).m[id];
      var q := FindById(qs, id).value;
      && s.Stat? && s.count == |AnswersFor(qs, rs, id)| && s.answers == AnswersFor(qs, rs, id)
      && s.questionType == q.qtype && s.question == q.text && s.category == q.category
      && (s.average.Some? <==> IsScale(q.qtype) && |Finite(s.answers)| > 0)
      && (s.frequencies.Some? <==> IsChoice(q.qtype))
  {
    CollectAllEntry(qs, rs, id);
  }

  /** Each kept response is one of its question's answers. */
  lemma {:induction false} KeptCounted(qs: seq<Question>, rs: seq<Response>, i: nat)
    requires i < |rs| && Kept(qs, rs[i]).Some?
    ensures Kept(qs, rs[i]).value in AnswersFor(qs, rs, rs[i].questionId)
  {
    var rs' := rs[..|rs| - 1];
    if i < |rs| - 1 {
      assert rs'[i] == rs[i];
      KeptCounted(qs, rs', i);
    }
  }

  // ---------------------------------------------------------------- frequencies and averages

  /** The total of a counter over its insertion order. */
  ghost function Total(d: Dict<int>): int
  {
    SumOf(Counter(d), d.order)
  }

  lemma {:induction false} CountSegmentsTotal(d: Dict<int>, segs: seq<string>)
    requires Valid(d)
    ensures Valid(CountSegments(d, segs))
    ensures Total(CountSegments(d, segs)) == Total(d) + |segs|
  {
    if |segs| > 0 {
      var before := CountSegments(d, segs[..|segs| - 1]);
      CountSegmentsTotal(d, segs[..|segs| - 1]);
      BumpTotal(before, segs[|segs| - 1]);
    }
  }

  /** The number of segments over all answers. */
  function SegmentTotal(answers: seq<Processed>): nat
  {
    if |answers| == 0 then 0 else SegmentTotal(answers[..|answers| - 1]) + |Segments(answers[|answers| - 1])|
  }

  /** The frequencies count every `;`-separated segment of every answer once. */
  lemma {:induction false} FrequenciesTotal(answers: seq<Processed>)
    ensures Valid(Frequencies(answers))
    ensures Total(Frequencies(answers)) == SegmentTotal(answers)
  {
    if |answers| > 0 {
      FrequenciesTotal(answers[..|answers| - 1]);
      CountSegmentsTotal(Frequencies(answers[..|answers| - 1]), Segments(answers[|answers| - 1]));
    }
  }

  /** A text answer has one segment more than it has `;` characters, so there are at
      least as many segments as answers. */
  lemma {:induction false} SegmentTotalOfTexts(answers: seq<Processed>)
    requires forall i :: 0 <= i < |answers| ==> answers[i].PStr?
    ensures SegmentTotal(answers) == SemicolonTotal(answers) + |answers|
    ensures SegmentTotal(answers) >= |answers|
  {
    if |answers| > 0 {
      SegmentTotalOfTexts(answers[..|answers| - 1]);
      SplitParts(answers[|answers| - 1].s, ';');
    }
  }

  /** The number of `;` characters over all text answers. */
  function SemicolonTotal(answers: seq<Processed>): nat
  {
    if |answers| == 0 then 0
    else
      var a := answers[|answers| - 1];
      SemicolonTotal(answers[..|answers| - 1]) + (if a.PStr? then Count(a.s, ';') else 0)
  }

  /** Finishing a choice entry whose answers are texts. */
  lemma FinishFrequencies(e: Entry)
    requires e.Pending? && |e.answers| > 0 && IsChoice(e.qtype)
    requires forall i :: 0 <= i < |e.answers| ==> e.answers[i].PStr?
    ensures var s := Finish(e);
      && s.frequencies.Some? && Valid(s.frequencies.value)
      && Sum(Values(s.frequencies.value)) == SemicolonTotal(s.answers) + s.count
  {
    var f := Frequencies(e.answers);
    FrequenciesTotal(e.answers);
    SumValues(f);
    SegmentTotalOfTexts(e.answers);
  }

  /** For a choice question the `frequencies` values add up to the number of segments,
      Σ (number of `;` + 1) over its answers, which is at least its `count`. */
  lemma ChoiceFrequenciesSum(qs: seq<Question>, rs: seq<Response>, id: string)
    requires id in QuestionStats(qs, rs).m
    requires QuestionStats(qs, rs).m[id].Stat? && QuestionStats(qs, rs).m[id].frequencies.Some?
    ensures var s := QuestionStats(qs, rs).m[id];
      && Valid(s.frequencies.value)
      && Sum(Values(s.frequencies.value)) == SemicolonTotal(s.answers) + s.count
      && Sum(Values(s.frequencies.value)) >= s.count
  {
    CollectAllEntry(qs, rs, id);
    var e := CollectAll(qs, rs).m[id];
    forall i | 0 <= i < |e.answers|
      ensures e.answers[i].PStr?
    {
      AnswerShape(qs, rs, id, i);
    }
    FinishFrequencies(e);
  }

  /** Every collected answer of a question is numeric exactly when the question is a scale. */
  lemma {:induction false} AnswerShape(qs: seq<Question>, rs: seq<Response>, id: string, i: nat)
    requires FindById(qs, id).Some? && i < |AnswersFor(qs, rs, id)|
    ensures AnswersFor(qs, rs, id)[i].PNum? <==> IsScale(FindById(qs, id).value.qtype)
  {
    var rs' := rs[..|rs| - 1];
    if i < |AnswersFor(qs, rs', id)| {
      AnswerShape(qs, rs', id, i);
    }
  }

  lemma {:induction false} SumRealBounds(xs: seq<real>, lo: real, hi: real)
    requires forall i :: 0 <= i < |xs| ==> lo <= xs[i] <= hi
    ensures lo * |xs| as real <= SumReal(xs) <= hi * |xs| as real
  {
    if |xs| > 0 {
      SumRealBounds(xs[..|xs| - 1], lo, hi);
    }
  }

  /** The average lies within any bounds on the non-NaN answers (1..5 for a 5-point scale). */
  lemma AverageWithin(answers: seq<Processed>, lo: real, hi: real)
    requires forall i :: 0 <= i < |Finite(answers)| ==> lo <= Finite(answers)[i] <= hi
    ensures Average(answers).Some? ==> lo <= Average(answers).value <= hi
  {
    var xs := Finite(answers);
    if |xs| > 0 {
      SumRealBounds(xs, lo, hi);
      MeanBounds(SumReal(xs), |xs| as real, lo, hi);
    }
  }

  lemma MeanBounds(total: real, n: real, lo: real, hi: real)
    requires n > 0.0 && lo * n <= total <= hi * n
    ensures lo <= total / n <= hi
  {
    var q := total / n;
    assert q * n == total;
    assert (q - lo) * n >= 0.0;
    assert (hi - q) * n >= 0.0;
  }

  // ---------------------------------------------------------------- the passes as written

  /** `calculateQuestionStats()`: collect the processed answers per question, then
      replace each entry by its statistics. */
  method CalculateQuestionStats(qs: seq<Question>, rs: seq<Response>) returns (newStats: Dict<Entry>)
    ensures newStats == QuestionStats(qs, rs)
  {
    newStats := CollectAnswers(qs, rs);
    CollectAllValid(qs, rs);
    KeysCover(newStats);
    newStats := FinishAll(newStats, Keys(newStats));
  }

  /** The `relevantResponses.forEach` pass. */
  method CollectAnswers(qs: seq<Question>, rs: seq<Response>) returns (newStats: Dict<Entry>)
    ensures newStats == CollectAll(qs, rs)
  {
    newStats := Empty();
    for i := 0 to |rs|
      invariant newStats == CollectAll(qs, rs[..i])
    {
      assert rs[..i + 1][..i] == rs[..i];
      ghost var before := newStats;
      var response := rs[i];
      var qId := response.questionId;
      var question := FindById(qs, qId);
      if question.Some? {
        var processedAnswer := ProcessAnswer(response.answer, question.value.qtype);
        if processedAnswer.Some? {
          if qId !in newStats.m {
            newStats := Put(newStats, qId, Pending([], question.value.qtype, question.value.text, question.value.category));
          }
          var data := newStats.m[qId];
          PutPut(before, qId, data, data.(answers := data.answers + [processedAnswer.value]));
          newStats := Put(newStats, qId, data.(answers := data.answers + [processedAnswer.value]));
        }
      }
      assert newStats == Collect(before, qs, response);
    }
    assert rs[..|rs|] == rs;
  }

  /** The `Object.entries(newStats).forEach` pass over the keys `ks` of `d`. */
  method FinishAll(d: Dict<Entry>, ks: seq<string>) returns (stats: Dict<Entry>)
    requires forall k :: k in ks <==> k in d.m
    ensures stats == Summarized(d)
  {
    stats := d;
    for i := 0 to |ks|
      invariant stats.order == d.order && stats.m.Keys == d.m.Keys
      invariant forall k :: k in d.m ==> stats.m[k] == if k in ks[..i] then Finish(d.m[k]) else d.m[k]
    {
      assert ks[..i + 1] == ks[..i] + [ks[i]];
      var data := d.m[ks[i]];
      if |data.answers| > 0 {
        var e := FinishEntry(data);
        stats := Put(stats, ks[i], e);
      }
    }
    assert ks[..|ks|] == ks;
  }

  /** The statistics of one entry: `count`, the scale average and the choice frequencies. */
  method FinishEntry(data: Entry) returns (r: Entry)
    ensures r == Finish(data)
  {
    if |data.answers| == 0 {
      return data;
    }
    var qtype := if data.Pending? then data.qtype else data.questionType;
    var text := if data.Pending? then data.text else data.question;
    var average := None;
    if IsScale(qtype) {
      average := Average(data.answers);
    }
    var frequencies := None;
    if IsChoice(qtype) {
      var f := CountFrequencies(data.answers);
      frequencies := Some(f);
    }
    r := Stat(|data.answers|, text, qtype, data.answers, data.category, average, frequencies);
  }

  /** The nested `forEach` counting every `;`-separated option of every answer. */
  method CountFrequencies(answers: seq<Processed>) returns (frequencies: Dict<int>)
    ensures frequencies == Frequencies(answers)
  {
    frequencies := Empty();
    for i := 0 to |answers|
      invariant frequencies == Frequencies(answers[..i])
    {
      FrequenciesSnoc(answers, i);
      frequencies := CountOptions(frequencies, Segments(answers[i]));
    }
    assert answers[..|answers|] == answers;
  }

  /** One more answer counts its segments into the frequencies so far. */
  lemma FrequenciesSnoc(answers: seq<Processed>, i: nat)
    requires i < |answers|
    ensures Frequencies(answers[..i + 1]) == CountSegments(Frequencies(answers[..i]), Segments(answers[i]))
  {
    assert answers[..i + 1][..i] == answers[..i];
  }

  /** `options.forEach(option => frequencies[option] = (frequencies[option] || 0) + 1)` */
  method CountOptions(start: Dict<int>, options: seq<string>) returns (frequencies: Dict<int>)
    ensures frequencies == CountSegments(start, options)
  {
    frequencies := start;
    for j := 0 to |options|
      invariant frequencies == CountSegments(start, options[..j])
    {
      assert options[..j + 1][..j] == options[..j];
      var option := options[j];
      frequencies := Put(frequencies, option, (if option in frequencies.m then frequencies.m[option] else 0) + 1);
    }
    assert options[..|options|] == options;
  }

  // ---------------------------------------------------------------- category roll-ups

  /** A question as `calculateCategoryStats` reads it: it looks at both spellings of the
      text, type and category fields; "" stands for a missing (falsy) field. */
  datatype CatQuestion = CatQuestion(id: string, text: string, qtype: string, category: string,
                                     questionText: string, questionType: string, questionCategory: string)

  /** The parts of a question's statistics the roll-up reads. */
  datatype Summary = Summary(count: int, average: JsVal)

  datatype ScaleStat = ScaleStat(id: string, text: string, average: JsVal, count: int)

  datatype CategoryStat = CategoryStat(questionCount: nat, questions: seq<CatQuestion>, scaleStats: seq<ScaleStat>,
                                       typeDistribution: seq<(string, int)>, totalResponses: int)

  /** `question.category || question.question_category || '미분류'` */
  function CategoryOf(q: CatQuestion): string
  {
    if q.category != "" then q.category else if q.questionCategory != "" then q.questionCategory else "미분류"
  }

  /** `q.type || q.question_type || '기타'` */
  function TypeOf(q: CatQuestion): string
  {
    if q.qtype != "" then q.qtype else if q.questionType != "" then q.questionType else "기타"
  }

  predicate IsScaleName(t: string)
  {
    t == "scale" || t == "scale_5" || t == "scale_7"
  }

  predicate IsScaleQuestion(q: CatQuestion)
  {
    IsScaleName(q.qtype) || IsScaleName(q.questionType)
  }

  /** One question of the grouping pass. */
  function Group(d: Dict<seq<CatQuestion>>, q: CatQuestion): Dict<seq<CatQuestion>>
  {
    var c := CategoryOf(q);
    Put(d, c, (if c in d.m then d.m[c] else []) + [q])
  }

  /** `questionsByCategory` */
  function Grouped(qs: seq<CatQuestion>): (r: Dict<seq<CatQuestion>>)
    ensures forall c :: c in r.m ==> |r.m[c]| > 0
  {
    if |qs| == 0 then Empty() else Group(Grouped(qs[..|qs| - 1]), qs[|qs| - 1])
  }

  function GroupSize(d: Dict<seq<CatQuestion>>): string -> int
  {
    c => if c in d.m then |d.m[c]| else 0
  }

  lemma GroupTotal(d: Dict<seq<CatQuestion>>, q: CatQuestion)
    requires Valid(d)
    ensures Valid(Group(d, q))
    ensures SumOf(GroupSize(Group(d, q)), Group(d, q).order) == SumOf(GroupSize(d), d.order) + 1
  {
    var c := CategoryOf(q);
    var f, f' := GroupSize(d), GroupSize(Group(d, q));
    PutValid(d, c, (if c in d.m then d.m[c] else []) + [q]);
    ValidNoDups(d);
    ValidMember(d, c);
    if c in d.m {
      SumOfBump(f, f', d.order, c);
    } else {
      SumOfAgree(f, f', d.order);
      assert (d.order + [c])[..|d.order|] == d.order;
    }
  }

  /** The groups partition the questions: their sizes add up to the number of questions. */
  lemma {:induction false} GroupedTotal(qs: seq<CatQuestion>)
    ensures Valid(Grouped(qs))
    ensures SumOf(GroupSize(Grouped(qs)), Grouped(qs).order) == |qs|
  {
    if |qs| > 0 {
      GroupedTotal(qs[..|qs| - 1]);
      GroupTotal(Grouped(qs[..|qs| - 1]), qs[|qs| - 1]);
    }
  }

  /** Each question sits in the group of its own category, and only there. */
  lemma {:induction false} GroupedMembers(qs: seq<CatQuestion>, q: CatQuestion, c: string)
    ensures q in qs && c == CategoryOf(q) ==> c in Grouped(qs).m && q in Grouped(qs).m[c]
    ensures c in Grouped(qs).m && q in Grouped(qs).m[c] ==> q in qs && CategoryOf(q) == c
  {
    if |qs| > 0 {
      var qs' := qs[..|qs| - 1];
      GroupedMembers(qs', q, c);
      assert qs == qs' + [qs[|qs| - 1]];
    }
  }

  /** `stats[qId].count || 0` summed over the category's questions that have statistics. */
  function TotalResponses(cqs: seq<CatQuestion>, stats: map<string, Summary>): int
  {
    if |cqs| == 0 then 0
    else
      var q := cqs[|cqs| - 1];
      TotalResponses(cqs[..|cqs| - 1], stats) + (if q.id in stats then stats[q.id].count else 0)
  }

  /** `questionText.substring(0, 30) + (questionText.length > 30 ? '...' : '')` */
  function Shorten(text: string): (t: string)
    ensures |t| <= 33
    ensures |text| <= 30 ==> t == text
    ensures |text| > 30 ==> t == text[..30] + "..."
  {
    (if |text| <= 30 then text else text[..30]) + (if |text| > 30 then "..." else "")
  }

  function ScaleStatOf(q: CatQuestion, stats: map<string, Summary>): ScaleStat
  {
    var text := if q.text != "" then q.text else q.questionText;
    var average := if q.id in stats && Truthy(stats[q.id].average) then stats[q.id].average else Number(Dec(0, 0));
    ScaleStat(q.id, Shorten(text), average, if q.id in stats then stats[q.id].count else 0)
  }

  /** `scaleQuestions.map(...)` */
  function ScaleStats(cqs: seq<CatQuestion>, stats: map<string, Summary>): seq<ScaleStat>
  {
    if |cqs| == 0 then []
    else
      var q := cqs[|cqs| - 1];
      ScaleStats(cqs[..|cqs| - 1], stats) + (if IsScaleQuestion(q) then [ScaleStatOf(q, stats)] else [])
  }

  /** The type name of each question, in order. */
  function TypeNames(cqs: seq<CatQuestion>): (ts: seq<string>)
    ensures |ts| == |cqs| && forall i :: 0 <= i < |cqs| ==> ts[i] == TypeOf(cqs[i])
  {
    seq(|cqs|, i requires 0 <= i < |cqs| => TypeOf(cqs[i]))
  }

  /** `typeDistribution` */
  function TypeCounts(cqs: seq<CatQuestion>): Dict<int>
  {
    Tally(TypeNames(cqs))
  }

  function CategoryStatOf(cqs: seq<CatQuestion>, stats: map<string, Summary>): CategoryStat
  {
    TallyTotal(TypeNames(cqs));
    CategoryStat(|cqs|, cqs, ScaleStats(cqs, stats), Entries(TypeCounts(cqs)), TotalResponses(cqs, stats))
  }

  /** The statistics of the category named `c`. */
  function CategoryStatFor(groups: Dict<seq<CatQuestion>>, stats: map<string, Summary>): string -> CategoryStat
  {
    c => CategoryStatOf(if c in groups.m then groups.m[c] else [], stats)
  }

  /** What `calculateCategoryStats(questions, stats)` returns. */
  function CategoryStats(qs: seq<CatQuestion>, stats: map<string, Summary>): (r: Dict<CategoryStat>)
    ensures forall c :: c in r.m ==> exists i :: 0 <= i < |qs| && CategoryOf(qs[i]) == c
    ensures |stats| > 0 ==> forall i :: 0 <= i < |qs| ==> CategoryOf(qs[i]) in r.m
  {
    if |qs| == 0 || |stats| == 0 then Empty()
    else
      var groups := Grouped(qs);
      GroupedTotal(qs);
      GroupedKeys(qs, CategoryStatFor(groups, stats));
      Tabulate(Keys(groups), CategoryStatFor(groups, stats))
  }

  /** A table over the groups has exactly one entry per category of the questions. */
  lemma GroupedKeys<V>(qs: seq<CatQuestion>, f: string -> V)
    ensures Valid(Grouped(qs))
    ensures forall c :: c in Tabulate(Keys(Grouped(qs)), f).m <==> exists i :: 0 <= i < |qs| && CategoryOf(qs[i]) == c
  {
    GroupedTotal(qs);
    var g := Grouped(qs);
    KeysCover(g);
    forall c
      ensures c in Tabulate(Keys(g), f).m <==> exists i :: 0 <= i < |qs| && CategoryOf(qs[i]) == c
    {
      TabulateEntry(Keys(g), f, c);
      if c in g.m {
        var q := g.m[c][0];
        GroupedMembers(qs, q, c);
        var i :| 0 <= i < |qs| && qs[i] == q;
      } else {
        forall i | 0 <= i < |qs|
          ensures CategoryOf(qs[i]) != c
        {
          GroupedMembers(qs, qs[i], c);
        }
      }
    }
  }

  /** No questions or no statistics: the roll-up is `{}`. */
  lemma NoInputNoCategories(qs: seq<CatQuestion>, stats: map<string, Summary>)
    requires |qs| == 0 || |stats| == 0
    ensures CategoryStats(qs, stats).order == [] && CategoryStats(qs, stats).m == map[]
  {
  }

  /** Every category of the roll-up lists exactly the questions filed under it. */
  lemma CategoryMembers(qs: seq<CatQuestion>, stats: map<string, Summary>, q: CatQuestion, c: string)
    requires |qs| > 0 && |stats| > 0
    ensures Valid(CategoryStats(qs, stats))
    ensures q in qs ==> CategoryOf(q) in CategoryStats(qs, stats).m
    ensures c in CategoryStats(qs, stats).m && q in CategoryStats(qs, stats).m[c].questions <==> q in qs && CategoryOf(q) == c
  {
    var groups := Grouped(qs);
    GroupedTotal(qs);
    KeysCover(groups);
    TabulateValid(Keys(groups), CategoryStatFor(groups, stats));
    TabulateEntry(Keys(groups), CategoryStatFor(groups, stats), c);
    TabulateEntry(Keys(groups), CategoryStatFor(groups, stats), CategoryOf(q));
    GroupedMembers(qs, q, c);
    GroupedMembers(qs, q, CategoryOf(q));
  }

  function QuestionCounts(r: Dict<CategoryStat>): string -> int
  {
    c => if c in r.m then r.m[c].questionCount else 0
  }

  /** Summing a per-category figure of the roll-up over its keys is summing the matching
      figure of the groups over theirs. */
  lemma RollupSum(groups: Dict<seq<CatQuestion>>, r: Dict<CategoryStat>, h: string -> int, g: string -> int)
    requires Valid(groups) && Valid(r)
    requires r.order == Keys(groups)
    requires forall i :: 0 <= i < |r.order| ==> h(r.order[i]) == g(r.order[i])
    ensures SumOf(h, Keys(r)) == SumOf(g, groups.order)
  {
    SumOfPermutation(h, Keys(r), r.order);
    SumOfAgree(h, g, Keys(groups));
    SumOfPermutation(g, Keys(groups), groups.order);
  }

  /** The categories' `questionCount`s, over `Object.keys` of the roll-up, add up to the
      number of questions: every question is counted in exactly one category. */
  lemma CategoryQuestionTotal(qs: seq<CatQuestion>, stats: map<string, Summary>)
    requires |qs| > 0 && |stats| > 0
    ensures Valid(CategoryStats(qs, stats))
    ensures SumOf(QuestionCounts(CategoryStats(qs, stats)), Keys(CategoryStats(qs, stats))) == |qs|
  {
    var groups := Grouped(qs);
    GroupedTotal(qs);
    var ks := Keys(groups);
    var r := Tabulate(ks, CategoryStatFor(groups, stats));
    assert CategoryStats(qs, stats) == r;
    TabulateValid(ks, CategoryStatFor(groups, stats));
    forall i | 0 <= i < |ks| ensures QuestionCounts(r)(ks[i]) == GroupSize(groups)(ks[i]) {
      TabulateEntry(ks, CategoryStatFor(groups, stats), ks[i]);
    }
    RollupSum(groups, r, QuestionCounts(r), GroupSize(groups));
  }

  function ResponseTotals(r: Dict<CategoryStat>): string -> int
  {
    c => if c in r.m then r.m[c].totalResponses else 0
  }

  function GroupResponses(d: Dict<seq<CatQuestion>>, stats: map<string, Summary>): string -> int
  {
    c => if c in d.m then TotalResponses(d.m[c], stats) else 0
  }

  lemma GroupResponsesStep(d: Dict<seq<CatQuestion>>, q: CatQuestion, stats: map<string, Summary>)
    requires Valid(d)
    ensures SumOf(GroupResponses(Group(d, q), stats), Group(d, q).order)
         == SumOf(GroupResponses(d, stats), d.order) + (if q.id in stats then stats[q.id].count else 0)
  {
    var c := CategoryOf(q);
    var old_ := if c in d.m then d.m[c] else [];
    var f, f' := GroupResponses(d, stats), GroupResponses(Group(d, q), stats);
    assert (old_ + [q])[..|old_|] == old_;
    assert TotalResponses(old_ + [q], stats) == TotalResponses(old_, stats) + (if q.id in stats then stats[q.id].count else 0);
    ValidNoDups(d);
    ValidMember(d, c);
    if c in d.m {
      SumOfShift(f, f', d.order, c, if q.id in stats then stats[q.id].count else 0);
    } else {
      SumOfAgree(f, f', d.order);
      assert (d.order + [c])[..|d.order|] == d.order;
    }
  }

  lemma {:induction false} GroupedResponses(qs: seq<CatQuestion>, stats: map<string, Summary>)
    ensures SumOf(GroupResponses(Grouped(qs), stats), Grouped(qs).order) == TotalResponses(qs, stats)
  {
    if |qs| > 0 {
      GroupedResponses(qs[..|qs| - 1], stats);
      GroupedTotal(qs[..|qs| - 1]);
      GroupResponsesStep(Grouped(qs[..|qs| - 1]), qs[|qs| - 1], stats);
    }
  }

  /** The categories' `totalResponses` add up to the responses of all questions together. */
  lemma CategoryResponseTotal(qs: seq<CatQuestion>, stats: map<string, Summary>)
    requires |qs| > 0 && |stats| > 0
    ensures Valid(CategoryStats(qs, stats))
    ensures SumOf(ResponseTotals(CategoryStats(qs, stats)), Keys(CategoryStats(qs, stats))) == TotalResponses(qs, stats)
  {
    var groups := Grouped(qs);
    GroupedTotal(qs);
    var ks := Keys(groups);
    var r := Tabulate(ks, CategoryStatFor(groups, stats));
    assert CategoryStats(qs, stats) == r;
    TabulateValid(ks, CategoryStatFor(groups, stats));
    forall i | 0 <= i < |ks| ensures ResponseTotals(r)(ks[i]) == GroupResponses(groups, stats)(ks[i]) {
      TabulateEntry(ks, CategoryStatFor(groups, stats), ks[i]);
    }
    RollupSum(groups, r, ResponseTotals(r), GroupResponses(groups, stats));
    GroupedResponses(qs, stats);
  }

  function Amounts(es: seq<(string, int)>): (r: seq<int>)
    ensures |r| == |es| && forall i :: 0 <= i < |es| ==> r[i] == es[i].1
  {
    seq(|es|, i requires 0 <= i < |es| => es[i].1)
  }

  /** A category's type distribution adds up to its question count. */
  lemma TypeDistributionTotal(cqs: seq<CatQuestion>, stats: map<string, Summary>)
    ensures Sum(Amounts(CategoryStatOf(cqs, stats).typeDistribution)) == CategoryStatOf(cqs, stats).questionCount
  {
    var d := TypeCounts(cqs);
    TallyTotal(TypeNames(cqs));
    var es := Entries(d);
    assert CategoryStatOf(cqs, stats).typeDistribution == es;
    SumValues(d);
    assert Amounts(es) == Values(d);
  }

  /** `scaleStats` holds one entry per scale question of the category and no other. */
  lemma {:induction false} ScaleStatsMembers(cqs: seq<CatQuestion>, stats: map<string, Summary>, q: CatQuestion)
    ensures q in cqs && IsScaleQuestion(q) ==> ScaleStatOf(q, stats) in ScaleStats(cqs, stats)
    ensures forall x :: x in ScaleStats(cqs, stats) ==> |x.text| <= 33 && exists p :: p in cqs && IsScaleQuestion(p) && x == ScaleStatOf(p, stats)
    ensures |ScaleStats(cqs, stats)| <= |cqs|
  {
    if |cqs| > 0 {
      var cqs' := cqs[..|cqs| - 1];
      ScaleStatsMembers(cqs', stats, q);
      assert cqs == cqs' + [cqs[|cqs| - 1]];
    }
  }

  /** `calculateCategoryStats(questions, stats)` */
  method CalculateCategoryStats(qs: seq<CatQuestion>, stats: map<string, Summary>) returns (r: Dict<CategoryStat>)
    ensures r == CategoryStats(qs, stats)
  {
    if |qs| == 0 || |stats| == 0 {
      return Empty();
    }
    var groups := GroupByCategory(qs);
    GroupedTotal(qs);
    var ks := Keys(groups);
    r := BuildCategoryStats(groups, ks, stats);
  }

  /** The `questions.forEach` pass that fills `questionsByCategory`. */
  method GroupByCategory(qs: seq<CatQuestion>) returns (d: Dict<seq<CatQuestion>>)
    ensures d == Grouped(qs)
  {
    d := Empty();
    for i := 0 to |qs|
      invariant d == Grouped(qs[..i])
    {
      GroupedSnoc(qs, i);
      var c := CategoryOf(qs[i]);
      var existing := if c in d.m then d.m[c] else [];
      d := Put(d, c, existing + [qs[i]]);
    }
    assert qs[..|qs|] == qs;
  }

  /** One more question joins the group of its category. */
  lemma GroupedSnoc(qs: seq<CatQuestion>, i: nat)
    requires i < |qs|
    ensures Grouped(qs[..i + 1]) == Group(Grouped(qs[..i]), qs[i])
  {
    assert qs[..i + 1][..i] == qs[..i];
  }

  /** The `Object.keys(questionsByCategory).forEach` pass. */
  method BuildCategoryStats(groups: Dict<seq<CatQuestion>>, ks: seq<string>, stats: map<string, Summary>) returns (r: Dict<CategoryStat>)
    ensures r == Tabulate(ks, CategoryStatFor(groups, stats))
  {
    var f := CategoryStatFor(groups, stats);
    r := Empty();
    for i := 0 to |ks|
      invariant r == Tabulate(ks[..i], f)
    {
      var cqs := if ks[i] in groups.m then groups.m[ks[i]] else [];
      var stat := SummarizeCategory(cqs, stats);
      assert stat == f(ks[i]);
      TabulatePrefix(ks, i, f);
      r := Put(r, ks[i], stat);
    }
    assert ks[..|ks|] == ks;
  }

  /** The body of the per-category pass. */
  method SummarizeCategory(cqs: seq<CatQuestion>, stats: map<string, Summary>) returns (stat: CategoryStat)
    ensures stat == CategoryStatOf(cqs, stats)
  {
    var total := SumResponses(cqs, stats);
    var types := CountKeys(TypeNames(cqs));
    TallyTotal(TypeNames(cqs));
    stat := CategoryStat(|cqs|, cqs, ScaleStats(cqs, stats), Entries(types), total);
  }

  /** `totalResponses += stats[qId].count || 0` over the category's questions. */
  method SumResponses(cqs: seq<CatQuestion>, stats: map<string, Summary>) returns (total: int)
    ensures total == TotalResponses(cqs, stats)
  {
    total := 0;
    for i := 0 to |cqs|
      invariant total == TotalResponses(cqs[..i], stats)
    {
      if cqs[i].id in stats {
        total := total + stats[cqs[i].id].count;
      }
      assert cqs[..i + 1][..i] == cqs[..i];
    }
    assert cqs[..|cqs|] == cqs;
  }

  // ---------------------------------------------------------------- display helpers

  /** `typeMap` of `formatQuestionType`: type name to its Korean label. */
  const TypeLabels: map<string, string> := map[
    "text" := "텍스트", "paragraph" := "문단", "multiple_choice" := "객관식", "checkbox" := "체크박스",
    "scale" := "척도형", "scale_5" := "5점 척도", "scale_7" := "7점 척도", "rating" := "평점",
    "likert" := "리커트", "number" := "숫자", "date" := "날짜", "time" := "시간",
    "single_choice" := "단일 선택", "file" := "파일"]

  /** `formatQuestionType(type)`: "" stands for a falsy type. */
  function FormatQuestionType(t: string): (r: string)
    ensures r != ""
    ensures t != "" && ToLower(t) !in TypeLabels ==> r == t
  {
    if t == "" then "기타"
    else if ToLower(t) in TypeLabels then TypeLabels[ToLower(t)]
    else t
  }

  /** The lookup ignores the case of ASCII letters. */
  lemma FormatIgnoresCase(t: string)
    requires ToLower(t) in TypeLabels
    ensures FormatQuestionType(t) == FormatQuestionType(ToLower(t)) == TypeLabels[ToLower(t)]
  {
    ToLowerIdempotent(t);
  }

  /** The labels hold no ASCII capitals. */
  lemma LabelsLowercase(t: string)
    requires t in TypeLabels.Values || t == "기타"
    ensures ToLower(t) == t
  {
  }

  /** No label is itself a type name, so formatting a label keeps it. */
  lemma LabelsAreFinal(t: string)
    requires t in TypeLabels.Values || t == "기타"
    ensures FormatQuestionType(t) == t
  {
    LabelsLowercase(t);
  }

  /** Formatting twice is formatting once. */
  lemma FormatIdempotent(t: string)
    ensures FormatQuestionType(FormatQuestionType(t)) == FormatQuestionType(t)
  {
    if t != "" && ToLower(t) in TypeLabels {
      LabelsAreFinal(TypeLabels[ToLower(t)]);
    } else if t == "" {
      LabelsAreFinal("기타");
    }
  }

  /** One row of `convertFrequenciesToArray`. */
  datatype FrequencyRow = FrequencyRow(value: string, count: int)

  /** `convertFrequenciesToArray(stats.frequencies)`: `None` for a missing frequencies object. */
  function FrequencyRows(freq: Option<Dict<int>>): (rows: seq<FrequencyRow>)
    requires freq.Some? ==> Valid(freq.value)
    ensures freq.None? ==> rows == []
    ensures freq.Some? ==> |rows| == |Keys(freq.value)|
    ensures freq.Some? ==> forall i :: 0 <= i < |rows| ==> rows[i] == FrequencyRow(Keys(freq.value)[i], freq.value.m[Keys(freq.value)[i]])
  {
    match freq
    case None => []
    case Some(d) =>
      var es := Entries(d);
      seq(|es|, i requires 0 <= i < |es| => FrequencyRow(es[i].0, es[i].1))
  }

  function RowCounts(rows: seq<FrequencyRow>): (r: seq<int>)
    ensures |r| == |rows| && forall i :: 0 <= i < |rows| ==> r[i] == rows[i].count
  {
    seq(|rows|, i requires 0 <= i < |rows| => rows[i].count)
  }

  /** The rows list each answer value once and carry the whole frequency total. */
  lemma FrequencyRowsTotal(d: Dict<int>)
    requires Valid(d)
    ensures NoDups(seq(|FrequencyRows(Some(d))|, i requires 0 <= i < |FrequencyRows(Some(d))| => FrequencyRows(Some(d))[i].value))
    ensures Sum(RowCounts(FrequencyRows(Some(d)))) == Sum(Values(d))
  {
    var rows := FrequencyRows(Some(d));
    assert seq(|rows|, i requires 0 <= i < |rows| => rows[i].value) == Keys(d);
    assert RowCounts(rows) == Values(d);
  }

  /** The answer-value rows of a choice question's card add up to its segment total. */
  lemma ChoiceRowsTotal(e: Entry)
    requires e.Pending? && |e.answers| > 0 && IsChoice(e.qtype)
    requires forall i :: 0 <= i < |e.answers| ==> e.answers[i].PStr?
    ensures Finish(e).frequencies.Some? && Valid(Finish(e).frequencies.value)
    ensures Sum(RowCounts(FrequencyRows(Finish(e).frequencies))) == SemicolonTotal(e.answers) + |e.answers|
  {
    FinishFrequencies(e);
    FrequencyRowsTotal(Finish(e).frequencies.value);
  }

  // ---------------------------------------------------------------- respondents

  /** `new Set(relevantResponses.map(r => r.user_id))`, keyed by the user id text. */
  function UniqueRespondents(userIds: seq<string>): seq<string>
  {
    Distinct(userIds)
  }

  /** `respondentCounts`: the number of responses of each user. */
  function RespondentCounts(userIds: seq<string>): (r: Dict<int>)
    ensures Valid(r)
    ensures SumOf(Counter(r), r.order) == |userIds|
  {
    TallyTotal(userIds);
    Tally(userIds)
  }

  /** Every response is counted for exactly one respondent, and the object's
      insertion order is the order of the unique respondents (`Object.entries`
      reads it in JavaScript key order, `Keys`). */
  lemma RespondentCountsTotal(userIds: seq<string>, u: string)
    ensures Valid(RespondentCounts(userIds))
    ensures SumOf(Counter(RespondentCounts(userIds)), RespondentCounts(userIds).order) == |userIds|
    ensures RespondentCounts(userIds).order == UniqueRespondents(userIds)
    ensures Counter(RespondentCounts(userIds))(u) == Count(userIds, u)
  {
    TallyTotal(userIds);
    TallyOrder(userIds);
    TallyCount(userIds, u);
  }

  /** `lowResponseRespondents`: respondents below 80% of the question count, in
      `Object.entries` order; `count < n * 0.8` is `5 * count < 4 * n`. */
  function LowResponders(counts: Dict<int>, questionCount: nat): (r: seq<(string, int)>)
    requires Valid(counts)
    ensures forall i :: 0 <= i < |r| ==> 5 * r[i].1 < 4 * questionCount && r[i].0 in counts.m && counts.m[r[i].0] == r[i].1
    ensures forall k :: k in counts.m && 5 * counts.m[k] < 4 * questionCount ==> (k, counts.m[k]) in r
  {
    KeysCover(counts);
    LowAmong(Entries(counts), counts, questionCount)
  }

  function LowAmong(es: seq<(string, int)>, counts: Dict<int>, questionCount: nat): (r: seq<(string, int)>)
    requires forall i :: 0 <= i < |es| ==> es[i].0 in counts.m && counts.m[es[i].0] == es[i].1
    ensures forall i :: 0 <= i < |r| ==> 5 * r[i].1 < 4 * questionCount && r[i].0 in counts.m && counts.m[r[i].0] == r[i].1
    ensures forall e :: e in es && 5 * e.1 < 4 * questionCount ==> e in r
  {
    if |es| == 0 then []
    else
      var e := es[|es| - 1];
      var es' := es[..|es| - 1];
      assert es == es' + [e];
      LowAmong(es', counts, questionCount) + (if 5 * e.1 < 4 * questionCount then [e] else [])
  }

  /** Splits `a` into the pieces `a[i..i + size]`, `i = 0, size, 2 * size, ...`: `chunkArray`.
      A size of 0 or less never ends the source's loop on a non-empty array. */
  method ChunkArray<T>(a: seq<T>, size: int) returns (chunks: seq<seq<T>>)
    requires size > 0 || |a| == 0
    ensures Flatten(chunks) == a
    ensures forall j :: 0 <= j < |chunks| ==> 0 < |chunks[j]| && (|chunks[j]| == size || j == |chunks| - 1)
    ensures |a| > 0 ==> |chunks[|chunks| - 1]| <= size
  {
    chunks := [];
    var i := 0;
    while i < |a|
      invariant 0 <= i <= |a|
      invariant Flatten(chunks) == a[..i]
      invariant forall j :: 0 <= j < |chunks| ==> 0 < |chunks[j]| <= size
      invariant forall j :: 0 <= j < |chunks| - 1 ==> |chunks[j]| == size
      invariant |chunks| > 0 && |chunks[|chunks| - 1]| < size ==> i == |a|
      invariant i > 0 ==> |chunks| > 0
      decreases |a| - i
    {
      var end := if i + size <= |a| then i + size else |a|;
      FlattenSnoc(chunks, a[i..end]);
      assert a[..i] + a[i..end] == a[..end];
      chunks := chunks + [a[i..end]];
      i := end;
    }
    assert a[..|a|] == a;
  }

  function Flatten<T>(chunks: seq<seq<T>>): seq<T>
  {
    if |chunks| == 0 then [] else Flatten(chunks[..|chunks| - 1]) + chunks[|chunks| - 1]
  }

  lemma FlattenSnoc<T>(chunks: seq<seq<T>>, c: seq<T>)
    ensures Flatten(chunks + [c]) == Flatten(chunks) + c
  {
    assert (chunks + [c])[..|chunks|] == chunks;
  }
}
