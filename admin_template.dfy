/** The CSV template the results administration page writes for a distribution:
    instruction lines, the header of question ids, the row of shortened question
    texts, and one row per respondent with their latest answers (or numbered
    sample rows when nobody has answered yet). */
module AdminTemplate {
  import opened Seqs
  import opened JsCore
  import opened JsObject
  import opened AdminResults
  import ItemStats

  datatype Question = Question(id: string, text: string)

  /** A stored response; an empty `submittedAt` stands for a missing one. */
  datatype Response = Response(userId: string, questionId: string, answer: string, submittedAt: string)

  /** The question the template uses when the sets have none. */
  const SampleQuestion: Question := Question("sample-question-id", "샘플 질문입니다.")

  function QuestionList(qs: seq<Question>): (r: seq<Question>)
    ensures |r| > 0
    ensures |qs| > 0 ==> r == qs
  {
    if |qs| == 0 then [SampleQuestion] else qs
  }

  // ---------------------------------------------------------------- header lines

  /** A line the reader drops. */
  function Comment(text: string): string
  {
    "#" + text
  }

  const Instructions: seq<string> := [
    Comment(" 설문 결과 템플릿 - 작성 안내"),
    Comment(" 1. 응답자ID 열은 고유한 값으로 유지해야 합니다. 각 참여자마다 다른 ID를 사용하세요."),
    Comment(" 2. 타임스탬프는 ISO 형식(YYYY-MM-DDTHH:MM:SS)으로 입력하거나 ##########를 그대로 두세요."),
    Comment(" 3. 각 질문에 대한 응답을 해당 열에 입력하세요."),
    Comment(" 4. 이 행들은 업로드 시 무시됩니다. (앞의 # 기호를 제거하지 마세요)"),
    Comment("")
  ]

  /** Every instruction line is a comment line, which the reader drops. */
  lemma InstructionsAreComments()
    ensures forall i :: 0 <= i < |Instructions| ==> StartsWith(Instructions[i], "#")
  {
    forall i | 0 <= i < |Instructions|
      ensures StartsWith(Instructions[i], "#")
    {
      var l := Instructions[i];
      assert l == "#" + l[1..];
      HashLine(l);
    }
  }

  lemma HashLine(l: string)
    requires |l| > 0 && l[0] == '#'
    ensures StartsWith(l, "#")
  {
    assert l[..1] == [l[0]];
  }

  function Ids(qs: seq<Question>): (r: seq<string>)
    ensures |r| == |qs| && forall i :: 0 <= i < |qs| ==> r[i] == qs[i].id
  {
    seq(|qs|, i requires 0 <= i < |qs| => qs[i].id)
  }

  function HeaderCells(qs: seq<Question>): seq<string>
  {
    ["respondent_id", "timestamp"] + Ids(qs)
  }

  /** A question text as a column title: escaped like an answer, cut to 30
      characters with `...` after a longer text, and always quoted. */
  function ColumnTitle(text: string): (t: string)
    ensures 2 <= |t| <= 35
    ensures t[0] == '"' && t[|t| - 1] == '"'
  {
    "\"" + ItemStats.Shorten(SafeAnswer(text)) + "\""
  }

  function TitleCells(qs: seq<Question>): (r: seq<string>)
    ensures |r| == 2 + |qs|
    ensures forall i :: 2 <= i < |r| ==> r[i] == ColumnTitle(qs[i - 2].text)
  {
    ["응답자ID", "타임스탬프"] + seq(|qs|, i requires 0 <= i < |qs| => ColumnTitle(qs[i].text))
  }

  // ---------------------------------------------------------------- grouping the responses

  /** One response added to `userResponses`: the user's object is created when
      missing, and the answer is stored under the question. */
  function AnswerStep(d: Dict<Dict<string>>, r: Response): Dict<Dict<string>>
  {
    var inner := if r.userId in d.m then d.m[r.userId] else Empty();
    Put(d, r.userId, Put(inner, r.questionId, r.answer))
  }

  /** `userResponses` after the responses in order. */
  function UserAnswers(rs: seq<Response>): Dict<Dict<string>>
  {
    if |rs| == 0 then Empty() else AnswerStep(UserAnswers(rs[..|rs| - 1]), rs[|rs| - 1])
  }

  /** `new Date(a) > new Date(b)`; an unreadable date compares false. */
  predicate Later(time: string -> Option<int>, a: string, b: string)
  {
    time(a).Some? && time(b).Some? && time(a).value > time(b).value
  }

  /** One response added to `userTimestamps`: a missing or empty stored time is
      replaced, otherwise only a strictly later one replaces it. */
  function TimeStep(d: Dict<string>, r: Response, time: string -> Option<int>): Dict<string>
  {
    if r.userId !in d.m || d.m[r.userId] == "" || Later(time, r.submittedAt, d.m[r.userId])
    then Put(d, r.userId, r.submittedAt)
    else d
  }

  /** `userTimestamps` after the responses in order. */
  function UserTimes(rs: seq<Response>, time: string -> Option<int>): Dict<string>
  {
    if |rs| == 0 then Empty() else TimeStep(UserTimes(rs[..|rs| - 1], time), rs[|rs| - 1], time)
  }

  /** The body of the grouping loop for one response. */
  method AddResponse(answers: Dict<Dict<string>>, times: Dict<string>, r: Response, time: string -> Option<int>)
    returns (answers': Dict<Dict<string>>, times': Dict<string>)
    ensures answers' == AnswerStep(answers, r) && times' == TimeStep(times, r, time)
  {
    answers' := answers;
    if r.userId !in answers'.m {
      answers' := Put(answers', r.userId, Empty());
    }
    answers' := Put(answers', r.userId, Put(answers'.m[r.userId], r.questionId, r.answer));
    times' := times;
    if r.userId !in times'.m || times'.m[r.userId] == "" || Later(time, r.submittedAt, times'.m[r.userId]) {
      times' := Put(times', r.userId, r.submittedAt);
    }
  }

  /** The grouping loop. */
  method GroupResponses(rs: seq<Response>, time: string -> Option<int>)
    returns (answers: Dict<Dict<string>>, times: Dict<string>)
    ensures answers == UserAnswers(rs) && times == UserTimes(rs, time)
  {
    answers, times := Empty(), Empty();
    for i := 0 to |rs|
      invariant answers == UserAnswers(rs[..i]) && times == UserTimes(rs[..i], time)
    {
      assert rs[..i + 1][..i] == rs[..i];
      answers, times := AddResponse(answers, times, rs[i], time);
    }
    assert rs[..|rs|] == rs;
  }

  /** The last response of user `u` to question `q`. */
  function LastResponse(rs: seq<Response>, u: string, q: string): (r: Option<nat>)
    ensures r.Some? ==> r.value < |rs| && rs[r.value].userId == u && rs[r.value].questionId == q
    ensures r.Some? ==> forall j :: r.value < j < |rs| ==> !(rs[j].userId == u && rs[j].questionId == q)
    ensures r.None? ==> forall j :: 0 <= j < |rs| ==> !(rs[j].userId == u && rs[j].questionId == q)
  {
    if |rs| == 0 then None
    else if rs[|rs| - 1].userId == u && rs[|rs| - 1].questionId == q then Some(|rs| - 1)
    else LastResponse(rs[..|rs| - 1], u, q)
  }

  /** User `u` has a response among `rs`. */
  predicate Answered(rs: seq<Response>, u: string)
  {
    |rs| > 0 && (rs[|rs| - 1].userId == u || Answered(rs[..|rs| - 1], u))
  }

  /** `Answered` holds exactly when some response is the user's. */
  lemma {:induction false} AnsweredIff(rs: seq<Response>, u: string)
    ensures Answered(rs, u) <==> exists j :: 0 <= j < |rs| && rs[j].userId == u
    decreases |rs|
  {
    if |rs| > 0 {
      var n := |rs| - 1;
      var rs' := rs[..n];
      AnsweredIff(rs', u);
      if rs[n].userId != u {
        if Answered(rs, u) {
          var j :| 0 <= j < |rs'| && rs'[j].userId == u;
          assert rs[j] == rs'[j];
        } else {
          forall j | 0 <= j < n
            ensures rs[j].userId != u
          {
            assert rs[j] == rs'[j];
          }
        }
      }
    }
  }

  /** A user is listed exactly when they have a response. */
  lemma {:induction false} UserAnswersUsers(rs: seq<Response>, u: string)
    ensures u in UserAnswers(rs).m <==> Answered(rs, u)
    decreases |rs|
  {
    if |rs| > 0 {
      UserAnswersUsers(rs[..|rs| - 1], u);
    }
  }

  /** The template keeps, per user and question, the answer of the last response. */
  lemma {:induction false} UserAnswersLast(rs: seq<Response>, u: string, q: string)
    requires u in UserAnswers(rs).m
    ensures q in UserAnswers(rs).m[u].m <==> LastResponse(rs, u, q).Some?
    ensures q in UserAnswers(rs).m[u].m ==> UserAnswers(rs).m[u].m[q] == rs[LastResponse(rs, u, q).value].answer
    decreases |rs|
  {
    var n := |rs| - 1;
    var rs' := rs[..n];
    if rs[n].userId != u {
      UserAnswersLast(rs', u, q);
    } else if rs[n].questionId != q && u in UserAnswers(rs').m {
      UserAnswersLast(rs', u, q);
    } else if rs[n].questionId != q {
      UserAnswersUsers(rs', u);
      AnsweredIff(rs', u);
      assert LastResponse(rs', u, q).None?;
    }
  }

  /** Stored times are readable dates, and an empty time is not. */
  predicate Readable(rs: seq<Response>, time: string -> Option<int>)
  {
    time("").None? && forall j :: 0 <= j < |rs| && rs[j].submittedAt != "" ==> time(rs[j].submittedAt).Some?
  }

  /** A user has a stored time exactly when they have a response. */
  lemma {:induction false} UserTimesUsers(rs: seq<Response>, time: string -> Option<int>, u: string)
    ensures u in UserTimes(rs, time).m <==> Answered(rs, u)
    decreases |rs|
  {
    if |rs| > 0 {
      UserTimesUsers(rs[..|rs| - 1], time, u);
    }
  }

  /** The stored time of a user is the time of one of their responses. */
  lemma {:induction false} UserTimesFrom(rs: seq<Response>, time: string -> Option<int>, u: string)
    requires u in UserTimes(rs, time).m
    ensures exists j :: 0 <= j < |rs| && rs[j].userId == u && rs[j].submittedAt == UserTimes(rs, time).m[u]
    decreases |rs|
  {
    var n := |rs| - 1;
    var rs' := rs[..n];
    if UserTimes(rs, time) != UserTimes(rs', time) || rs[n].userId != u {
      if rs[n].userId != u || UserTimes(rs, time).m[u] != rs[n].submittedAt {
        UserTimesFrom(rs', time, u);
        var j :| 0 <= j < |rs'| && rs'[j].userId == u && rs'[j].submittedAt == UserTimes(rs', time).m[u];
        assert rs[j] == rs'[j];
      }
    } else {
      UserTimesFrom(rs', time, u);
      var j :| 0 <= j < |rs'| && rs'[j].userId == u && rs'[j].submittedAt == UserTimes(rs', time).m[u];
      assert rs[j] == rs'[j];
    }
  }

  /** With readable times, the stored time of a user is at least the time of each
      of their responses that has one: the template keeps the latest time. */
  lemma {:induction false} UserTimesLatest(rs: seq<Response>, time: string -> Option<int>, u: string, j: nat)
    requires Readable(rs, time)
    requires j < |rs| && rs[j].userId == u && rs[j].submittedAt != ""
    ensures u in UserTimes(rs, time).m
    ensures UserTimes(rs, time).m[u] != "" && time(UserTimes(rs, time).m[u]).Some?
    ensures time(rs[j].submittedAt).value <= time(UserTimes(rs, time).m[u]).value
    decreases |rs|
  {
    var n := |rs| - 1;
    var rs' := rs[..n];
    var d' := UserTimes(rs', time);
    var r := rs[n];
    assert Readable(rs', time) by {
      assert forall k :: 0 <= k < |rs'| ==> rs'[k] == rs[k];
    }
    if j == n {
      if r.userId in d'.m && d'.m[u] != "" && !Later(time, r.submittedAt, d'.m[u]) {
        UserTimesFrom(rs', time, u);
        var k :| 0 <= k < |rs'| && rs'[k].userId == u && rs'[k].submittedAt == d'.m[u];
        assert rs[k] == rs'[k];
      }
    } else {
      assert rs'[j] == rs[j];
      UserTimesLatest(rs', time, u, j);
    }
  }

  // ---------------------------------------------------------------- rows

  /** `userResponses[userId][question.id] || ''` */
  function AnswerCell(answers: Dict<Dict<string>>, u: string, q: string): string
  {
    if u in answers.m && q in answers.m[u].m then answers.m[u].m[q] else ""
  }

  function AnswerCells(answers: Dict<Dict<string>>, u: string, qs: seq<Question>): (r: seq<string>)
    ensures |r| == |qs| && forall i :: 0 <= i < |qs| ==> r[i] == AnswerCell(answers, u, qs[i].id)
  {
    seq(|qs|, i requires 0 <= i < |qs| => AnswerCell(answers, u, qs[i].id))
  }

  /** The placeholder written when a respondent has no time. */
  const NoTime: string := "##########"

  /** The time cell of a user: the ISO form of the stored time, the placeholder
      without one, and nothing when the ISO conversion throws. */
  function TimeCell(times: Dict<string>, u: string, iso: string -> Option<string>): (r: Option<string>)
    ensures r.None? ==> u in times.m && iso(times.m[u]).None?
    ensures u !in times.m ==> r == Some(NoTime)
  {
    if u in times.m && times.m[u] != "" then iso(times.m[u]) else Some(NoTime)
  }

  /** One respondent's line: id, time and every escaped answer. */
  function DataLine(u: string, time: string, cells: seq<string>): (r: string)
    ensures |r| > |u| && r[..|u| + 1] == u + ","
  {
    Join([u, time] + FormatAll(cells), ",")
  }

  /** The lines of the users, in order; nothing when a time cannot be written. */
  function DataLines(users: seq<string>, answers: Dict<Dict<string>>, times: Dict<string>, qs: seq<Question>,
                     iso: string -> Option<string>): (r: Option<seq<string>>)
    ensures r.Some? ==> |r.value| == |users|
    ensures (forall t :: iso(t).Some?) ==> r.Some?
  {
    if |users| == 0 then Some([])
    else
      var u := users[|users| - 1];
      match DataLines(users[..|users| - 1], answers, times, qs, iso)
      case None => None
      case Some(lines) =>
        match TimeCell(times, u, iso)
        case None => None
        case Some(t) => Some(lines + [DataLine(u, t, AnswerCells(answers, u, qs))])
  }

  /** `respondent_${String(i + 1).padStart(3, '0')}` */
  function SampleId(i: nat): string
  {
    var digits := NatToString(i + 1);
    "respondent_" + (if |digits| < 3 then Zeros(3 - |digits|) else "") + digits
  }

  /** `distribution.target_participants || 5`, as a length. */
  function SampleCount(target: int): nat
  {
    if target == 0 then 5 else if target < 0 then 0 else target
  }

  function SampleLine(i: nat, qs: seq<Question>): string
  {
    Join([SampleId(i), NoTime] + seq(|qs|, _ => ""), ",")
  }

  function SampleLines(n: nat, qs: seq<Question>): (r: seq<string>)
    ensures |r| == n && forall i :: 0 <= i < n ==> r[i] == SampleLine(i, qs)
  {
    seq(n, i requires 0 <= i < n => SampleLine(i, qs))
  }

  // ---------------------------------------------------------------- the whole template

  lemma {:induction false} UserAnswersValid(rs: seq<Response>)
    ensures Valid(UserAnswers(rs))
    decreases |rs|
  {
    if |rs| > 0 {
      var d := UserAnswers(rs[..|rs| - 1]);
      var r := rs[|rs| - 1];
      UserAnswersValid(rs[..|rs| - 1]);
      var inner := if r.userId in d.m then d.m[r.userId] else Empty();
      PutValid(d, r.userId, Put(inner, r.questionId, r.answer));
    }
  }

  /** The template text for the questions and stored responses, or nothing when
      a stored time cannot be written in ISO form. */
  function TemplateOf(qs: seq<Question>, rs: seq<Response>, target: int, time: string -> Option<int>,
                      iso: string -> Option<string>): (r: Option<string>)
    ensures |rs| == 0 ==> r.Some?
    ensures (forall t :: iso(t).Some?) ==> r.Some?
  {
    var ql := QuestionList(qs);
    var answers := UserAnswers(rs);
    UserAnswersValid(rs);
    var users := Keys(answers);
    var rows := if |users| > 0 then DataLines(users, answers, UserTimes(rs, time), ql, iso)
                else Some(SampleLines(SampleCount(target), ql));
    match rows
    case None => None
    case Some(lines) => Some(Join(Instructions + [Join(HeaderCells(ql), ","), Join(TitleCells(ql), ",")] + lines, "\n"))
  }

  /** The template writer: group the responses, write one line per user (or the
      sample lines when there are no users), and put the header lines in front. */
  method DownloadTemplate(qs: seq<Question>, rs: seq<Response>, target: int, time: string -> Option<int>,
                          iso: string -> Option<string>) returns (csv: Option<string>)
    ensures csv == TemplateOf(qs, rs, target, time, iso)
  {
    var ql := QuestionList(qs);
    var answers, times := GroupResponses(rs, time);
    UserAnswersValid(rs);
    var users := Keys(answers);
    var rows: Option<seq<string>>;
    if |users| > 0 {
      rows := WriteDataLines(users, answers, times, ql, iso);
    } else {
      rows := Some(SampleLines(SampleCount(target), ql));
    }
    if rows.None? {
      return None;
    }
    csv := Some(Join(Instructions + [Join(HeaderCells(ql), ","), Join(TitleCells(ql), ",")] + rows.value, "\n"));
  }

  /** The loop over the users; a time that cannot be written stops it. */
  method WriteDataLines(users: seq<string>, answers: Dict<Dict<string>>, times: Dict<string>, qs: seq<Question>,
                        iso: string -> Option<string>) returns (r: Option<seq<string>>)
    ensures r == DataLines(users, answers, times, qs, iso)
  {
    var lines: seq<string> := [];
    for i := 0 to |users|
      invariant DataLines(users[..i], answers, times, qs, iso) == Some(lines)
    {
      assert users[..i + 1][..i] == users[..i];
      var u := users[i];
      var t := TimeCell(times, u, iso);
      if t.None? {
        DataLinesStop(users, answers, times, qs, iso, i + 1);
        assert users[..|users|] == users;
        return None;
      }
      lines := lines + [DataLine(u, t.value, AnswerCells(answers, u, qs))];
    }
    assert users[..|users|] == users;
    r := Some(lines);
  }

  /** Once a prefix of the users fails, so does the whole list. */
  lemma {:induction false} DataLinesStop(users: seq<string>, answers: Dict<Dict<string>>, times: Dict<string>,
                                         qs: seq<Question>, iso: string -> Option<string>, k: nat)
    requires k <= |users|
    requires DataLines(users[..k], answers, times, qs, iso).None?
    ensures DataLines(users, answers, times, qs, iso).None?
    decreases |users| - k
  {
    if k < |users| {
      assert users[..k + 1][..k] == users[..k];
      DataLinesStop(users, answers, times, qs, iso, k + 1);
    } else {
      assert users[..k] == users;
    }
  }

  // ---------------------------------------------------------------- reading a line back

  /** A cell without `,` and `"` is written and read back as it is. */
  lemma PlainCell(s: string)
    requires ',' !in s && '"' !in s
    ensures FormatAnswer(s) == s && WideCommas(s) == s
  {
    ReplaceCharAbsent(s, '"', "\"\"");
    ReplaceCharAbsent(s, ',', "，");
  }

  /** A respondent line reads back as the id, the time and every answer with its
      commas made full-width, so it has two more fields than there are questions. */
  lemma DataLineFields(u: string, t: string, cells: seq<string>)
    requires ',' !in u && '"' !in u && ',' !in t && '"' !in t
    ensures ParseLine(DataLine(u, t, cells)) == [u, t] + WideAll(cells)
    ensures |ParseLine(DataLine(u, t, cells))| == 2 + |cells|
  {
    PlainCell(u);
    PlainCell(t);
    var all := [u, t] + cells;
    assert FormatAll(all) == [u, t] + FormatAll(cells);
    assert WideAll(all) == [u, t] + WideAll(cells);
    ParseFormattedRow(all);
  }

  lemma {:induction false} DigitsOnly(n: nat)
    ensures forall c :: c in NatToString(n) ==> '0' <= c <= '9'
  {
    if n >= 10 {
      DigitsOnly(n / 10);
    }
  }

  lemma {:induction false} ZerosOnly(k: nat)
    ensures forall c :: c in Zeros(k) ==> c == '0'
  {
    if k > 0 {
      ZerosOnly(k - 1);
    }
  }

  /** Sample ids hold neither `,` nor `"`. */
  lemma SampleIdPlain(i: nat)
    ensures ',' !in SampleId(i) && '"' !in SampleId(i)
  {
    var digits := NatToString(i + 1);
    DigitsOnly(i + 1);
    if |digits| < 3 {
      ZerosOnly(3 - |digits|);
    }
  }

  /** Empty cells are written and read back as empty cells. */
  lemma EmptyCells(n: nat)
    ensures FormatAll(seq(n, _ => "")) == seq(n, _ => "")
    ensures WideAll(seq(n, _ => "")) == seq(n, _ => "")
  {
  }

  /** A sample line reads back as its id, the time placeholder and one empty
      field per question. */
  lemma SampleLineFields(i: nat, qs: seq<Question>)
    ensures ParseLine(SampleLine(i, qs)) == [SampleId(i), NoTime] + seq(|qs|, _ => "")
  {
    var cells: seq<string> := seq(|qs|, _ => "");
    EmptyCells(|qs|);
    SampleIdPlain(i);
    assert SampleLine(i, qs) == DataLine(SampleId(i), NoTime, cells);
    DataLineFields(SampleId(i), NoTime, cells);
  }
}
