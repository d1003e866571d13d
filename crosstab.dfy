/** The two-question cross tabulation `performCrossAnalysis` of
    CategoryAnalysis.js (both sides filtered from one response list) and of
    CategoryCrossAnalysis.js (one list per side): respondents are joined on
    `user_id`, each user with both answers present adds one to the cell of
    their trimmed answer pair, and every row value gets a total. */
module CrossTab {
  import opened Seqs
  import opened JsCore
  import opened JsObject

  const NoQuestionMessage := "선택된 카테고리에 분석 가능한 문항이 없습니다."

  /** A stored response row: `question_id`, `user_id` and the raw `answer`. */
  datatype Response = Response(questionId: string, userId: string, answer: JsVal)

  /** `responses.filter(r => r.question_id === id)` */
  function ForQuestion(rs: seq<Response>, id: string): (out: seq<Response>)
    ensures forall r :: r in out <==> r in rs && r.questionId == id
    ensures |out| <= |rs|
  {
    if |rs| == 0 then []
    else
      var rest := rs[..|rs| - 1];
      assert rs == rest + [rs[|rs| - 1]];
      ForQuestion(rest, id) + (if rs[|rs| - 1].questionId == id then [rs[|rs| - 1]] else [])
  }

  // ---------------------------------------------------------------- the user join

  /** The `{ category1, category2 }` record kept per user; a side no row has set is `undefined`. */
  datatype Pair = Pair(first: JsVal, second: JsVal)

  const Unset := Pair(Undefined, Undefined)

  function Side(p: Pair, first: bool): JsVal
  {
    if first then p.first else p.second
  }

  function WithSide(p: Pair, first: bool, v: JsVal): (q: Pair)
    ensures Side(q, first) == v && Side(q, !first) == Side(p, !first)
  {
    if first then p.(first := v) else p.(second := v)
  }

  /** The record of user `u`, or the empty record when `u` has none yet. */
  function Get(d: Dict<Pair>, u: string): Pair
  {
    if u in d.m then d.m[u] else Unset
  }

  /** One `forEach` step: create the user's record if absent, then set one side to the row's answer. */
  function Assign(d: Dict<Pair>, r: Response, first: bool): Dict<Pair>
  {
    Put(d, r.userId, WithSide(Get(d, r.userId), first, r.answer))
  }

  function AssignAll(d: Dict<Pair>, rs: seq<Response>, first: bool): Dict<Pair>
    decreases |rs|
  {
    if |rs| == 0 then d else Assign(AssignAll(d, rs[..|rs| - 1], first), rs[|rs| - 1], first)
  }

  lemma {:induction false} AssignAllValid(d: Dict<Pair>, rs: seq<Response>, first: bool)
    requires Valid(d)
    ensures Valid(AssignAll(d, rs, first))
    decreases |rs|
  {
    if |rs| > 0 {
      var e, r := AssignAll(d, rs[..|rs| - 1], first), rs[|rs| - 1];
      AssignAllValid(d, rs[..|rs| - 1], first);
      PutValid(e, r.userId, WithSide(Get(e, r.userId), first, r.answer));
    }
  }

  /** `userResponses` after both `forEach` passes. */
  function UserResponses(rs1: seq<Response>, rs2: seq<Response>): Dict<Pair>
  {
    AssignAll(AssignAll(Empty(), rs1, true), rs2, false)
  }

  lemma UserResponsesValid(rs1: seq<Response>, rs2: seq<Response>)
    ensures Valid(UserResponses(rs1, rs2))
  {
    AssignAllValid(Empty(), rs1, true);
    AssignAllValid(AssignAll(Empty(), rs1, true), rs2, false);
  }

  /** One `forEach` pass over the rows of one side. */
  method GroupBySide(d: Dict<Pair>, rs: seq<Response>, first: bool) returns (e: Dict<Pair>)
    ensures e == AssignAll(d, rs, first)
  {
    e := d;
    for i := 0 to |rs|
      invariant e == AssignAll(d, rs[..i], first)
    {
      var response := rs[i];
      ghost var before := e;
      if response.userId !in e.m {
        e := Put(e, response.userId, Unset);
      }
      e := Put(e, response.userId, WithSide(e.m[response.userId], first, response.answer));
      if response.userId !in before.m {
        PutPut(before, response.userId, Unset, WithSide(Unset, first, response.answer));
      }
      assert e == Assign(before, response, first);
      assert rs[..i + 1][..i] == rs[..i];
    }
    assert rs[..|rs|] == rs;
  }

  /** The answer of the last row of `rs` from user `u`, or `dflt` when `u` has no row. */
  function LastAnswer(rs: seq<Response>, u: string, dflt: JsVal): JsVal
  {
    if |rs| == 0 then dflt
    else if rs[|rs| - 1].userId == u then rs[|rs| - 1].answer
    else LastAnswer(rs[..|rs| - 1], u, dflt)
  }

  predicate HasRow(rs: seq<Response>, u: string)
  {
    exists i :: 0 <= i < |rs| && rs[i].userId == u
  }

  /** A pass sets one side of each user to the answer of that user's last row and leaves the other side alone. */
  lemma {:induction false} AssignAllLastWins(d: Dict<Pair>, rs: seq<Response>, first: bool, u: string)
    ensures u in AssignAll(d, rs, first).m <==> u in d.m || HasRow(rs, u)
    ensures Side(Get(AssignAll(d, rs, first), u), first) == LastAnswer(rs, u, Side(Get(d, u), first))
    ensures Side(Get(AssignAll(d, rs, first), u), !first) == Side(Get(d, u), !first)
    decreases |rs|
  {
    if |rs| > 0 {
      var rs' := rs[..|rs| - 1];
      AssignAllLastWins(d, rs', first, u);
      if HasRow(rs, u) && !HasRow(rs', u) {
        var i :| 0 <= i < |rs| && rs[i].userId == u;
        assert i == |rs| - 1;
      }
      if HasRow(rs', u) {
        var i :| 0 <= i < |rs'| && rs'[i].userId == u;
        assert rs[i].userId == u;
      }
    }
  }

  /** Per user, the last row of each side wins, and a user has a record iff some row of either side is theirs. */
  lemma UserResponsesLastRowWins(rs1: seq<Response>, rs2: seq<Response>, u: string)
    ensures u in UserResponses(rs1, rs2).m <==> HasRow(rs1, u) || HasRow(rs2, u)
    ensures Get(UserResponses(rs1, rs2), u) == Pair(LastAnswer(rs1, u, Undefined), LastAnswer(rs2, u, Undefined))
  {
    var d1 := AssignAll(Empty(), rs1, true);
    AssignAllLastWins(Empty(), rs1, true, u);
    AssignAllLastWins(d1, rs2, false, u);
  }

  // ---------------------------------------------------------------- the contingency table

  /** A user is tabulated only when both raw answers are truthy. */
  predicate Complete(p: Pair)
  {
    Truthy(p.first) && Truthy(p.second)
  }

  /** `String(answer).trim()` */
  function Key(v: JsVal): string
  {
    Trim(ToStr(v))
  }

  function KeyPair(p: Pair): (string, string)
  {
    (Key(p.first), Key(p.second))
  }

  /** What a record adds to the table: its key pair when both answers are truthy. */
  function Entry(p: Pair): Option<(string, string)>
  {
    if Complete(p) then Some(KeyPair(p)) else None
  }

  /** The key pairs `entry` yields over `ps`, in order. */
  function TabulatedBy(ps: seq<Pair>, entry: Pair -> Option<(string, string)>): (t: seq<(string, string)>)
    ensures |t| <= |ps|
  {
    if |ps| == 0 then []
    else
      var e := entry(ps[|ps| - 1]);
      TabulatedBy(ps[..|ps| - 1], entry) + (if e.Some? then [e.value] else [])
  }

  /** The key pairs of the tabulated records, in `Object.values` order. */
  function Tabulated(ps: seq<Pair>): (t: seq<(string, string)>)
    ensures |t| <= |ps|
  {
    TabulatedBy(ps, Entry)
  }

  function Pick(x: (string, string), first: bool): string
  {
    if first then x.0 else x.1
  }

  /** The row keys (`first`) or the column keys of a list of key pairs. */
  function Column(t: seq<(string, string)>, first: bool): (c: seq<string>)
    ensures |c| == |t|
    ensures forall i :: 0 <= i < |t| ==> c[i] == Pick(t[i], first)
  {
    seq(|t|, i requires 0 <= i < |t| => Pick(t[i], first))
  }

  /** `crossData[k1]?.[k2] || 0` */
  function CellOf(cross: map<string, map<string, int>>, k1: string, k2: string): int
  {
    if k1 in cross && k2 in cross[k1] then cross[k1][k2] else 0
  }

  /** `crossData[k1][k2]++`, creating the row and the cell when absent. */
  function Bump(cross: map<string, map<string, int>>, k1: string, k2: string): map<string, map<string, int>>
  {
    var row := if k1 in cross then cross[k1] else map[];
    cross[k1 := row[k2 := (if k2 in row then row[k2] else 0) + 1]]
  }

  /** Bumping the cell of a new pair keeps every cell equal to the pair's count. */
  lemma BumpCounts(cross: map<string, map<string, int>>, t: seq<(string, string)>, x: (string, string))
    requires forall k1, k2 :: CellOf(cross, k1, k2) == Count(t, (k1, k2))
    ensures forall k1, k2 :: CellOf(Bump(cross, x.0, x.1), k1, k2) == Count(t + [x], (k1, k2))
  {
    forall k1, k2
      ensures CellOf(Bump(cross, x.0, x.1), k1, k2) == Count(t + [x], (k1, k2))
    {
      CountSnoc(t, x, (k1, k2));
      assert CellOf(cross, k1, k2) == Count(t, (k1, k2));
    }
  }

  lemma TabulatedSnoc(ps: seq<Pair>, i: nat)
    requires i < |ps|
    ensures Tabulated(ps[..i + 1]) == Tabulated(ps[..i]) + (if Complete(ps[i]) then [KeyPair(ps[i])] else [])
  {
    assert ps[..i + 1][..i] == ps[..i];
    assert Entry(ps[i]) == if Complete(ps[i]) then Some(KeyPair(ps[i])) else None;
  }

  /** Tabulating one more pair adds its keys to the value lists when they are new. */
  lemma ValuesSnoc(t: seq<(string, string)>, x: (string, string), first: bool)
    ensures Distinct(Column(t + [x], first))
         == var d := Distinct(Column(t, first)); if Pick(x, first) in d then d else d + [Pick(x, first)]
  {
    assert Column(t + [x], first) == Column(t, first) + [Pick(x, first)];
    DistinctSnoc(Column(t, first), Pick(x, first));
  }

  /** The state of the pass after the first `i` records: the table counts every tabulated key pair
      and the two value lists are the first-seen row and column keys. */
  ghost predicate TabulatedUpTo(ps: seq<Pair>, i: nat, cross: map<string, map<string, int>>,
                                values1: seq<string>, values2: seq<string>)
    requires i <= |ps|
  {
    values1 == Distinct(Column(Tabulated(ps[..i]), true))
    && values2 == Distinct(Column(Tabulated(ps[..i]), false))
    && forall k1, k2 :: CellOf(cross, k1, k2) == Count(Tabulated(ps[..i]), (k1, k2))
  }

  /** One record of the pass. */
  function TabulateStep(cross: map<string, map<string, int>>, values1: seq<string>, values2: seq<string>, p: Pair)
    : (map<string, map<string, int>>, seq<string>, seq<string>)
  {
    if Complete(p) then
      var key1 := KeyPair(p).0;
      var key2 := KeyPair(p).1;
      (Bump(cross, key1, key2),
       if key1 in values1 then values1 else values1 + [key1],
       if key2 in values2 then values2 else values2 + [key2])
    else (cross, values1, values2)
  }

  /** A value list after one more record: the record's key joins it when the record is tabulated and the key is new. */
  lemma ValuesStep(ps: seq<Pair>, i: nat, values: seq<string>, first: bool)
    requires i < |ps| && values == Distinct(Column(Tabulated(ps[..i]), first))
    ensures Distinct(Column(Tabulated(ps[..i + 1]), first))
         == if !Complete(ps[i]) || Pick(KeyPair(ps[i]), first) in values then values
            else values + [Pick(KeyPair(ps[i]), first)]
  {
    TabulatedSnoc(ps, i);
    var t := Tabulated(ps[..i]);
    if Complete(ps[i]) {
      var x := KeyPair(ps[i]);
      assert Tabulated(ps[..i + 1]) == t + [x];
      ValuesSnoc(t, x, first);
      assert Distinct(Column(t + [x], first)) == if Pick(x, first) in values then values else values + [Pick(x, first)];
    } else {
      assert Tabulated(ps[..i + 1]) == t;
    }
  }

  /** The table after one more record: a tabulated record bumps the cell of its key pair. */
  lemma CrossStep(ps: seq<Pair>, i: nat, cross: map<string, map<string, int>>)
    requires i < |ps|
    requires forall k1, k2 :: CellOf(cross, k1, k2) == Count(Tabulated(ps[..i]), (k1, k2))
    ensures var c := if Complete(ps[i]) then Bump(cross, KeyPair(ps[i]).0, KeyPair(ps[i]).1) else cross;
            forall k1, k2 :: CellOf(c, k1, k2) == Count(Tabulated(ps[..i + 1]), (k1, k2))
  {
    TabulatedSnoc(ps, i);
    var t := Tabulated(ps[..i]);
    if Complete(ps[i]) {
      var x := KeyPair(ps[i]);
      assert Tabulated(ps[..i + 1]) == t + [x];
      BumpCounts(cross, t, x);
    } else {
      assert Tabulated(ps[..i + 1]) == t;
    }
  }

  lemma TabulateStepKeeps(ps: seq<Pair>, i: nat, cross: map<string, map<string, int>>,
                          values1: seq<string>, values2: seq<string>,
                          cross': map<string, map<string, int>>, values1': seq<string>, values2': seq<string>)
    requires i < |ps| && TabulatedUpTo(ps, i, cross, values1, values2)
    requires (cross', values1', values2') == TabulateStep(cross, values1, values2, ps[i])
    ensures TabulatedUpTo(ps, i + 1, cross', values1', values2')
  {
    ValuesStep(ps, i, values1, true);
    ValuesStep(ps, i, values2, false);
    CrossStep(ps, i, cross);
  }

  /** The pass over the first `i` records, step by step. */
  function TabulateUpTo(ps: seq<Pair>, i: nat): (map<string, map<string, int>>, seq<string>, seq<string>)
    requires i <= |ps|
  {
    if i == 0 then (map[], [], [])
    else
      var s := TabulateUpTo(ps, i - 1);
      TabulateStep(s.0, s.1, s.2, ps[i - 1])
  }

  lemma {:induction false} TabulateUpToMeaning(ps: seq<Pair>, i: nat)
    requires i <= |ps|
    ensures var s := TabulateUpTo(ps, i); TabulatedUpTo(ps, i, s.0, s.1, s.2)
  {
    if i > 0 {
      TabulateUpToMeaning(ps, i - 1);
      var s := TabulateUpTo(ps, i - 1);
      var s' := TabulateUpTo(ps, i);
      TabulateStepKeeps(ps, i - 1, s.0, s.1, s.2, s'.0, s'.1, s'.2);
    }
  }

  /** The `Object.values(userResponses).forEach` pass: the table and the two value `Set`s. */
  method Tabulate(ps: seq<Pair>) returns (cross: map<string, map<string, int>>, values1: seq<string>, values2: seq<string>)
    ensures values1 == Distinct(Column(Tabulated(ps), true))
    ensures values2 == Distinct(Column(Tabulated(ps), false))
    ensures forall k1, k2 :: CellOf(cross, k1, k2) == Count(Tabulated(ps), (k1, k2))
  {
    cross, values1, values2 := map[], [], [];
    for i := 0 to |ps|
      invariant (cross, values1, values2) == TabulateUpTo(ps, i)
    {
      var data := ps[i];
      if Complete(data) {
        var key1 := KeyPair(data).0;
        var key2 := KeyPair(data).1;
        if key1 !in values1 {
          values1 := values1 + [key1];
        }
        if key2 !in values2 {
          values2 := values2 + [key2];
        }
        var row := if key1 in cross then cross[key1] else map[];
        var count := if key2 in row then row[key2] else 0;
        cross := cross[key1 := row[key2 := count + 1]];
      }
    }
    TabulateUpToMeaning(ps, |ps|);
    assert ps[..|ps|] == ps;
  }

  // ---------------------------------------------------------------- chart rows

  /** A `chartData` entry: its row value, its cell per column value, and the row total. */
  datatype Row = Row(name: string, cells: seq<int>, total: int)

  /** The row the analysis means for `val1`: the count of each column value and their sum. */
  function RowOf(t: seq<(string, string)>, val1: string, values2: seq<string>): (row: Row)
    ensures row.name == val1 && |row.cells| == |values2|
    ensures forall j :: 0 <= j < |values2| ==> row.cells[j] == Count(t, (val1, values2[j]))
  {
    var cells := seq(|values2|, j requires 0 <= j < |values2| => Count(t, (val1, values2[j])));
    Row(val1, cells, Sum(cells))
  }

  /** Fills one chart row, keeping its label and its total apart from the column cells. */
  method BuildRow(val1: string, values2: seq<string>, cross: map<string, map<string, int>>) returns (row: Row)
    ensures row.name == val1 && |row.cells| == |values2|
    ensures forall j :: 0 <= j < |values2| ==> row.cells[j] == CellOf(cross, val1, values2[j])
    ensures row.total == Sum(row.cells)
  {
    var cells: seq<int> := [];
    var total := 0;
    for j := 0 to |values2|
      invariant |cells| == j
      invariant forall k :: 0 <= k < j ==> cells[k] == CellOf(cross, val1, values2[k])
      invariant total == Sum(cells)
    {
      var cell := CellOf(cross, val1, values2[j]);
      SumSnoc(cells, cell);
      cells := cells + [cell];
      total := total + cell;
    }
    row := Row(val1, cells, total);
  }

  /** `cat1Values.map(...)`: one chart row per row value, in order. */
  method BuildChart(values1: seq<string>, values2: seq<string>, cross: map<string, map<string, int>>,
                    ghost t: seq<(string, string)>) returns (chartData: seq<Row>)
    requires forall k1, k2 :: CellOf(cross, k1, k2) == Count(t, (k1, k2))
    ensures chartData == seq(|values1|, i requires 0 <= i < |values1| => RowOf(t, values1[i], values2))
  {
    chartData := [];
    for i := 0 to |values1|
      invariant |chartData| == i
      invariant forall k :: 0 <= k < i ==> chartData[k] == RowOf(t, values1[k], values2)
    {
      var row := BuildRow(values1[i], values2, cross);
      assert row.cells == RowOf(t, values1[i], values2).cells;
      chartData := chartData + [row];
    }
  }

  /** A `stackedItems` entry. */
  datatype StackedItem = StackedItem(dataKey: string, name: string)

  function StackedItems(values2: seq<string>): (items: seq<StackedItem>)
    ensures |items| == |values2|
    ensures forall j :: 0 <= j < |values2| ==> items[j] == StackedItem(values2[j], values2[j])
  {
    seq(|values2|, j requires 0 <= j < |values2| => StackedItem(values2[j], values2[j]))
  }

  // ---------------------------------------------------------------- marginal distributions

  /** Rows of `rs` whose trimmed answer is `v`. */
  function CountKey(rs: seq<Response>, v: string): nat
  {
    if |rs| == 0 then 0
    else CountKey(rs[..|rs| - 1], v) + (if Key(rs[|rs| - 1].answer) == v then 1 else 0)
  }

  /** Rows of `rs` from user `u` whose trimmed answer is `v`. */
  function CountUserKey(rs: seq<Response>, u: string, v: string): nat
  {
    if |rs| == 0 then 0
    else
      var last := rs[|rs| - 1];
      CountUserKey(rs[..|rs| - 1], u, v) + (if last.userId == u && Key(last.answer) == v then 1 else 0)
  }

  /** `values.map(val => ({ name: val, value: rs.filter(r => String(r.answer).trim() === val).length }))` */
  function Distribution(rs: seq<Response>, values: seq<string>): (dist: seq<(string, int)>)
    ensures |dist| == |values|
    ensures forall i :: 0 <= i < |values| ==> dist[i] == (values[i], CountKey(rs, values[i]))
  {
    seq(|values|, i requires 0 <= i < |values| => (values[i], CountKey(rs, values[i])))
  }

  // ---------------------------------------------------------------- the analysis

  datatype Analysis =
    | NoQuestion(message: string)
    | Table(chartData: seq<Row>, stackedItems: seq<StackedItem>,
            values1: seq<string>, distribution1: seq<(string, int)>,
            values2: seq<string>, distribution2: seq<(string, int)>)

  /** The joined records of the two filtered sides, in `Object.values` order. */
  function Records(rs1: seq<Response>, rs2: seq<Response>): seq<Pair>
  {
    UserResponsesValid(rs1, rs2);
    Values(UserResponses(rs1, rs2))
  }

  /** The chart rows of table `t`: one per row value, in first-seen order. */
  function Chart(t: seq<(string, string)>): (rows: seq<Row>)
    ensures |rows| == |Distinct(Column(t, true))|
  {
    var values1 := Distinct(Column(t, true));
    var values2 := Distinct(Column(t, false));
    seq(|values1|, i requires 0 <= i < |values1| => RowOf(t, values1[i], values2))
  }

  /** The table built from the filtered rows of the two sides. */
  function TableOf(rs1: seq<Response>, rs2: seq<Response>): (a: Analysis)
    ensures a.Table?
    ensures |a.chartData| == |a.values1| == |a.distribution1|
    ensures |a.stackedItems| == |a.values2| == |a.distribution2|
  {
    var t := Tabulated(Records(rs1, rs2));
    var values1 := Distinct(Column(t, true));
    var values2 := Distinct(Column(t, false));
    Table(Chart(t), StackedItems(values2),
          values1, Distribution(rs1, values1),
          values2, Distribution(rs2, values2))
  }

  /** What `performCrossAnalysis` stores: only the first question of each
      category is used (its ids are `questions1` and `questions2`), and a
      missing one gives the error message instead of a table. */
  function CrossAnalysis(responses1: seq<Response>, responses2: seq<Response>,
                         questions1: seq<string>, questions2: seq<string>): (a: Analysis)
    ensures a.NoQuestion? <==> |questions1| == 0 || |questions2| == 0
    ensures a.NoQuestion? ==> a.message == NoQuestionMessage
  {
    if |questions1| == 0 || |questions2| == 0 then NoQuestion(NoQuestionMessage)
    else TableOf(ForQuestion(responses1, questions1[0]), ForQuestion(responses2, questions2[0]))
  }

  /** `performCrossAnalysis` of CategoryCrossAnalysis.js, over one response list per side. */
  method PerformCrossAnalysis(responses1: seq<Response>, responses2: seq<Response>,
                              questions1: seq<string>, questions2: seq<string>) returns (result: Analysis)
    ensures result == CrossAnalysis(responses1, responses2, questions1, questions2)
  {
    if |questions1| == 0 || |questions2| == 0 {
      return NoQuestion(NoQuestionMessage);
    }
    var cat1Responses := ForQuestion(responses1, questions1[0]);
    var cat2Responses := ForQuestion(responses2, questions2[0]);
    var userResponses := GroupBySide(Empty(), cat1Responses, true);
    userResponses := GroupBySide(userResponses, cat2Responses, false);
    assert userResponses == UserResponses(cat1Responses, cat2Responses);
    UserResponsesValid(cat1Responses, cat2Responses);
    var cross, values1, values2 := Tabulate(Values(userResponses));
    ghost var t := Tabulated(Values(userResponses));
    var chartData := BuildChart(values1, values2, cross, t);
    result := Table(chartData, StackedItems(values2),
                    values1, Distribution(cat1Responses, values1),
                    values2, Distribution(cat2Responses, values2));
  }

  /** `performCrossAnalysis` of CategoryAnalysis.js: both sides come from the same response list. */
  method PerformCategoryAnalysis(responses: seq<Response>, questions1: seq<string>, questions2: seq<string>)
    returns (result: Analysis)
    ensures result == CrossAnalysis(responses, responses, questions1, questions2)
  {
    result := PerformCrossAnalysis(responses, responses, questions1, questions2);
  }

  // ---------------------------------------------------------------- totals

  function Totals(rows: seq<Row>): (ts: seq<int>)
    ensures |ts| == |rows| && forall i :: 0 <= i < |rows| ==> ts[i] == rows[i].total
  {
    seq(|rows|, i requires 0 <= i < |rows| => rows[i].total)
  }

  /** Column `j` of every row, summed. */
  function ColumnTotal(rows: seq<Row>, j: nat): int
    requires forall i :: 0 <= i < |rows| ==> j < |rows[i].cells|
  {
    Sum(seq(|rows|, i requires 0 <= i < |rows| => rows[i].cells[j]))
  }

  /** The key pair with `k` on the `first` side and `k'` on the other. */
  function CellKey(first: bool, k: string, k': string): (string, string)
  {
    if first then (k, k') else (k', k)
  }

  /** Summing the cells of one row (or one column) over a duplicate-free list of the other side's
      keys that covers the table gives the number of tabulated users with that key. */
  lemma {:induction false} CellsCover(t: seq<(string, string)>, k: string, ks: seq<string>, first: bool)
    requires NoDups(ks)
    requires forall i :: 0 <= i < |t| ==> Pick(t[i], !first) in ks
    ensures SumOf(k' => Count(t, CellKey(first, k, k')), ks) == Count(Column(t, first), k)
    decreases |t|
  {
    if |t| == 0 {
      SumOfZero(k' => Count(t, CellKey(first, k, k')), ks);
    } else {
      var t' := t[..|t| - 1];
      var x := t[|t| - 1];
      assert t == t' + [x];
      assert Column(t, first) == Column(t', first) + [Pick(x, first)];
      CountSnoc(Column(t', first), Pick(x, first), k);
      CellsCover(t', k, ks, first);
      if Pick(x, first) == k {
        assert x == CellKey(first, k, Pick(x, !first));
        SumOfBump(k' => Count(t', CellKey(first, k, k')), k' => Count(t, CellKey(first, k, k')), ks, Pick(x, !first));
      } else {
        SumOfAgree(k' => Count(t', CellKey(first, k, k')), k' => Count(t, CellKey(first, k, k')), ks);
      }
    }
  }

  /** Each row total is the number of tabulated users whose first answer has the row's value. */
  lemma RowTotalCounts(t: seq<(string, string)>, i: nat)
    requires i < |Chart(t)|
    ensures Chart(t)[i].name == Distinct(Column(t, true))[i]
    ensures Chart(t)[i].total == Count(Column(t, true), Distinct(Column(t, true))[i])
  {
    var values1, values2 := Distinct(Column(t, true)), Distinct(Column(t, false));
    var row := Chart(t)[i];
    assert row == RowOf(t, values1[i], values2);
    SumOfValues(k' => Count(t, CellKey(true, values1[i], k')), values2, row.cells);
    CellsCover(t, values1[i], values2, true);
  }

  /** Each column total is the number of tabulated users whose second answer has the column's value. */
  lemma ColumnTotalCounts(t: seq<(string, string)>, j: nat)
    requires j < |Distinct(Column(t, false))|
    ensures forall i :: 0 <= i < |Chart(t)| ==> j < |Chart(t)[i].cells|
    ensures ColumnTotal(Chart(t), j) == Count(Column(t, false), Distinct(Column(t, false))[j])
  {
    var values1, values2 := Distinct(Column(t, true)), Distinct(Column(t, false));
    var rows := Chart(t);
    var column := seq(|rows|, i requires 0 <= i < |rows| => rows[i].cells[j]);
    assert forall i :: 0 <= i < |rows| ==> rows[i] == RowOf(t, values1[i], values2);
    SumOfValues(k' => Count(t, CellKey(false, values2[j], k')), values1, column);
    CellsCover(t, values2[j], values1, false);
  }

  /** The row totals add up to the number of tabulated users, i.e. of users with both answers present. */
  lemma GrandTotal(t: seq<(string, string)>)
    ensures Sum(Totals(Chart(t))) == |t|
  {
    var values1 := Distinct(Column(t, true));
    forall i | 0 <= i < |Chart(t)|
      ensures Totals(Chart(t))[i] == Count(Column(t, true), values1[i])
    {
      RowTotalCounts(t, i);
    }
    SumOfValues(k => Count(Column(t, true), k), values1, Totals(Chart(t)));
    CountsCover(Column(t, true), values1);
  }

  /** `stackedItems` has one entry per column value, in the same order. */
  lemma StackedItemsFollowColumns(rs1: seq<Response>, rs2: seq<Response>)
    ensures var a := TableOf(rs1, rs2);
            |a.stackedItems| == |a.values2|
            && forall j :: 0 <= j < |a.values2| ==> a.stackedItems[j].dataKey == a.stackedItems[j].name == a.values2[j]
  {
  }

  /** A row value (`first`) or column value of the table is exactly the trimmed answer, on that
      side, of some record with both answers truthy: a value seen only from users with one side
      missing never appears. */
  lemma TabulatedValues(ps: seq<Pair>, first: bool, v: string)
    ensures NoDups(Distinct(Column(Tabulated(ps), first)))
    ensures v in Distinct(Column(Tabulated(ps), first))
        <==> exists i :: 0 <= i < |ps| && Complete(ps[i]) && Key(Side(ps[i], first)) == v
  {
    TabulatedKeys(ps, Entry, first, v);
    if exists i :: 0 <= i < |ps| && Complete(ps[i]) && Key(Side(ps[i], first)) == v {
      var i :| 0 <= i < |ps| && Complete(ps[i]) && Key(Side(ps[i], first)) == v;
      assert Entry(ps[i]) == Some(KeyPair(ps[i]));
    }
    if exists i :: 0 <= i < |ps| && Entry(ps[i]).Some? && Pick(Entry(ps[i]).value, first) == v {
      var i :| 0 <= i < |ps| && Entry(ps[i]).Some? && Pick(Entry(ps[i]).value, first) == v;
      assert Complete(ps[i]) && Key(Side(ps[i], first)) == v;
    }
  }

  lemma {:induction false} TabulatedKeys(ps: seq<Pair>, entry: Pair -> Option<(string, string)>, first: bool, v: string)
    ensures v in Column(TabulatedBy(ps, entry), first)
        <==> exists i :: 0 <= i < |ps| && entry(ps[i]).Some? && Pick(entry(ps[i]).value, first) == v
    decreases |ps|
  {
    if |ps| > 0 {
      var n := |ps| - 1;
      var ps' := ps[..n];
      TabulatedKeys(ps', entry, first, v);
      var t := TabulatedBy(ps', entry);
      var e := entry(ps[n]);
      if e.Some? {
        assert TabulatedBy(ps, entry) == t + [e.value];
        assert Column(t + [e.value], first) == Column(t, first) + [Pick(e.value, first)];
      } else {
        assert TabulatedBy(ps, entry) == t;
      }
      if exists i :: 0 <= i < |ps'| && entry(ps'[i]).Some? && Pick(entry(ps'[i]).value, first) == v {
        var i :| 0 <= i < |ps'| && entry(ps'[i]).Some? && Pick(entry(ps'[i]).value, first) == v;
        assert ps[i] == ps'[i];
      }
      if exists i :: 0 <= i < |ps| && entry(ps[i]).Some? && Pick(entry(ps[i]).value, first) == v {
        var i :| 0 <= i < |ps| && entry(ps[i]).Some? && Pick(entry(ps[i]).value, first) == v;
        if i < n {
          assert ps'[i] == ps[i];
        }
      }
    }
  }

  // ---------------------------------------------------------------- marginals against totals

  /** 1 when `e` is a key pair with `v` on the `first` side, else 0. */
  function Hits(e: Option<(string, string)>, first: bool, v: string): int
  {
    if e.Some? && Pick(e.value, first) == v then 1 else 0
  }

  /** 1 when user `u` is tabulated with key `v` on the `first` side, else 0. */
  function Hit(d: Dict<Pair>, u: string, first: bool, v: string): int
  {
    if u in d.m then Hits(Entry(d.m[u]), first, v) else 0
  }

  /** One more record adds its hit to the count of `v` on the `first` side. */
  lemma TabulatedByCountSnoc(ps: seq<Pair>, entry: Pair -> Option<(string, string)>, first: bool, v: string)
    requires |ps| > 0
    ensures Count(Column(TabulatedBy(ps, entry), first), v)
         == Count(Column(TabulatedBy(ps[..|ps| - 1], entry), first), v) + Hits(entry(ps[|ps| - 1]), first, v)
  {
    var t := TabulatedBy(ps[..|ps| - 1], entry);
    var e := entry(ps[|ps| - 1]);
    if e.Some? {
      assert TabulatedBy(ps, entry) == t + [e.value];
      assert Column(t + [e.value], first) == Column(t, first) + [Pick(e.value, first)];
      CountSnoc(Column(t, first), Pick(e.value, first), v);
    } else {
      assert TabulatedBy(ps, entry) == t;
    }
  }

  /** Counting tabulated keys over records listed by user is counting user by user. */
  lemma {:induction false} TabulatedByUser(ks: seq<string>, ps: seq<Pair>, first: bool, v: string,
                                           entry: Pair -> Option<(string, string)>, hit: string -> int)
    requires |ps| == |ks|
    requires forall i :: 0 <= i < |ks| ==> hit(ks[i]) == Hits(entry(ps[i]), first, v)
    ensures Count(Column(TabulatedBy(ps, entry), first), v) == SumOf(hit, ks)
    decreases |ks|
  {
    if |ks| > 0 {
      var n := |ks| - 1;
      var ps', ks' := ps[..n], ks[..n];
      assert forall i :: 0 <= i < |ks'| ==> ks'[i] == ks[i] && ps'[i] == ps[i];
      TabulatedByUser(ks', ps', first, v, entry, hit);
      TabulatedByCountSnoc(ps, entry, first, v);
      assert ps' == ps[..|ps| - 1] && ks' == ks[..|ks| - 1];
      assert hit(ks[n]) == Hits(entry(ps[n]), first, v);
    }
  }

  /** A truthy last answer is one of the user's rows with that trimmed answer. */
  lemma {:induction false} LastAnswerCounted(rs: seq<Response>, u: string)
    requires Truthy(LastAnswer(rs, u, Undefined))
    ensures CountUserKey(rs, u, Key(LastAnswer(rs, u, Undefined))) >= 1
    decreases |rs|
  {
    if rs[|rs| - 1].userId != u {
      LastAnswerCounted(rs[..|rs| - 1], u);
    }
  }

  /** The rows with a given trimmed answer, counted user by user. */
  lemma {:induction false} CountKeyByUser(rs: seq<Response>, v: string, ks: seq<string>)
    requires NoDups(ks)
    requires forall i :: 0 <= i < |rs| ==> rs[i].userId in ks
    ensures CountKey(rs, v) == SumOf(u => CountUserKey(rs, u, v), ks)
    decreases |rs|
  {
    if |rs| == 0 {
      SumOfZero(u => CountUserKey(rs, u, v), ks);
    } else {
      var rs' := rs[..|rs| - 1];
      var r := rs[|rs| - 1];
      assert forall i :: 0 <= i < |rs'| ==> rs'[i] == rs[i];
      CountKeyByUser(rs', v, ks);
      if Key(r.answer) == v {
        SumOfBump(u => CountUserKey(rs', u, v), u => CountUserKey(rs, u, v), ks, r.userId);
      } else {
        SumOfAgree(u => CountUserKey(rs', u, v), u => CountUserKey(rs, u, v), ks);
      }
    }
  }

  /** The tabulated users with key `v` on one side are at most the raw rows of that side with
      trimmed answer `v`: each such user's last row is one of them. */
  lemma SideCountBound(rs1: seq<Response>, rs2: seq<Response>, first: bool, v: string)
    ensures Count(Column(Tabulated(Records(rs1, rs2)), first), v) <= CountKey(if first then rs1 else rs2, v)
  {
    var d := UserResponses(rs1, rs2);
    UserResponsesValid(rs1, rs2);
    var ks := Keys(d);
    var rs := if first then rs1 else rs2;
    var ps := Values(d);
    forall i | 0 <= i < |ks|
      ensures Hit(d, ks[i], first, v) == Hits(Entry(ps[i]), first, v)
    {
    }
    TabulatedByUser(ks, ps, first, v, Entry, u => Hit(d, u, first, v));
    forall i | 0 <= i < |ks|
      ensures Hit(d, ks[i], first, v) <= CountUserKey(rs, ks[i], v)
    {
      UserResponsesLastRowWins(rs1, rs2, ks[i]);
      if Hit(d, ks[i], first, v) == 1 {
        assert Complete(d.m[ks[i]]) && Key(Side(d.m[ks[i]], first)) == v;
        LastAnswerCounted(rs, ks[i]);
      }
    }
    SumOfMono(u => Hit(d, u, first, v), u => CountUserKey(rs, u, v), ks);
    forall i | 0 <= i < |rs|
      ensures rs[i].userId in ks
    {
      UserResponsesLastRowWins(rs1, rs2, rs[i].userId);
      ValidMember(d, rs[i].userId);
      assert rs[i].userId in multiset(ks);
    }
    CountKeyByUser(rs, v, ks);
  }

  /** A category-1 distribution entry counts at least the users in its chart row. */
  lemma DistributionCoversRow(rs1: seq<Response>, rs2: seq<Response>, i: nat)
    requires i < |TableOf(rs1, rs2).chartData|
    ensures var a := TableOf(rs1, rs2);
            a.distribution1[i].0 == a.chartData[i].name && a.distribution1[i].1 >= a.chartData[i].total
  {
    RowTotalCounts(Tabulated(Records(rs1, rs2)), i);
    SideCountBound(rs1, rs2, true, TableOf(rs1, rs2).values1[i]);
  }

  /** A category-2 distribution entry counts at least the users in its chart column. */
  lemma DistributionCoversColumn(rs1: seq<Response>, rs2: seq<Response>, j: nat)
    requires j < |TableOf(rs1, rs2).values2|
    ensures var a := TableOf(rs1, rs2);
            (forall i :: 0 <= i < |a.chartData| ==> j < |a.chartData[i].cells|)
            && a.distribution2[j].1 >= ColumnTotal(a.chartData, j)
  {
    ColumnTotalCounts(Tabulated(Records(rs1, rs2)), j);
    SideCountBound(rs1, rs2, false, TableOf(rs1, rs2).values2[j]);
  }

  // ---------------------------------------------------------------- the chart object as written

  /** One `cat2Values.forEach` step: store the cell under the column value, then add the value
      now stored there to `total`. */
  function AddColumn(row: Dict<Field>, val2: string, cell: int): (r: Dict<Field>)
    requires "total" in row.m && "name" in row.m
    ensures "total" in r.m && "name" in r.m && r.m["total"].Amount?
  {
    var withCell := Put(row, val2, Amount(cell));
    Put(withCell, "total", Amount(AmountOf(withCell.m["total"]) + AmountOf(withCell.m[val2])))
  }

  /** For a column value other than "total" the step stores the cell and raises the total by it. */
  lemma AddColumnPlain(row: Dict<Field>, val2: string, cell: int)
    requires "total" in row.m && "name" in row.m
    requires val2 != "total"
    ensures AddColumn(row, val2, cell).m == row.m[val2 := Amount(cell)]["total" := Amount(AmountOf(row.m["total"]) + cell)]
  {
  }

  /** The `dataPoint` object exactly as `cat2Values.forEach` fills it: `name` and `total` live in
      the same key space as the column values, so a column value spelled "name" or "total"
      overwrites them. */
  function RowObject(val1: string, values2: seq<string>, cross: map<string, map<string, int>>): (row: Dict<Field>)
    ensures "total" in row.m && "name" in row.m && row.m["total"].Amount?
    decreases |values2|
  {
    if |values2| == 0 then Put(Put(Empty(), "name", Label(val1)), "total", Amount(0))
    else
      var val2 := values2[|values2| - 1];
      AddColumn(RowObject(val1, values2[..|values2| - 1], cross), val2, CellOf(cross, val1, val2))
  }

  /** The cells of row `val1`, column by column. */
  function CellsOf(cross: map<string, map<string, int>>, val1: string, values2: seq<string>): (cells: seq<int>)
    ensures |cells| == |values2|
    ensures forall j :: 0 <= j < |values2| ==> cells[j] == CellOf(cross, val1, values2[j])
  {
    seq(|values2|, j requires 0 <= j < |values2| => CellOf(cross, val1, values2[j]))
  }

  /** The object holds the label under `name`, each column's cell under the column value and
      the sum of the cells under `total`. */
  ghost predicate Agrees(row: Dict<Field>, val1: string, values2: seq<string>, cross: map<string, map<string, int>>)
  {
    && "name" in row.m && row.m["name"] == Label(val1)
    && "total" in row.m && row.m["total"] == Amount(Sum(CellsOf(cross, val1, values2)))
    && forall j :: 0 <= j < |values2| ==> values2[j] in row.m && row.m[values2[j]] == Amount(CellOf(cross, val1, values2[j]))
  }

  lemma AgreesStep(before: Dict<Field>, after: Dict<Field>, val1: string, front: seq<string>, val2: string,
                   cross: map<string, map<string, int>>)
    requires Agrees(before, val1, front, cross)
    requires "name" !in front + [val2] && "total" !in front + [val2] && val2 !in front
    requires after.m == before.m[val2 := Amount(CellOf(cross, val1, val2))]["total" := Amount(AmountOf(before.m["total"]) + CellOf(cross, val1, val2))]
    ensures Agrees(after, val1, front + [val2], cross)
  {
    var cell := CellOf(cross, val1, val2);
    assert CellsOf(cross, val1, front + [val2]) == CellsOf(cross, val1, front) + [cell];
    SumSnoc(CellsOf(cross, val1, front), cell);
    var values2 := front + [val2];
    forall j | 0 <= j < |values2|
      ensures values2[j] in after.m && after.m[values2[j]] == Amount(CellOf(cross, val1, values2[j]))
    {
      if j < |front| {
        assert values2[j] == front[j] && front[j] != val2;
        assert front[j] in before.m && before.m[front[j]] == Amount(CellOf(cross, val1, front[j]));
        assert front[j] != "total";
      } else {
        assert values2[j] == val2;
      }
    }
  }

  lemma AddColumnAgrees(before: Dict<Field>, after: Dict<Field>, val1: string, front: seq<string>, val2: string,
                        cross: map<string, map<string, int>>)
    requires "total" in before.m && "name" in before.m && Agrees(before, val1, front, cross)
    requires "name" !in front + [val2] && "total" !in front + [val2] && val2 !in front
    requires after == AddColumn(before, val2, CellOf(cross, val1, val2))
    ensures Agrees(after, val1, front + [val2], cross)
  {
    AddColumnPlain(before, val2, CellOf(cross, val1, val2));
    AgreesStep(before, after, val1, front, val2, cross);
  }

  /** Without a clash the object agrees with the row: the label, one cell per column value and
      their sum as the total. */
  lemma {:induction false} RowObjectAgrees(val1: string, values2: seq<string>, cross: map<string, map<string, int>>)
    requires NoDups(values2) && "name" !in values2 && "total" !in values2
    ensures Agrees(RowObject(val1, values2, cross), val1, values2, cross)
    decreases |values2|
  {
    if |values2| == 0 {
      assert RowObject(val1, values2, cross).m == map["name" := Label(val1), "total" := Amount(0)];
    } else {
      var n := |values2| - 1;
      var front, val2 := values2[..n], values2[n];
      assert values2 == front + [val2];
      assert values2[n] in values2;
      assert NoDups(front) && val2 !in front by {
        assert forall j :: 0 <= j < n ==> front[j] == values2[j];
      }
      RowObjectAgrees(val1, front, cross);
      AddColumnAgrees(RowObject(val1, front, cross), RowObject(val1, values2, cross), val1, front, val2, cross);
    }
  }

  /** A column value "total" (an answer whose text is literally `total`) replaces the running
      total: with one user answering "yes" / "total", the object reports a total of 2. */
  lemma TotalColumnDoublesTotal()
    ensures RowObject("yes", ["total"], map["yes" := map["total" := 1]]).m["total"] == Amount(2)
  {
    var cross := map["yes" := map["total" := 1]];
    assert ["total"][..0] == [];
    assert CellOf(cross, "yes", "total") == 1;
  }

  /** A column value "name" replaces the row label with a count. */
  lemma NameColumnReplacesLabel()
    ensures RowObject("yes", ["name"], map["yes" := map["name" := 1]]).m["name"] == Amount(1)
  {
    var cross := map["yes" := map["name" := 1]];
    assert ["name"][..0] == [];
    assert CellOf(cross, "yes", "name") == 1;
  }
}
