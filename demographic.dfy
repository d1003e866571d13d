/** `calculateDemographicData` and `calculateCrossAnalysisData` of
    DemographicAnalysis.js: answer counts per declared option of one
    demographic question, and a grid of participant counts for two such
    questions. Rows are read through the fields the component names,
    `response_value` and `participant_id`. */
module DemographicAnalysis {
  import opened Seqs
  import opened JsCore
  import opened JsObject
  import CrossTab

  /** The question fields read here; a missing `options` is "" (both are falsy). */
  datatype Question = Question(id: string, category: string, setId: string, options: string)

  /** A response row as this component reads it. */
  datatype Response = Response(questionId: string, participant: JsVal, value: JsVal)

  predicate Matches(q: Question, category: string, setId: string)
  {
    q.category == category && q.setId == setId
  }

  /** `questions.find(q => q.question_category === category && q.survey_set_id === setId)` */
  function FindQuestion(qs: seq<Question>, category: string, setId: string): (r: Option<Question>)
    ensures r.Some? ==> r.value in qs && Matches(r.value, category, setId)
    ensures r.None? ==> forall i :: 0 <= i < |qs| ==> !Matches(qs[i], category, setId)
  {
    if |qs| == 0 then None
    else if Matches(qs[0], category, setId) then Some(qs[0])
    else FindQuestion(qs[1..], category, setId)
  }

  /** `find` returns the FIRST matching question. */
  lemma {:induction false} FindQuestionFirst(qs: seq<Question>, category: string, setId: string, i: nat)
    requires i < |qs| && Matches(qs[i], category, setId)
    requires forall j :: 0 <= j < i ==> !Matches(qs[j], category, setId)
    ensures FindQuestion(qs, category, setId) == Some(qs[i])
    decreases i
  {
    if i > 0 {
      FindQuestionFirst(qs[1..], category, setId, i - 1);
    }
  }

  /** `responses.filter(r => r.question_id === id)` */
  function ForQuestion(rs: seq<Response>, id: string): (out: seq<Response>)
    ensures forall r :: r in out <==> r in rs && r.questionId == id
  {
    if |rs| == 0 then []
    else
      var rest := rs[..|rs| - 1];
      assert rs == rest + [rs[|rs| - 1]];
      ForQuestion(rest, id) + (if rs[|rs| - 1].questionId == id then [rs[|rs| - 1]] else [])
  }

  /** `options ? options.split(',') : []` */
  function OptionList(options: string): seq<string>
  {
    if options == "" then [] else Split(options, ',')
  }

  /** Each option trimmed: `.map(opt => opt.trim())`. */
  function TrimAll(os: seq<string>): (ts: seq<string>)
    ensures |ts| == |os|
    ensures forall i :: 0 <= i < |os| ==> ts[i] == Trim(os[i])
  {
    if |os| == 0 then [] else TrimAll(os[..|os| - 1]) + [Trim(os[|os| - 1])]
  }

  // ---------------------------------------------------------------- one category

  /** `responseCounts` after each of `opts`, trimmed, was set to 0. */
  function InitCounts(opts: seq<string>): Dict<int>
  {
    if |opts| == 0 then Empty()
    else Put(InitCounts(opts[..|opts| - 1]), Trim(opts[|opts| - 1]), 0)
  }

  /** The object key of a counted response: `String(response_value)`. */
  function ValueKey(r: Response): string
  {
    ToStr(r.value)
  }

  /** The key a response is counted under, if any. */
  function CountedKey(r: Response): (ks: seq<string>)
    ensures |ks| <= 1
  {
    if Truthy(r.value) then [ValueKey(r)] else []
  }

  /** The keys of the responses with a truthy `response_value`, in order. */
  function TruthyKeys(rs: seq<Response>): (ks: seq<string>)
    ensures |ks| <= |rs|
  {
    if |rs| == 0 then [] else TruthyKeys(rs[..|rs| - 1]) + CountedKey(rs[|rs| - 1])
  }

  /** One counting step: a truthy value adds one to its bucket, creating it if needed. */
  function CountStep(d: Dict<int>, r: Response): Dict<int>
  {
    if Truthy(r.value) then Bump(d, ValueKey(r)) else d
  }

  /** `responseCounts` after every response of `rs` was counted into `d`. */
  function CountAll(d: Dict<int>, rs: seq<Response>): Dict<int>
  {
    if |rs| == 0 then d else CountStep(CountAll(d, rs[..|rs| - 1]), rs[|rs| - 1])
  }

  /** The buckets of question `q`: declared options first, then counted values. */
  function Buckets(q: Question, rs: seq<Response>): Dict<int>
  {
    var opts := OptionList(q.options);
    var frs := ForQuestion(rs, q.id);
    CountAll(InitCounts(opts), frs)
  }

  /** What `calculateDemographicData(category)` returns: `{ name, value }` pairs in
      `Object.entries` order, or `[]` when the set has no question of that category. */
  function DemographicData(qs: seq<Question>, rs: seq<Response>, setId: string, category: string): seq<(string, int)>
  {
    match FindQuestion(qs, category, setId)
    case None => []
    case Some(q) =>
      BucketsShape(q, rs);
      Entries(Buckets(q, rs))
  }

  /** The keys of `d` are the distinct `keys` in first-seen order, and every
      name's count (0 when absent) is how often it occurs in `counted`. */
  ghost predicate Shape(d: Dict<int>, keys: seq<string>, counted: seq<string>)
  {
    && Valid(d)
    && d.order == Distinct(keys)
    && forall k :: Counter(d)(k) == Count(counted, k)
  }

  lemma {:induction false} InitCountsValid(opts: seq<string>)
    ensures Valid(InitCounts(opts))
  {
    if |opts| > 0 {
      InitCountsValid(opts[..|opts| - 1]);
      PutValid(InitCounts(opts[..|opts| - 1]), Trim(opts[|opts| - 1]), 0);
    }
  }

  lemma {:induction false} InitCountsOrder(opts: seq<string>)
    ensures InitCounts(opts).order == Distinct(TrimAll(opts))
  {
    if |opts| > 0 {
      var opts' := opts[..|opts| - 1];
      var k := Trim(opts[|opts| - 1]);
      InitCountsOrder(opts');
      InitCountsValid(opts');
      ValidMember(InitCounts(opts'), k);
      assert TrimAll(opts) == TrimAll(opts') + [k];
      DistinctSnoc(TrimAll(opts'), k);
    }
  }

  lemma {:induction false} InitCountsZero(opts: seq<string>, k: string)
    ensures Counter(InitCounts(opts))(k) == 0
  {
    if |opts| > 0 {
      InitCountsZero(opts[..|opts| - 1], k);
    }
  }

  lemma {:induction false} CountAllValid(d: Dict<int>, rs: seq<Response>)
    requires Valid(d)
    ensures Valid(CountAll(d, rs))
  {
    if |rs| > 0 {
      var rs' := rs[..|rs| - 1];
      var r := rs[|rs| - 1];
      CountAllValid(d, rs');
      if Truthy(r.value) {
        PutValid(CountAll(d, rs'), ValueKey(r), Counter(CountAll(d, rs'))(ValueKey(r)) + 1);
      }
    }
  }

  lemma {:induction false} CountAllOrder(d: Dict<int>, rs: seq<Response>, keys: seq<string>)
    requires Valid(d) && d.order == Distinct(keys)
    ensures CountAll(d, rs).order == Distinct(keys + TruthyKeys(rs))
  {
    if |rs| == 0 {
      assert keys + TruthyKeys(rs) == keys;
    } else {
      var rs' := rs[..|rs| - 1];
      var r := rs[|rs| - 1];
      var before := CountAll(d, rs');
      var t := keys + TruthyKeys(rs');
      CountAllOrder(d, rs', keys);
      assert keys + TruthyKeys(rs) == t + CountedKey(r);
      if Truthy(r.value) {
        CountAllValid(d, rs');
        ValidMember(before, ValueKey(r));
        DistinctSnoc(t, ValueKey(r));
      } else {
        assert t + CountedKey(r) == t;
      }
    }
  }

  lemma {:induction false} CountAllCounts(d: Dict<int>, rs: seq<Response>, counted: seq<string>, k: string)
    requires forall x :: Counter(d)(x) == Count(counted, x)
    ensures Counter(CountAll(d, rs))(k) == Count(counted + TruthyKeys(rs), k)
  {
    if |rs| == 0 {
      assert counted + TruthyKeys(rs) == counted;
    } else {
      var rs' := rs[..|rs| - 1];
      var r := rs[|rs| - 1];
      var t := counted + TruthyKeys(rs');
      CountAllCounts(d, rs', counted, k);
      assert counted + TruthyKeys(rs) == t + CountedKey(r);
      if Truthy(r.value) {
        CountSnoc(t, ValueKey(r), k);
      } else {
        assert t + CountedKey(r) == t;
      }
    }
  }

  lemma CountsShape(opts: seq<string>, frs: seq<Response>)
    ensures Shape(CountAll(InitCounts(opts), frs), TrimAll(opts) + TruthyKeys(frs), TruthyKeys(frs))
  {
    var d := InitCounts(opts);
    InitCountsValid(opts);
    InitCountsOrder(opts);
    CountAllValid(d, frs);
    CountAllOrder(d, frs, TrimAll(opts));
    forall k
      ensures Counter(CountAll(d, frs))(k) == Count(TruthyKeys(frs), k)
    {
      forall x
        ensures Counter(d)(x) == Count([], x)
      {
        InitCountsZero(opts, x);
      }
      CountAllCounts(d, frs, [], k);
      assert [] + TruthyKeys(frs) == TruthyKeys(frs);
    }
  }

  /** The buckets of `q`: every trimmed option, then every counted value, each once;
      a bucket holds the number of rows whose value is its key. */
  lemma BucketsShape(q: Question, rs: seq<Response>)
    ensures var opts := OptionList(q.options); var frs := ForQuestion(rs, q.id);
      Shape(Buckets(q, rs), TrimAll(opts) + TruthyKeys(frs), TruthyKeys(frs))
  {
    CountsShape(OptionList(q.options), ForQuestion(rs, q.id));
  }


  function Names(es: seq<(string, int)>): (ns: seq<string>)
    ensures |ns| == |es|
    ensures forall i :: 0 <= i < |es| ==> ns[i] == es[i].0
  {
    seq(|es|, i requires 0 <= i < |es| => es[i].0)
  }

  function Amounts(es: seq<(string, int)>): (vs: seq<int>)
    ensures |vs| == |es|
    ensures forall i :: 0 <= i < |es| ==> vs[i] == es[i].1
  {
    seq(|es|, i requires 0 <= i < |es| => es[i].1)
  }

  /** Without a question of that category in the set, the result is empty. */
  lemma NoQuestionNoData(qs: seq<Question>, rs: seq<Response>, setId: string, category: string)
    requires forall i :: 0 <= i < |qs| ==> !Matches(qs[i], category, setId)
    ensures DemographicData(qs, rs, setId, category) == []
  {
  }

  /** The entries of question `q`'s buckets: in JavaScript key order over the trimmed
      options then the counted values, each name once, each value the number of rows
      with a truthy `response_value` of that name. */
  lemma DemographicEntries(qs: seq<Question>, rs: seq<Response>, setId: string, category: string)
    requires FindQuestion(qs, category, setId).Some?
    ensures var q := FindQuestion(qs, category, setId).value;
      var frs := ForQuestion(rs, q.id);
      var out := DemographicData(qs, rs, setId, category);
      && Names(out) == KeyOrder(Distinct(TrimAll(OptionList(q.options)) + TruthyKeys(frs)))
      && NoDups(Names(out))
      && forall i :: 0 <= i < |out| ==> out[i].1 == Count(TruthyKeys(frs), out[i].0)
  {
    var q := FindQuestion(qs, category, setId).value;
    BucketsShape(q, rs);
  }

  /** Every declared option, trimmed, gets a bucket, even when no row chose it. */
  lemma DeclaredOptionsHaveBuckets(qs: seq<Question>, rs: seq<Response>, setId: string, category: string, j: nat)
    requires FindQuestion(qs, category, setId).Some?
    requires j < |OptionList(FindQuestion(qs, category, setId).value.options)|
    ensures Trim(OptionList(FindQuestion(qs, category, setId).value.options)[j])
            in Names(DemographicData(qs, rs, setId, category))
  {
    var q := FindQuestion(qs, category, setId).value;
    var opts := OptionList(q.options);
    var d := Buckets(q, rs);
    BucketsShape(q, rs);
    var k := Trim(opts[j]);
    assert k == TrimAll(opts)[j];
    assert k in TrimAll(opts) + TruthyKeys(ForQuestion(rs, q.id));
    BucketNamed(d, k);
  }

  /** A value outside the declared options is not dropped: it gets a bucket of its own. */
  lemma CountedValuesHaveBuckets(qs: seq<Question>, rs: seq<Response>, setId: string, category: string, r: Response)
    requires FindQuestion(qs, category, setId).Some?
    requires r in rs && r.questionId == FindQuestion(qs, category, setId).value.id && Truthy(r.value)
    ensures ValueKey(r) in Names(DemographicData(qs, rs, setId, category))
  {
    var q := FindQuestion(qs, category, setId).value;
    var frs := ForQuestion(rs, q.id);
    var d := Buckets(q, rs);
    BucketsShape(q, rs);
    TruthyKeysCover(frs, r);
    assert ValueKey(r) in TrimAll(OptionList(q.options)) + TruthyKeys(frs);
    BucketNamed(d, ValueKey(r));
  }

  lemma {:induction false} TruthyKeysCover(rs: seq<Response>, r: Response)
    requires r in rs && Truthy(r.value)
    ensures ValueKey(r) in TruthyKeys(rs)
  {
    var rs' := rs[..|rs| - 1];
    if rs[|rs| - 1] != r {
      assert rs == rs' + [rs[|rs| - 1]];
      TruthyKeysCover(rs', r);
    }
  }

  /** A key in the insertion order of a valid dictionary is one of its entry names. */
  lemma BucketNamed(d: Dict<int>, k: string)
    requires Valid(d) && k in d.order
    ensures k in Names(Entries(d))
  {
    var ks := Keys(d);
    assert k in multiset(ks);
    var i :| 0 <= i < |ks| && ks[i] == k;
    assert Names(Entries(d))[i] == k;
  }

  /** The bucket values add up to the number of rows with a truthy `response_value`. */
  lemma BucketsSumToTruthyRows(qs: seq<Question>, rs: seq<Response>, setId: string, category: string)
    requires FindQuestion(qs, category, setId).Some?
    ensures var q := FindQuestion(qs, category, setId).value;
      Sum(Amounts(DemographicData(qs, rs, setId, category))) == |TruthyKeys(ForQuestion(rs, q.id))|
  {
    var q := FindQuestion(qs, category, setId).value;
    var frs := ForQuestion(rs, q.id);
    var t := TruthyKeys(frs);
    var d := Buckets(q, rs);
    BucketsShape(q, rs);
    var out := Entries(d);
    var ks := Keys(d);
    SumOfValues(k => Count(t, k), ks, Amounts(out));
    SumOfPermutation(k => Count(t, k), ks, d.order);
    forall i | 0 <= i < |t|
      ensures t[i] in d.order
    {
      assert t[i] in TrimAll(OptionList(q.options)) + t;
    }
    ValidNoDups(d);
    CountsCover(t, d.order);
  }

  /** `calculateDemographicData`: find the question, zero every declared option,
      count the truthy values, list the entries. */
  method CalculateDemographicData(qs: seq<Question>, rs: seq<Response>, setId: string, category: string)
    returns (data: seq<(string, int)>)
    ensures data == DemographicData(qs, rs, setId, category)
  {
    var categoryQuestion := FindQuestion(qs, category, setId);
    if categoryQuestion.None? {
      return [];
    }
    var q := categoryQuestion.value;
    var categoryResponses := ForQuestion(rs, q.id);
    var responseCounts := ZeroOptions(OptionList(q.options));
    responseCounts := CountResponses(responseCounts, categoryResponses);
    BucketsShape(q, rs);
    data := Entries(responseCounts);
  }

  /** The `options.split(',').forEach` loop setting each trimmed option to 0. */
  method ZeroOptions(opts: seq<string>) returns (responseCounts: Dict<int>)
    ensures responseCounts == InitCounts(opts)
  {
    responseCounts := Empty();
    for i := 0 to |opts|
      invariant responseCounts == InitCounts(opts[..i])
    {
      assert opts[..i + 1][..i] == opts[..i];
      responseCounts := Put(responseCounts, Trim(opts[i]), 0);
    }
    assert opts[..|opts|] == opts;
  }

  /** The `categoryResponses.forEach` counting loop. */
  method CountResponses(start: Dict<int>, rs: seq<Response>) returns (responseCounts: Dict<int>)
    ensures responseCounts == CountAll(start, rs)
  {
    responseCounts := start;
    for i := 0 to |rs|
      invariant responseCounts == CountAll(start, rs[..i])
    {
      assert rs[..i + 1][..i] == rs[..i];
      var value := rs[i].value;
      if Truthy(value) {
        var key := ToStr(value);
        responseCounts := Put(responseCounts, key, (if key in responseCounts.m then responseCounts.m[key] else 0) + 1);
      }
    }
    assert rs[..|rs|] == rs;
  }

  // ---------------------------------------------------------------- two categories

  /** The row of `r` as the join of CrossTab sees it: keyed by `String(participant_id)`. */
  function AsCross(r: Response): CrossTab.Response
  {
    CrossTab.Response(r.questionId, ToStr(r.participant), r.value)
  }

  function AsCrossAll(rs: seq<Response>): (out: seq<CrossTab.Response>)
    ensures |out| == |rs|
    ensures forall i :: 0 <= i < |rs| ==> out[i] == AsCross(rs[i])
  {
    seq(|rs|, i requires 0 <= i < |rs| => AsCross(rs[i]))
  }

  /** `Object.values(participantResponses)`: per participant, the last primary and the
      last secondary answer. */
  function Joined(rs: seq<Response>, pq: Question, sq: Question): seq<CrossTab.Pair>
  {
    CrossTab.Records(AsCrossAll(ForQuestion(rs, pq.id)), AsCrossAll(ForQuestion(rs, sq.id)))
  }

  /** `crossData` as initialised: a zero cell for each declared pair of options. */
  function ZeroGrid(primaries: seq<string>, secondaries: seq<string>): (grid: map<string, map<string, int>>)
    ensures forall p :: p in grid <==> p in primaries
  {
    map p | p in primaries :: ZeroRow(secondaries)
  }

  function ZeroRow(secondaries: seq<string>): (row: map<string, int>)
    ensures forall s :: s in row <==> s in secondaries
  {
    map s | s in secondaries :: 0
  }

  /** The key pair a complete participant record is counted under (not trimmed). */
  function CellKey(p: CrossTab.Pair): (string, string)
  {
    (ToStr(p.first), ToStr(p.second))
  }

  /** The key pairs of the complete records, in order. */
  function Observed(ps: seq<CrossTab.Pair>): (t: seq<(string, string)>)
    ensures |t| <= |ps|
  {
    if |ps| == 0 then []
    else
      var p := ps[|ps| - 1];
      Observed(ps[..|ps| - 1]) + (if CrossTab.Complete(p) then [CellKey(p)] else [])
  }

  /** One record of the counting pass: `crossData[primary]` must exist, or reading
      `[secondary]` from `undefined` throws (`None`). */
  function CrossCount(cross: map<string, map<string, int>>, p: CrossTab.Pair): Option<map<string, map<string, int>>>
  {
    if !CrossTab.Complete(p) then Some(cross)
    else if CellKey(p).0 in cross then Some(CrossTab.Bump(cross, CellKey(p).0, CellKey(p).1))
    else None
  }

  /** The counting pass over `ps`; `None` once a record has thrown. */
  function CrossCountAll(cross: map<string, map<string, int>>, ps: seq<CrossTab.Pair>): Option<map<string, map<string, int>>>
  {
    if |ps| == 0 then Some(cross)
    else
      match CrossCountAll(cross, ps[..|ps| - 1])
      case None => None
      case Some(c) => CrossCount(c, ps[|ps| - 1])
  }

  /** The chart row object of `primary`: `{ name: primary }`, then each secondary option
      set to its cell. A secondary option spelled "name" overwrites the label. */
  function RowItem(primary: string, secondaries: seq<string>, cross: map<string, map<string, int>>): Dict<Field>
  {
    if |secondaries| == 0 then Put(Empty(), "name", Label(primary))
    else
      var s := secondaries[|secondaries| - 1];
      Put(RowItem(primary, secondaries[..|secondaries| - 1], cross), s, Amount(CrossTab.CellOf(cross, primary, s)))
  }

  /** What `calculateCrossAnalysisData` produces: `Threw` for the `TypeError` a
      complete record with an undeclared primary answer raises. */
  datatype CrossOutcome = Threw | Rows(rows: seq<Dict<Field>>)

  function RowItems(primaries: seq<string>, secondaries: seq<string>, cross: map<string, map<string, int>>): (rows: seq<Dict<Field>>)
    ensures |rows| == |primaries|
    ensures forall i :: 0 <= i < |primaries| ==> rows[i] == RowItem(primaries[i], secondaries, cross)
  {
    seq(|primaries|, i requires 0 <= i < |primaries| => RowItem(primaries[i], secondaries, cross))
  }

  function CrossAnalysisData(qs: seq<Question>, rs: seq<Response>, setId: string, primary: string, secondary: string): CrossOutcome
  {
    var pq := FindQuestion(qs, primary, setId);
    var sq := FindQuestion(qs, secondary, setId);
    if pq.None? || sq.None? then Rows([])
    else
      var primaries := TrimAll(OptionList(pq.value.options));
      var secondaries := TrimAll(OptionList(sq.value.options));
      match CrossCountAll(ZeroGrid(primaries, secondaries), Joined(rs, pq.value, sq.value))
      case None => Threw
      case Some(cross) => Rows(RowItems(primaries, secondaries, cross))
  }

  /** A complete record whose primary answer has no row in `cross`. */
  predicate Undeclared(cross: map<string, map<string, int>>, p: CrossTab.Pair)
  {
    CrossTab.Complete(p) && CellKey(p).0 !in cross
  }

  /** The pass throws exactly when some complete record has an undeclared primary
      answer, and otherwise keeps the set of rows. */
  lemma {:induction false} CrossCountAllThrows(cross: map<string, map<string, int>>, ps: seq<CrossTab.Pair>)
    ensures CrossCountAll(cross, ps).None? <==> exists i :: 0 <= i < |ps| && Undeclared(cross, ps[i])
    ensures CrossCountAll(cross, ps).Some? ==> CrossCountAll(cross, ps).value.Keys == cross.Keys
  {
    if |ps| > 0 {
      var ps' := ps[..|ps| - 1];
      var p := ps[|ps| - 1];
      CrossCountAllThrows(cross, ps');
      if CrossCountAll(cross, ps').None? {
        var i :| 0 <= i < |ps'| && Undeclared(cross, ps'[i]);
        assert ps[i] == ps'[i];
      } else {
        var c := CrossCountAll(cross, ps').value;
        if Undeclared(cross, p) {
          assert Undeclared(cross, ps[|ps| - 1]);
        } else {
          forall i | 0 <= i < |ps|
            ensures !Undeclared(cross, ps[i])
          {
            if i < |ps'| {
              assert ps[i] == ps'[i];
            }
          }
        }
      }
    }
  }

  lemma CellBump(cross: map<string, map<string, int>>, a: string, b: string, k1: string, k2: string)
    ensures CrossTab.CellOf(CrossTab.Bump(cross, a, b), k1, k2)
         == CrossTab.CellOf(cross, k1, k2) + (if (a, b) == (k1, k2) then 1 else 0)
  {
  }

  /** Without a throw, each cell has grown by the number of complete records with its key pair. */
  lemma {:induction false} CrossCountAllCell(cross: map<string, map<string, int>>, ps: seq<CrossTab.Pair>, k1: string, k2: string)
    requires CrossCountAll(cross, ps).Some?
    ensures CrossTab.CellOf(CrossCountAll(cross, ps).value, k1, k2)
         == CrossTab.CellOf(cross, k1, k2) + Count(Observed(ps), (k1, k2))
  {
    if |ps| == 0 {
    } else {
      var ps' := ps[..|ps| - 1];
      var p := ps[|ps| - 1];
      var c := CrossCountAll(cross, ps').value;
      CrossCountAllCell(cross, ps', k1, k2);
      if CrossTab.Complete(p) {
        assert Observed(ps) == Observed(ps') + [CellKey(p)];
        CountSnoc(Observed(ps'), CellKey(p), (k1, k2));
        CellBump(c, CellKey(p).0, CellKey(p).1, k1, k2);
      } else {
        assert Observed(ps) == Observed(ps');
      }
    }
  }

  /** Every cell of the initial grid is 0, declared or not (`|| 0`). */
  lemma ZeroGridCell(primaries: seq<string>, secondaries: seq<string>, k1: string, k2: string)
    ensures CrossTab.CellOf(ZeroGrid(primaries, secondaries), k1, k2) == 0
  {
  }

  /** The row object holds `name` and exactly the secondary options; each option holds its
      cell, and `name` holds the primary option unless an option is spelled "name". */
  lemma {:induction false} RowItemFields(primary: string, secondaries: seq<string>, cross: map<string, map<string, int>>, k: string)
    ensures k in RowItem(primary, secondaries, cross).m <==> k == "name" || k in secondaries
    ensures k in secondaries ==> RowItem(primary, secondaries, cross).m[k] == Amount(CrossTab.CellOf(cross, primary, k))
    ensures k == "name" && "name" !in secondaries ==> RowItem(primary, secondaries, cross).m[k] == Label(primary)
  {
    if |secondaries| > 0 {
      var front := secondaries[..|secondaries| - 1];
      assert secondaries == front + [secondaries[|secondaries| - 1]];
      RowItemFields(primary, front, cross, k);
    }
  }

  lemma {:induction false} RowItemValid(primary: string, secondaries: seq<string>, cross: map<string, map<string, int>>)
    ensures Valid(RowItem(primary, secondaries, cross))
  {
    if |secondaries| == 0 {
      PutValid(Empty<Field>(), "name", Label(primary));
    } else {
      var front := secondaries[..|secondaries| - 1];
      var s := secondaries[|secondaries| - 1];
      RowItemValid(primary, front, cross);
      PutValid(RowItem(primary, front, cross), s, Amount(CrossTab.CellOf(cross, primary, s)));
    }
  }

  /** The row object's keys in insertion order: `name`, then each new secondary option. */
  lemma {:induction false} RowItemOrder(primary: string, secondaries: seq<string>, cross: map<string, map<string, int>>)
    ensures RowItem(primary, secondaries, cross).order == Distinct(["name"] + secondaries)
  {
    if |secondaries| == 0 {
      assert ["name"] + secondaries == [] + ["name"];
      DistinctSnoc([], "name");
    } else {
      var front := secondaries[..|secondaries| - 1];
      var s := secondaries[|secondaries| - 1];
      var before := RowItem(primary, front, cross);
      RowItemOrder(primary, front, cross);
      RowItemValid(primary, front, cross);
      ValidMember(before, s);
      assert ["name"] + secondaries == (["name"] + front) + [s];
      DistinctSnoc(["name"] + front, s);
    }
  }

  /** Without both questions in the set there is nothing to chart. */
  lemma MissingQuestionNoRows(qs: seq<Question>, rs: seq<Response>, setId: string, primary: string, secondary: string)
    requires FindQuestion(qs, primary, setId).None? || FindQuestion(qs, secondary, setId).None?
    ensures CrossAnalysisData(qs, rs, setId, primary, secondary) == Rows([])
  {
  }

  /** With both questions present, the analysis throws exactly when a participant's record
      is complete and its primary answer, as a string, is not a declared primary option. */
  lemma CrossThrowsIff(qs: seq<Question>, rs: seq<Response>, setId: string, primary: string, secondary: string)
    requires FindQuestion(qs, primary, setId).Some? && FindQuestion(qs, secondary, setId).Some?
    ensures var pq := FindQuestion(qs, primary, setId).value;
            var sq := FindQuestion(qs, secondary, setId).value;
            var ps := Joined(rs, pq, sq);
            CrossAnalysisData(qs, rs, setId, primary, secondary).Threw?
            <==> exists i :: 0 <= i < |ps| && CrossTab.Complete(ps[i])
                             && ToStr(ps[i].first) !in TrimAll(OptionList(pq.options))
  {
    var pq := FindQuestion(qs, primary, setId).value;
    var sq := FindQuestion(qs, secondary, setId).value;
    var primaries := TrimAll(OptionList(pq.options));
    var grid := ZeroGrid(primaries, TrimAll(OptionList(sq.options)));
    var ps := Joined(rs, pq, sq);
    CrossCountAllThrows(grid, ps);
    assert forall i :: 0 <= i < |ps| ==> (Undeclared(grid, ps[i]) <==> CrossTab.Complete(ps[i]) && ToStr(ps[i].first) !in primaries);
  }

  /** The rows built from a pass that did not throw, cell by cell. */
  lemma GridRows(primaries: seq<string>, secondaries: seq<string>, ps: seq<CrossTab.Pair>, i: nat, k: string)
    requires CrossCountAll(ZeroGrid(primaries, secondaries), ps).Some?
    requires i < |primaries|
    ensures var row := RowItem(primaries[i], secondaries, CrossCountAll(ZeroGrid(primaries, secondaries), ps).value);
            && (k in row.m <==> k == "name" || k in secondaries)
            && (k in secondaries ==> row.m[k] == Amount(Count(Observed(ps), (primaries[i], k))))
            && (k == "name" && "name" !in secondaries ==> row.m[k] == Label(primaries[i]))
  {
    var grid := ZeroGrid(primaries, secondaries);
    var cross := CrossCountAll(grid, ps).value;
    RowItemFields(primaries[i], secondaries, cross, k);
    CrossCountAllCell(grid, ps, primaries[i], k);
    ZeroGridCell(primaries, secondaries, primaries[i], k);
  }

  /** Otherwise there is one row per declared primary option, in declaration order, and
      each secondary option's cell counts the participants whose complete record has
      exactly that primary and secondary answer. */
  lemma CrossCells(qs: seq<Question>, rs: seq<Response>, setId: string, primary: string, secondary: string, i: nat, k: string)
    requires FindQuestion(qs, primary, setId).Some? && FindQuestion(qs, secondary, setId).Some?
    requires CrossAnalysisData(qs, rs, setId, primary, secondary).Rows?
    ensures var pq := FindQuestion(qs, primary, setId).value;
            var sq := FindQuestion(qs, secondary, setId).value;
            var primaries := TrimAll(OptionList(pq.options));
            var secondaries := TrimAll(OptionList(sq.options));
            var rows := CrossAnalysisData(qs, rs, setId, primary, secondary).rows;
            && |rows| == |primaries|
            && (i < |rows| ==>
                 && (k in rows[i].m <==> k == "name" || k in secondaries)
                 && (k in secondaries ==> rows[i].m[k] == Amount(Count(Observed(Joined(rs, pq, sq)), (primaries[i], k))))
                 && (k == "name" && "name" !in secondaries ==> rows[i].m[k] == Label(primaries[i])))
  {
    var pq := FindQuestion(qs, primary, setId).value;
    var sq := FindQuestion(qs, secondary, setId).value;
    var primaries := TrimAll(OptionList(pq.options));
    if i < |primaries| {
      GridRows(primaries, TrimAll(OptionList(sq.options)), Joined(rs, pq, sq), i, k);
    }
  }

  /** Once a record has thrown, the rest of the pass does not run. */
  lemma {:induction false} ThrowSticks(cross: map<string, map<string, int>>, ps: seq<CrossTab.Pair>, n: nat)
    requires n <= |ps| && CrossCountAll(cross, ps[..n]).None?
    ensures CrossCountAll(cross, ps).None?
    decreases |ps| - n
  {
    if n < |ps| {
      assert ps[..n + 1][..n] == ps[..n];
      ThrowSticks(cross, ps, n + 1);
    } else {
      assert ps[..n] == ps;
    }
  }

  /** `calculateCrossAnalysisData(primary, secondary)`: find both questions, join the
      participants' answers, zero the declared grid, count the complete records, build
      one row object per primary option. */
  method CalculateCrossAnalysisData(qs: seq<Question>, rs: seq<Response>, setId: string, primary: string, secondary: string)
    returns (out: CrossOutcome)
    ensures out == CrossAnalysisData(qs, rs, setId, primary, secondary)
  {
    var primaryQuestion := FindQuestion(qs, primary, setId);
    var secondaryQuestion := FindQuestion(qs, secondary, setId);
    if primaryQuestion.None? || secondaryQuestion.None? {
      return Rows([]);
    }
    var pq, sq := primaryQuestion.value, secondaryQuestion.value;
    var primaryRows := AsCrossAll(ForQuestion(rs, pq.id));
    var secondaryRows := AsCrossAll(ForQuestion(rs, sq.id));
    var participantResponses := CrossTab.GroupBySide(Empty(), primaryRows, true);
    participantResponses := CrossTab.GroupBySide(participantResponses, secondaryRows, false);
    assert participantResponses == CrossTab.UserResponses(primaryRows, secondaryRows);
    CrossTab.UserResponsesValid(primaryRows, secondaryRows);
    var primaryOptions := TrimAll(OptionList(pq.options));
    var secondaryOptions := TrimAll(OptionList(sq.options));
    var crossData := InitGrid(primaryOptions, secondaryOptions);
    var counted := CountCross(crossData, Values(participantResponses));
    if counted.None? {
      return Threw;
    }
    var rows := BuildRows(primaryOptions, secondaryOptions, counted.value);
    return Rows(rows);
  }

  /** The nested `forEach` that zeroes every declared cell. */
  method InitGrid(primaries: seq<string>, secondaries: seq<string>) returns (crossData: map<string, map<string, int>>)
    ensures crossData == ZeroGrid(primaries, secondaries)
  {
    crossData := map[];
    for i := 0 to |primaries|
      invariant crossData == ZeroGrid(primaries[..i], secondaries)
    {
      var row: map<string, int> := map[];
      for j := 0 to |secondaries|
        invariant row == ZeroRow(secondaries[..j])
      {
        assert secondaries[..j + 1] == secondaries[..j] + [secondaries[j]];
        row := row[secondaries[j] := 0];
      }
      assert secondaries[..|secondaries|] == secondaries;
      assert primaries[..i + 1] == primaries[..i] + [primaries[i]];
      crossData := crossData[primaries[i] := row];
    }
    assert primaries[..|primaries|] == primaries;
  }

  /** The `Object.values(participantResponses).forEach` counting pass; `None` is the throw. */
  method CountCross(start: map<string, map<string, int>>, ps: seq<CrossTab.Pair>)
    returns (r: Option<map<string, map<string, int>>>)
    ensures r == CrossCountAll(start, ps)
  {
    var crossData := start;
    for i := 0 to |ps|
      invariant CrossCountAll(start, ps[..i]) == Some(crossData)
    {
      assert ps[..i + 1][..i] == ps[..i];
      var response := ps[i];
      if Truthy(response.first) && Truthy(response.second) {
        var key1 := ToStr(response.first);
        var key2 := ToStr(response.second);
        if key1 !in crossData {
          ThrowSticks(start, ps, i + 1);
          return None;
        }
        var row := crossData[key1];
        crossData := crossData[key1 := row[key2 := (if key2 in row then row[key2] else 0) + 1]];
      }
    }
    assert ps[..|ps|] == ps;
    return Some(crossData);
  }

  /** `primaryOptions.map(...)`: one row object per primary option. */
  method BuildRows(primaries: seq<string>, secondaries: seq<string>, cross: map<string, map<string, int>>)
    returns (rows: seq<Dict<Field>>)
    ensures rows == RowItems(primaries, secondaries, cross)
  {
    rows := [];
    for i := 0 to |primaries|
      invariant |rows| == i
      invariant forall k :: 0 <= k < i ==> rows[k] == RowItem(primaries[k], secondaries, cross)
    {
      var item := BuildItem(primaries[i], secondaries, cross);
      rows := rows + [item];
    }
  }

  /** `{ name: primary }` then `item[secondary] = crossData[primary][secondary] || 0`. */
  method BuildItem(primary: string, secondaries: seq<string>, cross: map<string, map<string, int>>)
    returns (item: Dict<Field>)
    ensures item == RowItem(primary, secondaries, cross)
  {
    item := Put(Empty(), "name", Label(primary));
    for j := 0 to |secondaries|
      invariant item == RowItem(primary, secondaries[..j], cross)
    {
      var secondary := secondaries[j];
      assert secondaries[..j + 1][..j] == secondaries[..j];
      var row := if primary in cross then cross[primary] else map[];
      item := Put(item, secondary, Amount(if secondary in row then row[secondary] else 0));
    }
    assert secondaries[..|secondaries|] == secondaries;
  }
}
