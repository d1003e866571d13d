/** The question-set import of the survey upload endpoint: the spreadsheet rows
    (already read into objects) become question records of a new survey set.
    Question types are normalised through an alias table, `is_required` is
    coerced to a boolean, and a missing set type is guessed from the most
    frequent question category. */
module SurveyImport {
  import opened Seqs
  import opened JsCore
  import opened JsObject

  // ---------------------------------------------------------------- question types

  /** The five types a stored question may have. */
  const CanonicalTypes: set<string> := {"single_choice", "multiple_choice", "scale_5", "scale_7", "text"}

  /** The own entries of the alias table: the canonical type an alias stands for. */
  function Alias(k: string): (r: Option<string>)
    ensures r.Some? ==> r.value in CanonicalTypes
    ensures k in CanonicalTypes ==> r == Some(k)
  {
    match k
    case "single_choice" => Some("single_choice")
    case "single" => Some("single_choice")
    case "singlechoice" => Some("single_choice")
    case "multiple_choice" => Some("multiple_choice")
    case "multiple" => Some("multiple_choice")
    case "multiplechoice" => Some("multiple_choice")
    case "scale_5" => Some("scale_5")
    case "scale5" => Some("scale_5")
    case "scale_7" => Some("scale_7")
    case "scale7" => Some("scale_7")
    case "text" => Some("text")
    case _ => None
  }

  /** `type.toLowerCase().replace(/\s+/g, '')` */
  function TypeKey(s: string): string
  {
    RemoveChars(ToLower(s), IsWhite)
  }

  /** `normalizeQuestionType`, looking only at the table's own entries: a falsy
      value or a key outside the table gives nothing. A truthy value that is not
      a string makes `toLowerCase` throw, which the import reports like an
      unknown type; it also gives nothing here. */
  function NormalizeQuestionType(t: JsVal): (r: Option<string>)
    ensures r.Some? ==> r.value in CanonicalTypes
  {
    if !Truthy(t) || !t.Str? then None
    else
      Alias(TypeKey(t.s))
  }

  /** A key made of lower-case letters, digits and `_` is its own lookup key. */
  predicate PlainChars(s: string)
  {
    forall i :: 0 <= i < |s| ==> 'a' <= s[i] <= 'z' || '0' <= s[i] <= '9' || s[i] == '_'
  }

  lemma {:induction false} PlainKey(s: string)
    requires PlainChars(s)
    ensures TypeKey(s) == s
  {
    assert ToLower(s) == s;
    RemoveNone(s);
  }

  lemma {:induction false} RemoveNone(s: string)
    requires forall i :: 0 <= i < |s| ==> !IsWhite(s[i])
    ensures RemoveChars(s, IsWhite) == s
    decreases |s|
  {
    if |s| > 0 {
      RemoveNone(s[1..]);
    }
  }

  /** Only a non-empty string whose key is in the table has a type. */
  lemma NormalizeSome(t: JsVal)
    ensures NormalizeQuestionType(t).Some? <==> t.Str? && t.s != "" && Alias(TypeKey(t.s)).Some?
  {
  }

  /** Every canonical type normalises to itself. */
  lemma CanonicalFixed(c: string)
    requires c in CanonicalTypes
    ensures NormalizeQuestionType(Str(c)) == Some(c)
  {
    CanonicalKey(c);
    CanonicalAlias(c);
  }

  lemma CanonicalAlias(c: string)
    requires c in CanonicalTypes
    ensures c != "" && Alias(c) == Some(c)
  {
  }

  lemma CanonicalKey(c: string)
    requires c in CanonicalTypes
    ensures TypeKey(c) == c
  {
    CanonicalPlain(c);
    PlainKey(c);
  }

  lemma CanonicalPlain(c: string)
    requires c in CanonicalTypes
    ensures PlainChars(c)
  {
  }

  /** Normalising twice is normalising once. */
  lemma NormalizeIdempotent(t: JsVal)
    ensures NormalizeQuestionType(t).Some? ==>
              NormalizeQuestionType(Str(NormalizeQuestionType(t).value)) == NormalizeQuestionType(t)
  {
    var r := NormalizeQuestionType(t);
    if r.Some? {
      CanonicalFixed(r.value);
    }
  }

  /** What `VALID_QUESTION_TYPES[key]` finds in the object as written: an own
      alias, a member every plain object inherits, or nothing. */
  datatype Lookup = Own(canonical: string) | Inherited(member: string) | Absent

  /** The members of `Object.prototype` whose names are lower case without white space. */
  predicate IsInheritedMember(k: string)
  {
    k == "constructor" || k == "__proto__"
  }

  /** The lookup of `normalizeQuestionType` as written; an inherited member is a
      truthy value (a function, or the prototype object), so it passes the type check. */
  function LookupAsWritten(t: JsVal): (r: Lookup)
    ensures r.Own? <==> NormalizeQuestionType(t).Some?
    ensures r.Own? ==> r.canonical == NormalizeQuestionType(t).value
  {
    if !Truthy(t) || !t.Str? then Absent
    else
      var k := TypeKey(t.s);
      match Alias(k)
      case Some(c) => Own(c)
      case None => if IsInheritedMember(k) then Inherited(k) else Absent
  }

  /** The type `constructor` is accepted as written (the lookup finds the
      inherited `constructor` function) although it names no question type;
      the own-entry lookup rejects it. */
  lemma InheritedTypeAccepted()
    ensures LookupAsWritten(Str("constructor")) == Inherited("constructor")
    ensures NormalizeQuestionType(Str("constructor")).None?
  {
    ConstructorKey();
    AliasLength("constructor");
    InheritedLookup("constructor");
  }

  lemma ConstructorKey()
    ensures TypeKey("constructor") == "constructor"
  {
    PlainKey("constructor");
  }

  /** No alias is eleven characters long. */
  lemma AliasLength(k: string)
    requires |k| == 11
    ensures Alias(k).None?
  {
  }

  /** A plain key outside the table that names an inherited member is found as that member. */
  lemma InheritedLookup(k: string)
    requires k != "" && TypeKey(k) == k && Alias(k).None? && IsInheritedMember(k)
    ensures LookupAsWritten(Str(k)) == Inherited(k)
    ensures NormalizeQuestionType(Str(k)).None?
  {
  }

  // ---------------------------------------------------------------- is_required

  /** The `is_required` cell, `None` when the row has no such property: booleans
      are kept, a number is required iff it is 1, a string iff it reads `true` or
      `yes` in any case or is `1`, and every other value (and a missing cell) is required. */
  function IsRequired(cell: Option<JsVal>): (r: bool)
    ensures !r ==> cell.Some? && (cell.value.Bool? || cell.value.Number? || cell.value.Str?)
    ensures cell.Some? && cell.value.Bool? ==> r == cell.value.b
  {
    match cell
    case None => true
    case Some(v) =>
      match v
      case Bool(b) => b
      case Number(n) => n.Dec? && Value(n) == 1.0
      case Str(s) => ToLower(s) == "true" || ToLower(s) == "yes" || s == "1"
      case _ => true
  }

  /** The string coercion ignores letter case. */
  lemma RequiredIgnoresCase(s: string)
    ensures IsRequired(Some(Str(s))) == IsRequired(Some(Str(ToLower(s))))
  {
    ToLowerIdempotent(s);
    if ToLower(s) == "1" {
      assert LowerChar(s[0]) == ToLower(s)[0];
    }
  }

  // ---------------------------------------------------------------- rows

  /** A spreadsheet row as an object; a property the row does not have is `None`. */
  datatype Row = Row(questionId: Option<JsVal>, category: Option<JsVal>, text: Option<JsVal>,
                     questionType: Option<JsVal>, options: Option<JsVal>, isRequired: Option<JsVal>)

  /** A stored question. */
  datatype Question = Question(setId: string, questionId: JsVal, category: JsVal, text: JsVal,
                               questionType: string, options: string, isRequired: bool)

  /** Reading a property: `undefined` when the row does not have it. */
  function Read(cell: Option<JsVal>): JsVal
  {
    if cell.Some? then cell.value else Undefined
  }

  /** `row.options ? String(row.options) : ''` */
  function OptionsText(cell: Option<JsVal>): (s: string)
    ensures !Truthy(Read(cell)) ==> s == ""
  {
    if Truthy(Read(cell)) then ToStr(Read(cell)) else ""
  }

  /** One row as a question of the set; nothing when its type is not a known type. */
  function QuestionOf(row: Row, setId: string): (r: Option<Question>)
    ensures r.Some? <==> NormalizeQuestionType(Read(row.questionType)).Some?
    ensures r.Some? ==> r.value.questionType in CanonicalTypes && r.value.setId == setId
  {
    match NormalizeQuestionType(Read(row.questionType))
    case None => None
    case Some(t) =>
      Some(Question(setId, Read(row.questionId), Read(row.category), Read(row.text), t,
                    OptionsText(row.options), IsRequired(row.isRequired)))
  }

  /** A row is kept exactly when its type is known; the question has a canonical
      type, the new set's id, the coerced flag and the options as text. */
  lemma QuestionOfFields(row: Row, setId: string)
    ensures QuestionOf(row, setId).Some? <==> NormalizeQuestionType(Read(row.questionType)).Some?
    ensures QuestionOf(row, setId).Some? ==>
              var q := QuestionOf(row, setId).value;
              q.questionType in CanonicalTypes && q.setId == setId && q.questionId == Read(row.questionId) &&
              q.options == OptionsText(row.options) && q.isRequired == IsRequired(row.isRequired)
  {
  }

  /** `data.map(...)`: the questions of all rows, or nothing when one row has an
      unknown type (the map throws there). */
  function Questions(rows: seq<Row>, setId: string): (r: Option<seq<Question>>)
    ensures r.Some? ==> |r.value| == |rows|
    ensures r.Some? ==> forall i :: 0 <= i < |r.value| ==>
              r.value[i].setId == setId && r.value[i].questionType in CanonicalTypes
  {
    if |rows| == 0 then Some([])
    else
      match Questions(rows[..|rows| - 1], setId)
      case None => None
      case Some(qs) =>
        match QuestionOf(rows[|rows| - 1], setId)
        case None => None
        case Some(q) => Some(qs + [q])
  }

  /** The mapping succeeds exactly when every row has a known type. */
  lemma {:induction false} QuestionsSucceed(rows: seq<Row>, setId: string)
    ensures Questions(rows, setId).Some? <==> forall i :: 0 <= i < |rows| ==> QuestionOf(rows[i], setId).Some?
    decreases |rows|
  {
    if |rows| > 0 {
      var init := rows[..|rows| - 1];
      QuestionsSucceed(init, setId);
      assert forall i :: 0 <= i < |init| ==> init[i] == rows[i];
    }
  }

  /** A successful mapping yields one question per row, in order. */
  lemma {:induction false} QuestionsInOrder(rows: seq<Row>, setId: string)
    requires Questions(rows, setId).Some?
    ensures |Questions(rows, setId).value| == |rows|
    ensures forall i :: 0 <= i < |rows| ==>
              QuestionOf(rows[i], setId).Some? && Questions(rows, setId).value[i] == QuestionOf(rows[i], setId).value
    decreases |rows|
  {
    if |rows| > 0 {
      var init := rows[..|rows| - 1];
      QuestionsInOrder(init, setId);
      assert forall i :: 0 <= i < |init| ==> init[i] == rows[i];
    }
  }

  // ---------------------------------------------------------------- the set type

  const SetTypes: set<string> := {"demographic", "organizational", "satisfaction", "engagement", "leadership"}

  /** The keyword rules, in their order of priority. */
  function Classify(category: string): (t: string)
    ensures t in SetTypes
    ensures Contains(category, "소속") || Contains(category, "인구") ==> t == "demographic"
    ensures t == "demographic" <==>
              Contains(category, "소속") || Contains(category, "인구") ||
              Contains(category, "나이") || Contains(category, "학력")
  {
    if Contains(category, "소속") || Contains(category, "인구") ||
       Contains(category, "나이") || Contains(category, "학력") then "demographic"
    else if Contains(category, "조직") || Contains(category, "문화") then "organizational"
    else if Contains(category, "만족") || Contains(category, "행복") then "satisfaction"
    else if Contains(category, "몰입") || Contains(category, "업무") then "engagement"
    else if Contains(category, "리더") || Contains(category, "상사") then "leadership"
    else "organizational"
  }

  /** The keys counted: `String(q.question_category)` of every truthy category, in order. */
  function CategoryKeys(cats: seq<JsVal>): (ks: seq<string>)
    ensures |ks| <= |cats|
  {
    if |cats| == 0 then []
    else
      var c := cats[|cats| - 1];
      CategoryKeys(cats[..|cats| - 1]) + (if Truthy(c) then [ToStr(c)] else [])
  }

  /** The entry the `count > maxCount` scan keeps, starting from a count of 0. */
  function FirstMax(es: seq<(string, int)>): (r: Option<nat>)
    ensures r.Some? ==> r.value < |es|
  {
    if |es| == 0 then None
    else
      var prev := FirstMax(es[..|es| - 1]);
      var best := if prev.Some? then es[prev.value].1 else 0;
      if es[|es| - 1].1 > best then Some(|es| - 1) else prev
  }

  /** The scan finds nothing exactly when no count is positive; otherwise it
      keeps an entry with the largest count, and the earliest of several such. */
  lemma {:induction false} FirstMaxIsMax(es: seq<(string, int)>)
    ensures FirstMax(es).None? <==> forall i :: 0 <= i < |es| ==> es[i].1 <= 0
    ensures FirstMax(es).Some? ==>
              es[FirstMax(es).value].1 > 0 &&
              (forall i :: 0 <= i < |es| ==> es[i].1 <= es[FirstMax(es).value].1) &&
              (forall i :: 0 <= i < FirstMax(es).value ==> es[i].1 < es[FirstMax(es).value].1)
    decreases |es|
  {
    if |es| > 0 {
      var init := es[..|es| - 1];
      FirstMaxIsMax(init);
      assert forall i :: 0 <= i < |init| ==> init[i] == es[i];
    }
  }

  /** The per-category counts of the rows. */
  function CategoryCounts(cats: seq<JsVal>): (d: Dict<int>)
    ensures Valid(d)
  {
    TallyTotal(CategoryKeys(cats));
    Tally(CategoryKeys(cats))
  }

  /** `guessTypeFromQuestions` */
  function GuessType(cats: seq<JsVal>): (r: string)
    ensures r in SetTypes
  {
    var es := Entries(CategoryCounts(cats));
    match FirstMax(es)
    case None => "organizational"
    case Some(i) => Classify(es[i].0)
  }

  /** The guess is always one of the five set types, and `organizational` when
      no row has a category. */
  lemma GuessTypeRange(cats: seq<JsVal>)
    ensures GuessType(cats) in SetTypes
    ensures (forall i :: 0 <= i < |cats| ==> !Truthy(cats[i])) ==> GuessType(cats) == "organizational"
  {
    if forall i :: 0 <= i < |cats| ==> !Truthy(cats[i]) {
      NoKeys(cats);
      TallyCount(CategoryKeys(cats), "");
      var d := CategoryCounts(cats);
      KeysCover(d);
      if |Keys(d)| > 0 {
        TallyCount(CategoryKeys(cats), Keys(d)[0]);
      }
    }
  }

  lemma {:induction false} NoKeys(cats: seq<JsVal>)
    requires forall i :: 0 <= i < |cats| ==> !Truthy(cats[i])
    ensures CategoryKeys(cats) == []
    decreases |cats|
  {
    if |cats| > 0 {
      NoKeys(cats[..|cats| - 1]);
    }
  }

  /** The entry the scan keeps over a tally holds a key counted at least as
      often as every other key, and more often than every key before it. */
  lemma MostFrequentKey(ks: seq<string>, d: Dict<int>, i: nat)
    requires d == Tally(ks) && Valid(d)
    requires FirstMax(Entries(d)) == Some(i)
    ensures i < |Keys(d)|
    ensures forall k :: k in ks ==> Count(ks, k) <= Count(ks, Keys(d)[i])
    ensures forall j :: 0 <= j < i ==> Count(ks, Keys(d)[j]) < Count(ks, Keys(d)[i])
  {
    var es := Entries(d);
    FirstMaxIsMax(es);
    TallyCount(ks, Keys(d)[i]);
    forall k | k in ks
      ensures Count(ks, k) <= Count(ks, Keys(d)[i])
    {
      TallyCount(ks, k);
      KeyEntry(d, k);
    }
    forall j | 0 <= j < i
      ensures Count(ks, Keys(d)[j]) < Count(ks, Keys(d)[i])
    {
      TallyCount(ks, Keys(d)[j]);
    }
  }

  /** A stored key has an entry. */
  lemma KeyEntry(d: Dict<int>, k: string)
    requires Valid(d) && k in d.m
    ensures exists j :: 0 <= j < |Entries(d)| && Entries(d)[j] == (k, d.m[k])
  {
    KeysCover(d);
    var j :| 0 <= j < |Keys(d)| && Keys(d)[j] == k;
    assert Entries(d)[j] == (k, d.m[k]);
  }

  /** When the guess comes from a category, that category occurs at least as
      often as every other one, and more often than every category before it in
      key order. */
  lemma GuessTypeMostFrequent(cats: seq<JsVal>, i: nat)
    requires FirstMax(Entries(CategoryCounts(cats))) == Some(i)
    ensures GuessType(cats) == Classify(Keys(CategoryCounts(cats))[i])
    ensures forall k :: k in CategoryKeys(cats) ==>
              Count(CategoryKeys(cats), k) <= Count(CategoryKeys(cats), Keys(CategoryCounts(cats))[i])
    ensures forall j :: 0 <= j < i ==>
              Count(CategoryKeys(cats), Keys(CategoryCounts(cats))[j]) <
              Count(CategoryKeys(cats), Keys(CategoryCounts(cats))[i])
  {
    MostFrequentKey(CategoryKeys(cats), CategoryCounts(cats), i);
  }

  /** The scan over the entries, as the loop writes it. */
  method ScanMax(es: seq<(string, int)>) returns (best: Option<nat>)
    ensures best == FirstMax(es)
  {
    best := None;
    var maxCount := 0;
    for i := 0 to |es|
      invariant best == FirstMax(es[..i])
      invariant maxCount == if best.Some? then es[best.value].1 else 0
    {
      assert es[..i + 1][..i] == es[..i];
      if es[i].1 > maxCount {
        maxCount := es[i].1;
        best := Some(i);
      }
    }
    assert es[..|es|] == es;
  }

  /** The guess as the endpoint computes it: count, scan, classify. */
  method GuessTypeFromQuestions(cats: seq<JsVal>) returns (t: string)
    ensures t == GuessType(cats)
  {
    var counts := CountKeys(CategoryKeys(cats));
    TallyTotal(CategoryKeys(cats));
    var es := Entries(counts);
    var best := ScanMax(es);
    if best.Some? {
      t := Classify(es[best.value].0);
    } else {
      t := "organizational";
    }
  }

  // ---------------------------------------------------------------- the import

  const RequiredFields: seq<string> := ["question_id", "question_category", "question_text", "question_type"]

  /** Whether the row has the property of that name. */
  predicate HasField(row: Row, name: string)
  {
    match name
    case "question_id" => row.questionId.Some?
    case "question_category" => row.category.Some?
    case "question_text" => row.text.Some?
    case "question_type" => row.questionType.Some?
    case "options" => row.options.Some?
    case "is_required" => row.isRequired.Some?
    case _ => false
  }

  /** The required fields the first row lacks, in the listed order. */
  function MissingFields(row: Row): (r: seq<string>)
    ensures forall f :: f in r <==> f in RequiredFields && !HasField(row, f)
  {
    var fs := RequiredFields;
    (if HasField(row, fs[0]) then [] else [fs[0]]) +
    (if HasField(row, fs[1]) then [] else [fs[1]]) +
    (if HasField(row, fs[2]) then [] else [fs[2]]) +
    (if HasField(row, fs[3]) then [] else [fs[3]])
  }

  /** `name.replace(/\.(xlsx|xls)$/, '')` */
  function StripExcelSuffix(name: string): (r: string)
    ensures EndsWith(name, ".xlsx") ==> r == name[..|name| - 5]
    ensures !EndsWith(name, ".xlsx") && EndsWith(name, ".xls") ==> r == name[..|name| - 4]
    ensures !EndsWith(name, ".xlsx") && !EndsWith(name, ".xls") ==> r == name
  {
    if EndsWith(name, ".xlsx") then name[..|name| - 5]
    else if EndsWith(name, ".xls") then name[..|name| - 4]
    else name
  }

  /** What the endpoint answers. `Aborted` comes after the set was created:
      the set stays, without questions. */
  datatype Import =
    | NoData
    | Missing(fields: seq<string>)
    | Aborted(setName: string, setType: string, badType: JsVal)
    | Imported(setName: string, setType: string, questions: seq<Question>)

  /** The first row whose type is unknown. */
  function FirstBadRow(rows: seq<Row>, setId: string): (i: nat)
    requires exists j :: 0 <= j < |rows| && QuestionOf(rows[j], setId).None?
    ensures i < |rows| && QuestionOf(rows[i], setId).None?
    ensures forall j :: 0 <= j < i ==> QuestionOf(rows[j], setId).Some?
    decreases |rows|
  {
    if QuestionOf(rows[0], setId).None? then 0
    else
      assert forall j :: 1 <= j < |rows| ==> rows[1..][j - 1] == rows[j];
      1 + FirstBadRow(rows[1..], setId)
  }

  /** The import of the rows, with the name and type from the form (empty when
      not given), the uploaded file's name and the id of the created set. */
  function ImportOf(rows: seq<Row>, fileName: string, formName: string, formType: string, setId: string): (r: Import)
    ensures r.NoData? <==> |rows| == 0
    ensures r.Imported? ==> |r.questions| == |rows|
    ensures r.Imported? || r.Aborted? ==>
              (formName != "" ==> r.setName == formName) &&
              (formType != "" ==> r.setType == formType) &&
              (formType == "" ==> r.setType in SetTypes)
  {
    if |rows| == 0 then NoData
    else if |MissingFields(rows[0])| > 0 then Missing(MissingFields(rows[0]))
    else
      var name := if formName == "" then StripExcelSuffix(fileName) else formName;
      var setType := if formType == "" then GuessType(CategoriesOf(rows)) else formType;
      match Questions(rows, setId)
      case Some(qs) => Imported(name, setType, qs)
      case None =>
        QuestionsSucceed(rows, setId);
        Aborted(name, setType, Read(rows[FirstBadRow(rows, setId)].questionType))
  }

  function CategoriesOf(rows: seq<Row>): (cats: seq<JsVal>)
    ensures |cats| == |rows| && forall i :: 0 <= i < |rows| ==> cats[i] == Read(rows[i].category)
  {
    seq(|rows|, i requires 0 <= i < |rows| => Read(rows[i].category))
  }

  /** Only the first row is checked for the required fields; a later row without
      a type is caught by the type check instead. */
  lemma ImportOutcome(rows: seq<Row>, fileName: string, formName: string, formType: string, setId: string)
    ensures ImportOf(rows, fileName, formName, formType, setId).Missing? <==>
              |rows| > 0 && exists f :: f in RequiredFields && !HasField(rows[0], f)
    ensures ImportOf(rows, fileName, formName, formType, setId).Imported? ==>
              |rows| > 0 &&
              |ImportOf(rows, fileName, formName, formType, setId).questions| == |rows| &&
              forall i :: 0 <= i < |rows| ==>
                QuestionOf(rows[i], setId).Some? &&
                ImportOf(rows, fileName, formName, formType, setId).questions[i] == QuestionOf(rows[i], setId).value
    ensures ImportOf(rows, fileName, formName, formType, setId).Aborted? <==>
              |rows| > 0 && |MissingFields(rows[0])| == 0 &&
              exists i :: 0 <= i < |rows| && NormalizeQuestionType(Read(rows[i].questionType)).None?
  {
    QuestionsSucceed(rows, setId);
    if Questions(rows, setId).Some? {
      QuestionsInOrder(rows, setId);
    }
    if |rows| > 0 && |MissingFields(rows[0])| > 0 {
      assert MissingFields(rows[0])[0] in MissingFields(rows[0]);
    }
  }
}
