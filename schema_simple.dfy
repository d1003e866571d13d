/** The simple schema check (`table-simple-check.js`): the hand-written
    expected schema, and the missing / extra column comparison against one
    sample row of each live table. */
module SchemaSimple {
  import opened Seqs
  import opened JsCore
  import opened JsObject
  import SchemaDetail

  /** One table of `expectedSchema`. */
  datatype TableSpec = TableSpec(columns: seq<string>, types: seq<string>, primary: string, foreign: seq<(string, string)>)

  const Timestamp: string := "TIMESTAMP WITH TIME ZONE"

  /** `expectedSchema`, in its key order. */
  const ExpectedSchema: seq<(string, TableSpec)> := [
    ("companies", TableSpec(
      ["id", "name", "created_at"],
      ["UUID", "TEXT", Timestamp],
      "id", [])),
    ("survey_sets", TableSpec(
      ["id", "name", "type", "created_at"],
      ["UUID", "TEXT", "TEXT", Timestamp],
      "id", [])),
    ("questions", TableSpec(
      ["id", "survey_set_id", "question_id", "question_category", "question_text", "question_type", "options", "is_required", "created_at"],
      ["UUID", "UUID", "TEXT", "TEXT", "TEXT", "TEXT", "TEXT", "BOOLEAN", Timestamp],
      "id", [("survey_set_id", "survey_sets(id)")])),
    ("survey_distributions", TableSpec(
      ["id", "company_id", "title", "survey_set_ids", "status", "created_at", "access_token", "url"],
      ["UUID", "UUID", "TEXT", "JSONB", "TEXT", Timestamp, "TEXT", "TEXT"],
      "id", [("company_id", "companies(id)")])),
    ("responses", TableSpec(
      ["id", "survey_distribution_id", "question_id", "answer", "user_id", "submitted_at"],
      ["UUID", "UUID", "UUID", "TEXT", "UUID", Timestamp],
      "id", [("survey_distribution_id", "survey_distributions(id)"), ("question_id", "questions(id)")])),
    ("vector_embeddings", TableSpec(
      ["id", "survey_set_id", "question_id", "content", "embedding"],
      ["UUID", "UUID", "UUID", "TEXT", "VECTOR(1536)"],
      "id", [("survey_set_id", "survey_sets(id)"), ("question_id", "questions(id)")]))
  ]

  /** A table has one type per column, and its primary and foreign keys are among its columns. */
  predicate WellShaped(t: TableSpec)
  {
    |t.types| == |t.columns| && t.primary in t.columns
    && forall i :: 0 <= i < |t.foreign| ==> t.foreign[i].0 in t.columns
  }

  /** Every expected table is well shaped. */
  lemma ExpectedSchemaShape()
    ensures forall i :: 0 <= i < |ExpectedSchema| ==> WellShaped(ExpectedSchema[i].1)
  {
    assert WellShaped(ExpectedSchema[0].1);
    assert WellShaped(ExpectedSchema[1].1);
    assert WellShaped(ExpectedSchema[2].1);
    assert WellShaped(ExpectedSchema[3].1);
    assert WellShaped(ExpectedSchema[4].1);
    assert WellShaped(ExpectedSchema[5].1);
  }

  /** `expected.filter(col => !actual.includes(col))` */
  function Missing(expected: seq<string>, actual: seq<string>): (r: seq<string>)
    ensures forall c :: c in r <==> c in expected && c !in actual
  {
    Filter(expected, (c: string) => c !in actual)
  }

  /** `actual.filter(col => !expected.includes(col))` */
  function Extra(expected: seq<string>, actual: seq<string>): (r: seq<string>)
    ensures forall c :: c in r <==> c in actual && c !in expected
  {
    Filter(actual, (c: string) => c !in expected)
  }

  /** Both differences are empty exactly when the two lists name the same columns. */
  lemma NoDiffIffSameColumns(expected: seq<string>, actual: seq<string>)
    ensures Missing(expected, actual) == [] && Extra(expected, actual) == []
      <==> (set c | c in expected) == (set c | c in actual)
  {
    var m := Missing(expected, actual);
    var e := Extra(expected, actual);
    var se := set c | c in expected;
    var sa := set c | c in actual;
    if m != [] {
      var x := m[0];
      assert x in m;
      assert x in se && x !in sa;
    }
    if e != [] {
      var x := e[0];
      assert x in e;
      assert x in sa && x !in se;
    }
    if m == [] && e == [] {
      assert forall c :: c in expected ==> c in actual;
      assert forall c :: c in actual ==> c in expected;
      assert se == sa;
    }
  }

  /** The missing columns keep the expected order: the difference distributes over concatenation. */
  lemma MissingConcat(e1: seq<string>, e2: seq<string>, actual: seq<string>)
    ensures Missing(e1 + e2, actual) == Missing(e1, actual) + Missing(e2, actual)
  {
    FilterConcat(e1, e2, (c: string) => c !in actual);
  }

  /** The extra columns keep the order of the table's own columns. */
  lemma ExtraConcat(expected: seq<string>, a1: seq<string>, a2: seq<string>)
    ensures Extra(expected, a1 + a2) == Extra(expected, a1) + Extra(expected, a2)
  {
    FilterConcat(a1, a2, (c: string) => c !in expected);
  }

  /** Against a table with no matching column, every expected column is missing, in order. */
  lemma AllMissing(expected: seq<string>, actual: seq<string>)
    requires forall i :: 0 <= i < |expected| ==> expected[i] !in actual
    ensures Missing(expected, actual) == expected
  {
    Seqs.FilterAll(expected, (c: string) => c !in actual);
  }

  /** The outcome `checkTableStructure` reports for one table. */
  datatype Check =
    | Inaccessible(error: string)
    | Compared(actual: seq<string>, missing: seq<string>, extra: seq<string>, sample: Dict<JsVal>)
    | EmptyTable

  /** `checkTableStructure(name, expected)` given the result of its one query:
      the rows (`None` for `null`) and the error. */
  function CheckTable(expected: seq<string>, data: Option<seq<Dict<JsVal>>>, error: Option<SchemaDetail.DbError>): (r: Check)
    requires data.Some? && |data.value| > 0 ==> Valid(data.value[0])
    ensures r.Inaccessible? <==> SchemaDetail.Fails(error)
    ensures r.EmptyTable? <==> !SchemaDetail.Fails(error) && (data.None? || data.value == [])
    ensures r.Compared? ==> r.sample == data.value[0] && NoDups(r.actual)
    ensures r.Compared? ==> forall c :: c in r.actual <==> c in r.sample.m
    ensures r.Compared? ==> forall c :: c in r.missing <==> c in expected && c !in r.sample.m
    ensures r.Compared? ==> forall c :: c in r.extra <==> c in r.sample.m && c !in expected
  {
    if SchemaDetail.Fails(error) then Inaccessible(error.value.message)
    else if data.Some? && |data.value| > 0 then
      var sample := data.value[0];
      var actual := Keys(sample);
      KeysCover(sample);
      Compared(actual, Missing(expected, actual), Extra(expected, actual), sample)
    else EmptyTable
  }
}
