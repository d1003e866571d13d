/** The per-question panel of the results page: which statistics belong to a question,
    how a frequency list is completed in place, and the percentages it shows. */
module ItemAnalysis {
  import opened Seqs
  import opened JsCore
  import opened JsObject
  import ItemStats

  /** A question as the panel reads it; "" stands for a missing type field. */
  datatype Question = Question(id: JsVal, questionId: JsVal, qtype: string, questionType: string)

  /** `getQuestionTypeLabel(type)`: an exact, case-sensitive lookup in the same table
      `formatQuestionType` uses, falling back to the type itself. */
  function QuestionTypeLabel(t: string): (r: string)
    ensures t !in ItemStats.TypeLabels ==> r == t
    ensures t in ItemStats.TypeLabels ==> r in ItemStats.TypeLabels.Values
  {
    if t in ItemStats.TypeLabels then ItemStats.TypeLabels[t] else t
  }

  /** The two label functions agree on every non-empty type written without capitals. */
  lemma LabelsAgreeOnLowercase(t: string)
    requires t != "" && ToLower(t) == t
    ensures QuestionTypeLabel(t) == ItemStats.FormatQuestionType(t)
  {
  }

  /** They differ on a missing type and on a capitalised known type. */
  lemma LabelsDiffer()
    ensures QuestionTypeLabel("") == "" && ItemStats.FormatQuestionType("") == "기타"
    ensures QuestionTypeLabel("Text") == "Text" && ItemStats.FormatQuestionType("Text") == "텍스트"
  {
    assert ToLower("Text") == "text";
  }

  /** `getQuestionId(question)`: `question.id || question.question_id`. */
  function QuestionIdOf(q: Question): (v: JsVal)
    ensures Truthy(q.id) ==> v == q.id
    ensures !Truthy(q.id) ==> v == q.questionId
  {
    if Truthy(q.id) then q.id else q.questionId
  }

  /** The property name `questionStats[qId]` looks up. */
  function StatsKey(q: Question): string
  {
    ToStr(QuestionIdOf(q))
  }

  /** The statistics object of one question. `getStatsForQuestion` completes its
      `frequenciesArray` in place, so the object is shared with the caller's table. */
  class StatsRecord {
    var count: int
    var average: Option<real>
    var frequencies: Option<Dict<int>>
    var frequenciesArray: Option<seq<ItemStats.FrequencyRow>>

    ghost predicate Valid()
      reads this
    {
      frequencies.Some? ==> JsObject.Valid(frequencies.value)
    }

    constructor (count: int, average: Option<real>, frequencies: Option<Dict<int>>,
                 frequenciesArray: Option<seq<ItemStats.FrequencyRow>>)
      requires frequencies.Some? ==> JsObject.Valid(frequencies.value)
      ensures Valid()
      ensures this.count == count && this.average == average
      ensures this.frequencies == frequencies && this.frequenciesArray == frequenciesArray
    {
      this.count := count;
      this.average := average;
      this.frequencies := frequencies;
      this.frequenciesArray := frequenciesArray;
    }
  }

  predicate IsScaleQuestion(q: Question)
  {
    ItemStats.IsScaleName(q.qtype) || ItemStats.IsScaleName(q.questionType)
  }

  /** Seven buckets for a 7-point question, five otherwise. */
  function ScaleOf(q: Question): (n: nat)
    ensures n == 5 || n == 7
  {
    if q.qtype == "scale_7" || q.questionType == "scale_7" then 7 else 5
  }

  function Abs(x: real): real
  {
    if x < 0.0 then -x else x
  }

  function MaxReal(a: real, b: real): real
  {
    if a < b then b else a
  }

  /** `Math.max(0.1, 1 - Math.abs(i - average) / scale)` */
  function Weight(i: int, average: real, scale: nat): real
    requires scale > 0
  {
    MaxReal(0.1, 1.0 - Abs(i as real - average) / scale as real)
  }

  /** `Math.max(1, Math.round(weight * (count / 2)))`, with `Math.round` as `round`. */
  function Bucket(i: int, average: real, count: int, scale: nat, round: real -> int): (c: int)
    requires scale > 0
    ensures c >= 1
  {
    var r := round(Weight(i, average, scale) * (count as real / 2.0));
    if r < 1 then 1 else r
  }

  /** The first `n` generated bucket counts, for the values 1..n. */
  function InitialCounts(n: nat, average: real, count: int, scale: nat, round: real -> int): (cs: seq<int>)
    requires scale > 0
    ensures |cs| == n
    ensures forall i :: 0 <= i < n ==> cs[i] >= 1
  {
    if n == 0 then [] else InitialCounts(n - 1, average, count, scale, round) + [Bucket(n, average, count, scale, round)]
  }

  /** `Math.round(item.count * ratio)` for every bucket. */
  function Rescaled(cs: seq<int>, ratio: real, round: real -> int): (r: seq<int>)
    ensures |r| == |cs|
  {
    seq(|cs|, i requires 0 <= i < |cs| => round(cs[i] as real * ratio))
  }

  /** `Math.max(...counts)` */
  function MaxOf(cs: seq<int>): (m: int)
    requires |cs| > 0
    ensures m in cs && forall i :: 0 <= i < |cs| ==> cs[i] <= m
  {
    if |cs| == 1 then cs[0]
    else
      var m' := MaxOf(cs[..|cs| - 1]);
      assert forall i :: 0 <= i < |cs| - 1 ==> cs[..|cs| - 1][i] == cs[i];
      if cs[|cs| - 1] > m' then cs[|cs| - 1] else m'
  }

  /** `findIndex(item => item.count === max)`: the first index holding `x`. */
  function FirstIndexOf(cs: seq<int>, x: int): (j: nat)
    requires x in cs
    ensures j < |cs| && cs[j] == x && forall i :: 0 <= i < j ==> cs[i] != x
  {
    if cs[0] == x then 0 else 1 + FirstIndexOf(cs[1..], x)
  }

  /** The rounding correction: the whole difference goes to the first largest bucket. */
  function Corrected(cs: seq<int>, count: int): (r: seq<int>)
    requires |cs| > 0
    ensures |r| == |cs|
  {
    if Sum(cs) == count then cs
    else
      var j := FirstIndexOf(cs, MaxOf(cs));
      cs[j := cs[j] + (count - Sum(cs))]
  }

  /** The generated counts for a scale of `scale` points. */
  function Synthetic(average: real, count: int, scale: nat, round: real -> int): (cs: seq<int>)
    requires scale > 0
    ensures |cs| == scale
  {
    var init := InitialCounts(scale, average, count, scale, round);
    InitialAtLeastScale(scale, average, count, scale, round);
    if Sum(init) == count then init
    else Corrected(Rescaled(init, count as real / Sum(init) as real, round), count)
  }

  /** The correction leaves exactly `count` in total. */
  lemma CorrectedSum(cs: seq<int>, count: int)
    requires |cs| > 0
    ensures Sum(Corrected(cs, count)) == count
  {
    if Sum(cs) != count {
      var j := FirstIndexOf(cs, MaxOf(cs));
      SumUpdate(cs, j, count - Sum(cs));
    }
  }

  /** However `Math.round` rounds, the generated buckets add up to exactly `count`. */
  lemma SyntheticSum(average: real, count: int, scale: nat, round: real -> int)
    requires scale > 0
    ensures Sum(Synthetic(average, count, scale, round)) == count
  {
    var init := InitialCounts(scale, average, count, scale, round);
    InitialAtLeastScale(scale, average, count, scale, round);
    if Sum(init) != count {
      CorrectedSum(Rescaled(init, count as real / Sum(init) as real, round), count);
    }
  }

  /** Every generated bucket starts at one or more, so their total is at least the scale. */
  lemma {:induction false} InitialAtLeastScale(n: nat, average: real, count: int, scale: nat, round: real -> int)
    requires scale > 0
    ensures Sum(InitialCounts(n, average, count, scale, round)) >= n
  {
    if n > 0 {
      InitialAtLeastScale(n - 1, average, count, scale, round);
      SumSnoc(InitialCounts(n - 1, average, count, scale, round), Bucket(n, average, count, scale, round));
    }
  }

  /** The label of bucket `i`: `String(i)` for a one-digit `i`. */
  function DigitLabel(i: nat): string
    requires i < 10
  {
    [(48 + i) as char]
  }

  /** The rows `{ value: String(i + 1), count }` of a generated distribution. */
  function ScaleRows(cs: seq<int>): (rows: seq<ItemStats.FrequencyRow>)
    requires |cs| <= 9
    ensures |rows| == |cs|
    ensures forall i :: 0 <= i < |cs| ==> rows[i] == ItemStats.FrequencyRow(DigitLabel(i + 1), cs[i])
  {
    seq(|cs|, i requires 0 <= i < |cs| => ItemStats.FrequencyRow(DigitLabel(i + 1), cs[i]))
  }

  /** `if (!stats.frequenciesArray && stats.frequencies)`: rebuild the rows from the object. */
  function Converted(frequencies: Option<Dict<int>>, rows: Option<seq<ItemStats.FrequencyRow>>): Option<seq<ItemStats.FrequencyRow>>
    requires frequencies.Some? ==> Valid(frequencies.value)
  {
    if rows.None? && frequencies.Some? then Some(ItemStats.FrequencyRows(frequencies)) else rows
  }

  /** The guard of the synthetic distribution. */
  predicate NeedsSynthetic(q: Question, count: int, average: Option<real>, rows: Option<seq<ItemStats.FrequencyRow>>)
  {
    IsScaleQuestion(q) && (rows.None? || |rows.value| == 0) && count > 0 && average.Some?
  }

  /** The `frequenciesArray` that `getStatsForQuestion` leaves behind. */
  function Completed(q: Question, count: int, average: Option<real>, frequencies: Option<Dict<int>>,
                     rows: Option<seq<ItemStats.FrequencyRow>>, round: real -> int): Option<seq<ItemStats.FrequencyRow>>
    requires frequencies.Some? ==> Valid(frequencies.value)
  {
    var converted := Converted(frequencies, rows);
    if NeedsSynthetic(q, count, average, converted)
    then Some(ScaleRows(Synthetic(average.value, count, ScaleOf(q), round)))
    else converted
  }

  /** A list that is already there is never touched. */
  lemma PresentRowsKept(q: Question, count: int, average: Option<real>, frequencies: Option<Dict<int>>,
                        rows: seq<ItemStats.FrequencyRow>, round: real -> int)
    requires frequencies.Some? ==> Valid(frequencies.value)
    requires |rows| > 0 || !IsScaleQuestion(q) || count <= 0 || average.None?
    ensures Completed(q, count, average, frequencies, Some(rows), round) == Some(rows)
  {
  }

  /** A generated distribution is made exactly under its guard, has one bucket per scale
      point labelled "1".."5" or "1".."7", and adds up to `count`. */
  lemma CompletedScale(q: Question, count: int, average: Option<real>, frequencies: Option<Dict<int>>,
                       rows: Option<seq<ItemStats.FrequencyRow>>, round: real -> int)
    requires frequencies.Some? ==> Valid(frequencies.value)
    requires NeedsSynthetic(q, count, average, Converted(frequencies, rows))
    ensures var r := Completed(q, count, average, frequencies, rows, round);
      && r.Some? && |r.value| == ScaleOf(q)
      && (forall i :: 0 <= i < |r.value| ==> r.value[i].value == DigitLabel(i + 1))
      && Sum(ItemStats.RowCounts(r.value)) == count
  {
    var cs := Synthetic(average.value, count, ScaleOf(q), round);
    SyntheticSum(average.value, count, ScaleOf(q), round);
    assert ItemStats.RowCounts(ScaleRows(cs)) == cs;
  }

  /** Completing twice is completing once, so a second `getStatsForQuestion` call
      changes nothing. */
  lemma CompletedIdempotent(q: Question, count: int, average: Option<real>, frequencies: Option<Dict<int>>,
                            rows: Option<seq<ItemStats.FrequencyRow>>, round: real -> int)
    requires frequencies.Some? ==> Valid(frequencies.value)
    ensures var once := Completed(q, count, average, frequencies, rows, round);
      Completed(q, count, average, frequencies, once, round) == once
  {
  }

  /** `getStatsForQuestion(question, questionStats)`: the statistics under the question's id,
      with their `frequenciesArray` completed in place; `None` when there are none. */
  method GetStatsForQuestion(q: Question, table: map<string, StatsRecord>, round: real -> int)
    returns (r: Option<StatsRecord>)
    requires forall k :: k in table ==> table[k].Valid()
    modifies table.Values
    ensures r.None? <==> StatsKey(q) !in table
    ensures r.Some? ==> r.value == table[StatsKey(q)] && r.value.Valid()
    ensures r.Some? ==>
      && r.value.count == old(r.value.count) && r.value.average == old(r.value.average)
      && r.value.frequencies == old(r.value.frequencies)
      && r.value.frequenciesArray == Completed(q, r.value.count, r.value.average, r.value.frequencies,
                                               old(r.value.frequenciesArray), round)
    ensures forall s :: s in table.Values && (r.None? || s != r.value) ==> unchanged(s)
  {
    var key := StatsKey(q);
    if key !in table {
      return None;
    }
    var stats := table[key];
    if stats.frequenciesArray.None? && stats.frequencies.Some? {
      stats.frequenciesArray := Some(ItemStats.FrequencyRows(stats.frequencies));
    }
    if NeedsSynthetic(q, stats.count, stats.average, stats.frequenciesArray) {
      var counts := GenerateDistribution(stats.average.value, stats.count, ScaleOf(q), round);
      stats.frequenciesArray := Some(ScaleRows(counts));
    }
    return Some(stats);
  }

  /** The generated bucket counts, rescaled and corrected when their total is off. */
  method GenerateDistribution(average: real, count: int, scale: nat, round: real -> int) returns (counts: seq<int>)
    requires scale > 0
    ensures counts == Synthetic(average, count, scale, round)
  {
    var init := GenerateBuckets(average, count, scale, round);
    counts := init;
    var total := Sum(init);
    InitialAtLeastScale(scale, average, count, scale, round);
    if total != count {
      var ratio := count as real / total as real;
      counts := Rescaled(init, ratio, round);
      counts := CorrectTotal(counts, count);
    }
  }

  /** The rounding correction: `diff` is added to the first largest bucket. */
  method CorrectTotal(cs: seq<int>, count: int) returns (counts: seq<int>)
    requires |cs| > 0
    ensures counts == Corrected(cs, count)
  {
    counts := cs;
    var finalTotal := Sum(counts);
    if finalTotal != count {
      var diff := count - finalTotal;
      var maxIndex := FirstIndexOf(counts, MaxOf(counts));
      counts := counts[maxIndex := counts[maxIndex] + diff];
    }
  }

  /** The `for (let i = 1; i <= scale; i++)` loop pushing one bucket per scale point. */
  method GenerateBuckets(average: real, count: int, scale: nat, round: real -> int) returns (cs: seq<int>)
    requires scale > 0
    ensures cs == InitialCounts(scale, average, count, scale, round)
  {
    cs := [];
    for n := 0 to scale
      invariant cs == InitialCounts(n, average, count, scale, round)
    {
      cs := cs + [Bucket(n + 1, average, count, scale, round)];
    }
  }

  /** A shown percentage: `Math.round(count / total * 100)`, or 0 when `total` is 0. */
  function Percent(count: int, total: int, round: real -> int): (p: int)
    ensures total <= 0 ==> p == 0
  {
    if total > 0 then round(count as real / total as real * 100.0) else 0
  }

  /** With a monotone rounding that keeps 0 and 100, a count between 0 and the total
      shows as a percentage between 0 and 100. */
  lemma PercentBounds(count: int, total: int, round: real -> int)
    requires 0 <= count <= total
    requires round(0.0) == 0 && round(100.0) == 100
    requires forall x: real, y: real :: x <= y ==> round(x) <= round(y)
    ensures 0 <= Percent(count, total, round) <= 100
  {
    if total > 0 {
      var x := count as real / total as real * 100.0;
      assert count as real / total as real <= 1.0;
      assert 0.0 <= x <= 100.0;
      assert round(0.0) <= round(x) <= round(100.0);
    }
  }
}
