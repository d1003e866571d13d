/** The decoding of a distribution's `survey_set_ids` column (and of a question's
    `options` column), which several pages re-implement with different edge
    behaviour. `JSON.parse` is the parameter `parse`; `None` stands for the
    exception it throws on text that is not JSON. */
module SetIds {
  import opened JsCore

  /** The JSON reader: the value a text denotes, or nothing when it throws. */
  type Parser = string -> Option<JsVal>

  /** The strings as a JavaScript array. */
  function Strs(parts: seq<string>): (r: seq<JsVal>)
    ensures |r| == |parts| && forall i :: 0 <= i < |parts| ==> r[i] == Str(parts[i])
  {
    seq(|parts|, i requires 0 <= i < |parts| => Str(parts[i]))
  }

  predicate LooksLikeJson(s: string)
  {
    StartsWith(s, "[") || StartsWith(s, "{")
  }

  /** `JSON.parse(s)`, and `fallback` when it throws. */
  function ParseOr(parse: Parser, s: string, fallback: JsVal): JsVal
  {
    match parse(s)
    case Some(v) => v
    case None => fallback
  }

  /** The string dispatch shared by most pages: JSON-looking text is parsed
      (a failure gives the text as a one-element list), text with a comma is
      split and trimmed, any other text is a one-element list. */
  function StringIds(s: string, parse: Parser): JsVal
  {
    if LooksLikeJson(s) then ParseOr(parse, s, Arr([Str(s)]))
    else if ',' in s then Arr(Strs(SplitTrim(s, ',')))
    else Arr([Str(s)])
  }

  // ---------------------------------------------------------------- the variants

  /** `parseIds` of the results administration page: no guard against falsy values. */
  function ParseIds(v: JsVal, parse: Parser): (r: JsVal)
    ensures r.Arr? || (v.Str? && LooksLikeJson(v.s) && parse(v.s) == Some(r))
    ensures !v.Str? && !v.Arr? ==> r == Arr([Str(ToStr(v))])
  {
    match v
    case Str(s) => StringIds(s, parse)
    case Arr(_) => v
    case _ => Arr([Str(ToStr(v))])
  }

  /** `parseOptions` of the results administration page: only `[` text is parsed,
      every other text is split on commas and trimmed. */
  function ParseOptions(v: JsVal, parse: Parser): JsVal
  {
    if !Truthy(v) then Arr([])
    else
      match v
      case Arr(_) => v
      case Str(s) =>
        var split := Arr(Strs(SplitTrim(s, ',')));
        if StartsWith(s, "[") then ParseOr(parse, s, split) else split
      case _ => Arr([Str(ToStr(v))])
  }

  /** The read-back on the distribution page: arrays are kept, every string is
      offered to the JSON reader and split on commas when that throws, and any
      other value gives no ids. */
  function DistributeIds(v: JsVal, parse: Parser): (r: JsVal)
    ensures r.Arr? || (v.Str? && parse(v.s) == Some(r))
    ensures !v.Str? && !v.Arr? ==> r == Arr([])
  {
    match v
    case Arr(_) => v
    case Str(s) => ParseOr(parse, s, Arr(Strs(SplitTrim(s, ','))))
    case _ => Arr([])
  }

  /** The analysis-data hook: falsy values give no ids, every object (arrays
      included) is kept, strings are dispatched, and numbers and booleans give no ids. */
  function AnalysisIds(v: JsVal, parse: Parser): (r: JsVal)
    ensures !Truthy(v) ==> r == Arr([])
    ensures r.Arr? || r == v || (v.Str? && LooksLikeJson(v.s) && parse(v.s) == Some(r))
    ensures v.Number? || v.Bool? ==> r == Arr([])
  {
    if !Truthy(v) then Arr([])
    else if TypeOf(v) == "object" then v
    else if v.Str? then StringIds(v.s, parse)
    else Arr([])
  }

  /** The categories page: like the analysis hook, but numbers and booleans
      become a one-element list of their text. */
  function CategoriesIds(v: JsVal, parse: Parser): (r: JsVal)
    ensures !Truthy(v) ==> r == Arr([])
    ensures r.Arr? || r == v || (v.Str? && LooksLikeJson(v.s) && parse(v.s) == Some(r))
    ensures Truthy(v) && (v.Number? || v.Bool?) ==> r == Arr([Str(ToStr(v))])
  {
    if !Truthy(v) then Arr([])
    else if TypeOf(v) == "object" then v
    else if v.Str? then StringIds(v.s, parse)
    else Arr([Str(ToStr(v))])
  }

  /** The demographics and correlations pages: falsy values give no ids, strings
      are dispatched first, arrays are kept, anything else becomes its text. */
  function GuardedIds(v: JsVal, parse: Parser): (r: JsVal)
    ensures !Truthy(v) ==> r == Arr([])
    ensures r.Arr? || (v.Str? && LooksLikeJson(v.s) && parse(v.s) == Some(r))
  {
    if !Truthy(v) then Arr([])
    else if v.Str? then StringIds(v.s, parse)
    else if v.Arr? then v
    else Arr([Str(ToStr(v))])
  }

  // ---------------------------------------------------------------- agreement

  /** Every variant keeps a non-empty array as it is. */
  lemma ArraysKept(es: seq<JsVal>, parse: Parser)
    requires |es| > 0
    ensures ParseIds(Arr(es), parse) == Arr(es) && ParseOptions(Arr(es), parse) == Arr(es)
    ensures DistributeIds(Arr(es), parse) == Arr(es) && AnalysisIds(Arr(es), parse) == Arr(es)
    ensures CategoriesIds(Arr(es), parse) == Arr(es) && GuardedIds(Arr(es), parse) == Arr(es)
  {
  }

  /** On non-empty text the four variants with the string dispatch agree; the
      distribution page gives whatever the JSON reader accepts, and so agrees
      with them on JSON-looking text the reader accepts. */
  lemma StringsAgree(s: string, parse: Parser)
    requires s != ""
    ensures ParseIds(Str(s), parse) == StringIds(s, parse)
    ensures AnalysisIds(Str(s), parse) == StringIds(s, parse)
    ensures CategoriesIds(Str(s), parse) == StringIds(s, parse)
    ensures GuardedIds(Str(s), parse) == StringIds(s, parse)
    ensures parse(s).Some? ==> DistributeIds(Str(s), parse) == parse(s).value
    ensures LooksLikeJson(s) && parse(s).Some? ==> DistributeIds(Str(s), parse) == ParseIds(Str(s), parse)
  {
  }

  /** Falsy values: `parseIds` still produces a one-element list (`[""]`,
      `["null"]`, `["undefined"]`, `["0"]`, `["false"]`), every guarded variant none. */
  lemma FalsyValues(v: JsVal, parse: Parser)
    requires !Truthy(v) && !v.Arr?
    ensures |ParseIds(v, parse).elems| == 1
    ensures ParseIds(v, parse) == Arr([Str(ToStr(v))])
    ensures AnalysisIds(v, parse) == Arr([]) && CategoriesIds(v, parse) == Arr([])
    ensures GuardedIds(v, parse) == Arr([]) && ParseOptions(v, parse) == Arr([])
  {
  }

  /** A non-zero number: no ids in the analysis hook and on the distribution page,
      the one-element list of its text everywhere else. */
  lemma NumbersDiffer(n: Num, parse: Parser)
    requires n.Dec? && n.mant != 0
    ensures AnalysisIds(Number(n), parse) == Arr([]) && DistributeIds(Number(n), parse) == Arr([])
    ensures CategoriesIds(Number(n), parse) == Arr([Str(NumToString(n))])
    ensures GuardedIds(Number(n), parse) == Arr([Str(NumToString(n))])
    ensures ParseIds(Number(n), parse) == Arr([Str(NumToString(n))])
  {
  }

  /** A plain object (a JSON column read as an object) is kept by the analysis hook
      and the categories page but becomes `["[object Object]"]` on the others. */
  lemma ObjectsDiffer(fields: seq<(string, JsVal)>, parse: Parser)
    ensures AnalysisIds(Obj(fields), parse) == Obj(fields)
    ensures CategoriesIds(Obj(fields), parse) == Obj(fields)
    ensures GuardedIds(Obj(fields), parse) == Arr([Str("[object Object]")])
    ensures ParseIds(Obj(fields), parse) == Arr([Str("[object Object]")])
    ensures DistributeIds(Obj(fields), parse) == Arr([])
  {
  }

  /** With a truthy value the demographics/correlations decoding is `parseIds`. */
  lemma GuardedIsParseIds(v: JsVal, parse: Parser)
    requires Truthy(v)
    ensures GuardedIds(v, parse) == ParseIds(v, parse)
  {
  }

  /** Options text that does not start with `[` is always split, even when it
      starts with `{` or has no comma; the ids decoding treats both cases differently. */
  lemma OptionsSplitMore(s: string, parse: Parser)
    requires s != "" && !StartsWith(s, "[")
    ensures ParseOptions(Str(s), parse) == Arr(Strs(SplitTrim(s, ',')))
    ensures ',' !in s && !LooksLikeJson(s) ==> ParseIds(Str(s), parse) == Arr([Str(s)])
    ensures ',' !in s ==> ParseOptions(Str(s), parse) == Arr([Str(Trim(s))])
  {
    if ',' !in s {
      SplitNoSep(s, ',');
    }
  }

  // ---------------------------------------------------------------- read-back

  /** Ids without commas or surrounding white space survive joining by `,`,
      splitting and trimming. */
  lemma {:induction false} SplitTrimJoin(ids: seq<string>)
    requires |ids| > 0
    requires forall i :: 0 <= i < |ids| ==> ',' !in ids[i] && Trim(ids[i]) == ids[i]
    ensures SplitTrim(Join(ids, ","), ',') == ids
  {
    JoinSplit(ids, ',');
    var t := SplitTrim(Join(ids, ","), ',');
    assert |t| == |ids|;
    forall i | 0 <= i < |ids|
      ensures t[i] == ids[i]
    {
    }
  }

  /** A list of ids without commas or surrounding white space, stored joined by
      `,`, reads back unchanged on the distribution page when the joined text is
      not JSON. */
  lemma DistributeReadBack(ids: seq<string>, parse: Parser)
    requires |ids| > 0
    requires forall i :: 0 <= i < |ids| ==> ',' !in ids[i] && Trim(ids[i]) == ids[i]
    requires parse(Join(ids, ",")).None?
    ensures DistributeIds(Str(Join(ids, ",")), parse) == Arr(Strs(ids))
  {
    SplitTrimJoin(ids);
  }

  /** Such a list, with at least two ids and not starting like JSON, also reads
      back unchanged through `parseIds`, whatever the JSON reader does. */
  lemma ParseIdsReadBack(ids: seq<string>, parse: Parser)
    requires |ids| > 1
    requires forall i :: 0 <= i < |ids| ==> ',' !in ids[i] && Trim(ids[i]) == ids[i]
    requires !LooksLikeJson(Join(ids, ","))
    ensures ParseIds(Str(Join(ids, ",")), parse) == Arr(Strs(ids))
  {
    SplitTrimJoin(ids);
    var s := Join(ids, ",");
    assert s == ids[0] + "," + Join(ids[1..], ",");
    assert s[|ids[0]|] == ',';
  }
}
