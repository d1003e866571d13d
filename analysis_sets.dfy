/** The pieces the analysis hooks and the result pages share: survey-set ids
    and the three ways the code compares them, the links built from the fetched
    sets, the choice of the demographic set and of the other set, and the
    category and participant lists (`[...new Set(…)]`). */
module AnalysisSets {
  import opened Seqs
  import opened JsCore

  /** A row id as the database hands it back: text (a UUID) or an integer. */
  datatype Key = Text(s: string) | Int(n: int)

  /** `!!id` */
  predicate KeyTruthy(k: Key)
  {
    match k
    case Text(s) => s != ""
    case Int(n) => n != 0
  }

  /** `String(id)` */
  function KeyString(k: Key): string
  {
    match k
    case Text(s) => s
    case Int(n) => IntToString(n)
  }

  /** Keys are equal exactly when they have the same kind and the same text. */
  lemma KeysByText(a: Key, b: Key)
    ensures a == b <==> a.Text? == b.Text? && KeyString(a) == KeyString(b)
  {
    if a.Int? && b.Int? {
      IntToStringInjective(a.n, b.n);
    }
  }

  /** `a === b`: the same type and the same text. */
  predicate StrictEq(a: Key, b: Key)
    ensures StrictEq(a, b) <==> a.Text? == b.Text? && KeyString(a) == KeyString(b)
  {
    KeysByText(a, b);
    a == b
  }

  /** `String(a) === String(b)`: on two keys of one type, the strict comparison. */
  predicate StringEq(a: Key, b: Key)
    ensures a.Text? == b.Text? ==> (StringEq(a, b) <==> a == b)
  {
    KeysByText(a, b);
    KeyString(a) == KeyString(b)
  }

  /** `a == b`: a text compared with a number is first converted to a number.
      On two keys of one type it is the strict comparison. */
  predicate LooseEq(a: Key, b: Key)
    ensures a.Text? == b.Text? ==> (LooseEq(a, b) <==> a == b)
  {
    match (a, b)
    case (Text(s), Int(n)) => ToNumber(s).Dec? && Value(ToNumber(s)) == n as real
    case (Int(n), Text(s)) => ToNumber(s).Dec? && Value(ToNumber(s)) == n as real
    case _ => a == b
  }

  /** The strict comparison implies the two others. */
  lemma StrictIsStrongest(a: Key, b: Key)
    requires StrictEq(a, b)
    ensures StringEq(a, b) && LooseEq(a, b)
  {
  }

  /** The text "7" and the number 7 are loosely equal and have the same text,
      but are not strictly equal. */
  lemma TextAndNumber()
    ensures LooseEq(Text("7"), Int(7)) && StringEq(Text("7"), Int(7)) && !StrictEq(Text("7"), Int(7))
  {
    assert Trim("7") == "7" by {
      assert TrimStart("7") == "7";
      assert TrimEnd("7") == "7";
    }
    assert DigitsPrefix("7") == 1 by {
      assert DigitsPrefix("7"[1..]) == 0;
    }
    assert DigitsValue("7") == 7 by {
      assert "7"[..0] == "";
    }
    assert ToNumber("7") == Dec(7, 0);
  }

  // ---------------------------------------------------------------- links

  /** A fetched survey set: `id, name, type`; a missing type is `None`. */
  datatype SetRow = SetRow(id: Key, name: string, setType: Option<string>)

  /** `{ id: index.toString(), survey_set_id: set.id, display_order: index, survey_set: set }` */
  datatype Link = Link(id: string, surveySetId: Key, displayOrder: nat, surveySet: SetRow)

  /** The links of the fetched sets, one per set, in order. */
  function Links(rows: seq<SetRow>): (r: seq<Link>)
    ensures |r| == |rows|
    ensures forall i :: 0 <= i < |rows| ==> r[i] == Link(NatToString(i), rows[i].id, i, rows[i])
  {
    seq(|rows|, i requires 0 <= i < |rows| => Link(NatToString(i), rows[i].id, i, rows[i]))
  }

  /** A link's id reads back as its display order, so no two links share an id. */
  lemma LinkIds(rows: seq<SetRow>)
    ensures forall i :: 0 <= i < |rows| ==> DigitsValue(Links(rows)[i].id) == Links(rows)[i].displayOrder
    ensures NoDups(LinkIdList(Links(rows)))
  {
    var ls := Links(rows);
    forall i | 0 <= i < |rows|
      ensures DigitsValue(ls[i].id) == ls[i].displayOrder
    {
      NatToStringValue(i);
    }
  }

  function LinkIdList(ls: seq<Link>): seq<string>
  {
    seq(|ls|, i requires 0 <= i < |ls| => ls[i].id)
  }

  // ---------------------------------------------------------------- set choice

  /** `find`: the index of the first element satisfying `p`. */
  function FirstIndex<T>(s: seq<T>, p: T -> bool): (r: Option<nat>)
    ensures r.Some? ==> r.value < |s| && p(s[r.value]) && forall j :: 0 <= j < r.value ==> !p(s[j])
    ensures r.None? ==> forall j :: 0 <= j < |s| ==> !p(s[j])
  {
    if |s| == 0 then None
    else if p(s[0]) then Some(0)
    else
      match FirstIndex(s[1..], p)
      case Some(i) => Some(i + 1)
      case None => None
  }

  /** Two searches whose predicates agree position by position find the same index. */
  lemma {:induction false} FirstIndexAgree<T, U>(s: seq<T>, p: T -> bool, t: seq<U>, q: U -> bool)
    requires |s| == |t| && forall i :: 0 <= i < |s| ==> p(s[i]) == q(t[i])
    ensures FirstIndex(s, p) == FirstIndex(t, q)
    decreases |s|
  {
    if |s| > 0 && !p(s[0]) {
      FirstIndexAgree(s[1..], p, t[1..], q);
    }
  }

  /** The chosen demographic set and the other set; `found` tells whether a
      demographic-typed set was there. */
  datatype Choice = Choice(demographic: Key, other: Key, found: bool)

  /** The choice of the correlation hook and page: the first demographic-typed
      set and the first set with a different id (or the demographic one again);
      without a demographic-typed set, the first set and the second (or the
      first again). Nothing is chosen from no sets. */
  function ChooseSets<T>(sets: seq<T>, idOf: T -> Key, isDemographic: T -> bool): (r: Option<Choice>)
    ensures r.None? <==> |sets| == 0
  {
    match FirstIndex(sets, isDemographic)
    case Some(d) =>
      var demo := idOf(sets[d]);
      var o := FirstIndex(sets, t => idOf(t) != demo);
      Some(Choice(demo, if o.Some? then idOf(sets[o.value]) else demo, true))
    case None =>
      if |sets| == 0 then None
      else Some(Choice(idOf(sets[0]), idOf(sets[if |sets| > 1 then 1 else 0]), false))
  }

  /** The demographic set is the first demographic-typed one when there is
      one; the other set then differs from it exactly when some set has a
      different id, and is the first such; without a demographic-typed set the
      first and second (or first again) are taken. */
  lemma ChooseSetsShape<T>(sets: seq<T>, idOf: T -> Key, isDemographic: T -> bool)
    requires |sets| > 0
    ensures var r := ChooseSets(sets, idOf, isDemographic).value;
      && (r.found <==> exists i :: 0 <= i < |sets| && isDemographic(sets[i]))
      && (r.found ==>
            exists d :: 0 <= d < |sets| && isDemographic(sets[d]) && r.demographic == idOf(sets[d])
                        && forall j :: 0 <= j < d ==> !isDemographic(sets[j]))
      && (r.found ==>
            (r.other != r.demographic <==> exists i :: 0 <= i < |sets| && idOf(sets[i]) != r.demographic))
      && (r.found && r.other != r.demographic ==>
            exists o :: 0 <= o < |sets| && r.other == idOf(sets[o])
                        && forall j :: 0 <= j < o ==> idOf(sets[j]) == r.demographic)
      && (!r.found ==> r.demographic == idOf(sets[0]) && r.other == idOf(sets[if |sets| > 1 then 1 else 0]))
  {
    var d := FirstIndex(sets, isDemographic);
    if d.Some? {
      var demo := idOf(sets[d.value]);
      var o := FirstIndex(sets, t => idOf(t) != demo);
      if o.Some? {
        assert idOf(sets[o.value]) != demo;
      }
    }
  }

  /** `set.type?.toLowerCase().includes('demographic')` */
  predicate IsDemographic(row: SetRow)
  {
    row.setType.Some? && Contains(ToLower(row.setType.value), "demographic")
  }

  function RowId(row: SetRow): Key
  {
    row.id
  }

  function LinkSetId(l: Link): Key
  {
    l.surveySetId
  }

  /** `link.survey_set?.type?.toLowerCase().includes('demographic')` */
  predicate LinkIsDemographic(l: Link)
  {
    IsDemographic(l.surveySet)
  }

  /** Choosing among the links of the hooks and among the fetched sets of the
      pages gives the same two ids. */
  lemma LinksChooseAlike(rows: seq<SetRow>)
    ensures ChooseSets(Links(rows), LinkSetId, LinkIsDemographic) == ChooseSets(rows, RowId, IsDemographic)
  {
    var ls := Links(rows);
    FirstIndexAgree(ls, LinkIsDemographic, rows, IsDemographic);
    var d := FirstIndex(rows, IsDemographic);
    if d.Some? {
      var demo := rows[d.value].id;
      FirstIndexAgree(ls, (t: Link) => LinkSetId(t) != demo, rows, (t: SetRow) => RowId(t) != demo);
    }
  }

  // ---------------------------------------------------------------- lists

  /** The non-empty labels of the kept elements, in order (`filter`, `map`, `filter(Boolean)`). */
  function Labels<T>(xs: seq<T>, keep: T -> bool, labelOf: T -> string): (r: seq<string>)
    ensures forall x :: x in r <==> x != "" && exists i :: 0 <= i < |xs| && keep(xs[i]) && labelOf(xs[i]) == x
  {
    if |xs| == 0 then []
    else
      var xs' := xs[..|xs| - 1];
      var last := xs[|xs| - 1];
      assert forall i :: 0 <= i < |xs'| ==> xs'[i] == xs[i];
      Labels(xs', keep, labelOf) + (if keep(last) && labelOf(last) != "" then [labelOf(last)] else [])
  }

  /** `[...new Set(xs.filter(keep).map(labelOf).filter(Boolean))]` */
  function CategoryList<T>(xs: seq<T>, keep: T -> bool, labelOf: T -> string): (r: seq<string>)
    ensures NoDups(r) && "" !in r
    ensures forall x :: x in r <==> x != "" && exists i :: 0 <= i < |xs| && keep(xs[i]) && labelOf(xs[i]) == x
  {
    Distinct(Labels(xs, keep, labelOf))
  }

  /** The list keeps first-seen order: the categories of a prefix come first. */
  lemma CategoryListPrefix<T>(a: seq<T>, b: seq<T>, keep: T -> bool, labelOf: T -> string)
    ensures var p := CategoryList(a, keep, labelOf);
      |p| <= |CategoryList(a + b, keep, labelOf)| && CategoryList(a + b, keep, labelOf)[..|p|] == p
  {
    LabelsConcat(a, b, keep, labelOf);
    DistinctPrefix(Labels(a, keep, labelOf), Labels(b, keep, labelOf));
  }

  lemma {:induction false} LabelsConcat<T>(a: seq<T>, b: seq<T>, keep: T -> bool, labelOf: T -> string)
    ensures Labels(a + b, keep, labelOf) == Labels(a, keep, labelOf) + Labels(b, keep, labelOf)
    decreases |b|
  {
    if |b| == 0 {
      assert a + b == a;
    } else {
      var b' := b[..|b| - 1];
      assert (a + b)[..|a + b| - 1] == a + b';
      LabelsConcat(a, b', keep, labelOf);
    }
  }

  /** A filter no element passes lists no category. */
  lemma {:induction false} CategoryListNone<T>(xs: seq<T>, keep: T -> bool, labelOf: T -> string)
    requires forall i :: 0 <= i < |xs| ==> !keep(xs[i])
    ensures Labels(xs, keep, labelOf) == [] && CategoryList(xs, keep, labelOf) == []
    decreases |xs|
  {
    if |xs| > 0 {
      CategoryListNone(xs[..|xs| - 1], keep, labelOf);
    }
  }

  /** Lists built with filters and labels that agree on every element are equal. */
  lemma {:induction false} CategoryListAgree<T>(xs: seq<T>, keep: T -> bool, labelOf: T -> string,
                                                keep2: T -> bool, label2: T -> string)
    requires forall i :: 0 <= i < |xs| ==> keep(xs[i]) == keep2(xs[i])
    requires forall i :: 0 <= i < |xs| && keep(xs[i]) ==> labelOf(xs[i]) == label2(xs[i])
    ensures CategoryList(xs, keep, labelOf) == CategoryList(xs, keep2, label2)
  {
    LabelsAgree(xs, keep, labelOf, keep2, label2);
  }

  lemma {:induction false} LabelsAgree<T>(xs: seq<T>, keep: T -> bool, labelOf: T -> string,
                                          keep2: T -> bool, label2: T -> string)
    requires forall i :: 0 <= i < |xs| ==> keep(xs[i]) == keep2(xs[i])
    requires forall i :: 0 <= i < |xs| && keep(xs[i]) ==> labelOf(xs[i]) == label2(xs[i])
    ensures Labels(xs, keep, labelOf) == Labels(xs, keep2, label2)
    decreases |xs|
  {
    if |xs| > 0 {
      LabelsAgree(xs[..|xs| - 1], keep, labelOf, keep2, label2);
    }
  }

  /** A stored question with the fields the analysis code reads; a missing
      text field is "", a missing `id` is `None`. */
  datatype Question = Question(id: Option<Key>, questionId: string, surveySetId: Key,
                               questionCategory: string, category: string)

  /** A stored answer row. */
  datatype Response = Response(questionId: Key, userId: string, surveySetId: Key)

  /** `a || b` on texts */
  function Or(a: string, b: string): (r: string)
    ensures r == "" <==> a == "" && b == ""
  {
    if a != "" then a else b
  }

  function UserIds(rs: seq<Response>): (r: seq<string>)
    ensures |r| == |rs| && forall i :: 0 <= i < |rs| ==> r[i] == rs[i].userId
  {
    seq(|rs|, i requires 0 <= i < |rs| => rs[i].userId)
  }

  /** `[...new Set(responses.map(r => r.user_id))]` */
  function Participants(rs: seq<Response>): (r: seq<string>)
    ensures NoDups(r)
    ensures forall u :: u in r <==> exists i :: 0 <= i < |rs| && rs[i].userId == u
  {
    var us := UserIds(rs);
    assert forall u :: u in us <==> exists i :: 0 <= i < |rs| && rs[i].userId == u;
    Distinct(us)
  }

  /** Participants keep first-seen order: those of earlier rows come first. */
  lemma ParticipantsPrefix(a: seq<Response>, b: seq<Response>)
    ensures |Participants(a)| <= |Participants(a + b)|
    ensures Participants(a + b)[..|Participants(a)|] == Participants(a)
  {
    assert UserIds(a + b) == UserIds(a) + UserIds(b);
    DistinctPrefix(UserIds(a), UserIds(b));
  }
}
