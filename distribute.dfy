/** The survey-set selection of the distribution page: the ids of the chosen
    sets and the sets themselves are kept as two parallel lists that select,
    remove and move update together; submitting checks the form and stores the
    ids joined by commas. */
module Distribute {
  import opened Seqs
  import opened JsCore
  import SetIds

  datatype SurveySet = SurveySet(id: string, name: string)

  /** `surveySets.find(set => set.id === id)` */
  function Find(known: seq<SurveySet>, id: string): (r: Option<SurveySet>)
    ensures r.Some? ==> r.value in known && r.value.id == id
    ensures r.None? <==> forall i :: 0 <= i < |known| ==> known[i].id != id
  {
    if |known| == 0 then None
    else if known[0].id == id then Some(known[0])
    else Find(known[1..], id)
  }

  /** `ids.filter(x => x !== id)` */
  function Without(ids: seq<string>, id: string): (r: seq<string>)
    ensures id !in r
    ensures forall x :: x in r <==> x in ids && x != id
  {
    if |ids| == 0 then []
    else (if ids[0] == id then [] else [ids[0]]) + Without(ids[1..], id)
  }

  /** `sets.filter(set => set.id !== id)` */
  function SetsWithout(sets: seq<SurveySet>, id: string): (r: seq<SurveySet>)
    ensures forall i :: 0 <= i < |r| ==> r[i].id != id
  {
    if |sets| == 0 then []
    else (if sets[0].id == id then [] else [sets[0]]) + SetsWithout(sets[1..], id)
  }

  /** The ids of a list of sets. */
  function IdsOf(sets: seq<SurveySet>): (r: seq<string>)
    ensures |r| == |sets| && forall i :: 0 <= i < |sets| ==> r[i] == sets[i].id
  {
    seq(|sets|, i requires 0 <= i < |sets| => sets[i].id)
  }

  /** Filtering the sets by id and filtering their ids give the same ids. */
  lemma {:induction false} FiltersAgree(sets: seq<SurveySet>, id: string)
    ensures IdsOf(SetsWithout(sets, id)) == Without(IdsOf(sets), id)
    decreases |sets|
  {
    if |sets| > 0 {
      FiltersAgree(sets[1..], id);
      assert IdsOf(sets)[1..] == IdsOf(sets[1..]);
    }
  }

  /** Removing an id from a duplicate-free list keeps it duplicate-free. */
  lemma {:induction false} WithoutNoDups(ids: seq<string>, id: string)
    requires NoDups(ids)
    ensures NoDups(Without(ids, id))
    decreases |ids|
  {
    if |ids| > 0 {
      WithoutNoDups(ids[1..], id);
      assert ids[0] !in ids[1..];
    }
  }

  /** Removing an absent id changes nothing. */
  lemma {:induction false} WithoutAbsent(ids: seq<string>, id: string)
    requires id !in ids
    ensures Without(ids, id) == ids
    decreases |ids|
  {
    if |ids| > 0 {
      WithoutAbsent(ids[1..], id);
    }
  }

  /** Removing a present id of a duplicate-free list drops exactly its position
      and keeps the rest in order. */
  lemma {:induction false} WithoutAt(ids: seq<string>, id: string, k: nat)
    requires NoDups(ids) && k < |ids| && ids[k] == id
    ensures Without(ids, id) == ids[..k] + ids[k + 1..]
    decreases k
  {
    assert NoDups(ids[1..]);
    if k == 0 {
      assert id !in ids[1..];
      WithoutAbsent(ids[1..], id);
    } else {
      WithoutAt(ids[1..], id, k - 1);
      assert ids[..k] == [ids[0]] + ids[1..][..k - 1];
      assert ids[k + 1..] == ids[1..][k..];
    }
  }

  /** `[s[i], s[j]] = [s[j], s[i]]` */
  function Swap<T>(s: seq<T>, i: nat, j: nat): (r: seq<T>)
    requires i < |s| && j < |s|
    ensures |r| == |s| && r[i] == s[j] && r[j] == s[i]
    ensures forall k :: 0 <= k < |s| && k != i && k != j ==> r[k] == s[k]
  {
    s[i := s[j]][j := s[i]]
  }

  /** The move as `handleMoveSurveySet` does it on a copy of the list. The page
      passes only indices of listed sets; an index outside the list leaves it
      unchanged here. */
  function Move<T>(s: seq<T>, index: int, direction: string): (r: seq<T>)
    ensures |r| == |s|
  {
    if direction == "up" && 0 < index < |s| then Swap(s, index, index - 1)
    else if direction == "down" && 0 <= index < |s| - 1 then Swap(s, index, index + 1)
    else s
  }

  /** A move only reorders the list. */
  lemma MovePermutes<T>(s: seq<T>, index: int, direction: string)
    ensures multiset(Move(s, index, direction)) == multiset(s)
  {
    if direction == "up" && 0 < index < |s| {
      SwapPermutes(s, index, index - 1);
    } else if direction == "down" && 0 <= index < |s| - 1 {
      SwapPermutes(s, index, index + 1);
    }
  }

  lemma SwapPermutes<T>(s: seq<T>, i: nat, j: nat)
    requires i < |s| && j < |s|
    ensures multiset(Swap(s, i, j)) == multiset(s)
  {
    var t := s[i := s[j]];
    assert multiset(t) == multiset(s) - multiset{s[i]} + multiset{s[j]};
    assert multiset(t[j := s[i]]) == multiset(t) - multiset{t[j]} + multiset{s[i]};
  }

  /** Up at the top and down at the bottom change nothing. */
  lemma MoveAtEnds<T>(s: seq<T>)
    ensures Move(s, 0, "up") == s
    ensures Move(s, |s| - 1, "down") == s
  {
  }

  /** Moving an entry up and then moving it down again restores the list. */
  lemma UpThenDown<T>(s: seq<T>, index: int)
    requires 0 < index < |s|
    ensures Move(Move(s, index, "up"), index - 1, "down") == s
  {
    var t := Move(s, index, "up");
    assert t == Swap(s, index, index - 1);
    assert Move(t, index - 1, "down") == Swap(t, index - 1, index);
  }

  /** Moving the same position in the set list and in the id list keeps them in lockstep. */
  lemma {:induction false} MoveLockstep(sets: seq<SurveySet>, ids: seq<string>, index: int, direction: string)
    requires ids == IdsOf(sets)
    ensures Move(ids, index, direction) == IdsOf(Move(sets, index, direction))
  {
  }

  /** The selection state of the page. */
  class Selection {
    var ids: seq<string>
    var sets: seq<SurveySet>

    /** The two lists have the same length, set `i` has id `ids[i]`, and no id is chosen twice. */
    ghost predicate Valid()
      reads this
    {
      ids == IdsOf(sets) && NoDups(ids)
    }

    constructor ()
      ensures Valid() && ids == [] && sets == []
    {
      ids := [];
      sets := [];
    }

    /** `handleSurveySetSelect`: a known set that is not chosen yet goes to the end. */
    method Select(known: seq<SurveySet>, id: string)
      requires Valid()
      modifies this
      ensures Valid()
      ensures Find(known, id).Some? && id !in old(ids) ==>
                ids == old(ids) + [id] && sets == old(sets) + [Find(known, id).value]
      ensures Find(known, id).None? || id in old(ids) ==> ids == old(ids) && sets == old(sets)
    {
      var found := Find(known, id);
      if found.Some? && id !in ids {
        ids := ids + [id];
        sets := sets + [found.value];
      }
    }

    /** `handleRemoveSurveySet`: the id leaves both lists, the rest stay in order. */
    method Remove(id: string)
      requires Valid()
      modifies this
      ensures Valid()
      ensures ids == Without(old(ids), id) && sets == SetsWithout(old(sets), id)
      ensures id !in ids
    {
      FiltersAgree(sets, id);
      WithoutNoDups(ids, id);
      ids := Without(ids, id);
      sets := SetsWithout(sets, id);
    }

    /** `handleMoveSurveySet`: both copies swap the same two positions. */
    method MoveSet(index: int, direction: string)
      requires Valid()
      modifies this
      ensures Valid()
      ensures ids == Move(old(ids), index, direction) && sets == Move(old(sets), index, direction)
      ensures multiset(ids) == multiset(old(ids))
    {
      MoveLockstep(sets, ids, index, direction);
      MovePermutes(ids, index, direction);
      var newSets := sets;
      var newIds := ids;
      if direction == "up" && index > 0 && index < |sets| {
        newSets := newSets[index := sets[index - 1]][index - 1 := sets[index]];
        newIds := newIds[index := ids[index - 1]][index - 1 := ids[index]];
      } else if direction == "down" && 0 <= index < |sets| - 1 {
        newSets := newSets[index := sets[index + 1]][index + 1 := sets[index]];
        newIds := newIds[index := ids[index + 1]][index + 1 := ids[index]];
      }
      sets := newSets;
      ids := newIds;
      MoveKeepsNoDups(old(ids), index, direction);
    }
  }

  /** A move keeps a duplicate-free list duplicate-free. */
  lemma MoveKeepsNoDups(ids: seq<string>, index: int, direction: string)
    requires NoDups(ids)
    ensures NoDups(Move(ids, index, direction))
  {
  }

  // ---------------------------------------------------------------- submit

  /** The stored distribution row (without the token, the dates and the target). */
  datatype Distribution = Distribution(title: string, companyId: string, surveySetIds: string,
                                       status: string, currentResponses: int)

  /** `handleSubmit`: a blank title, no company or no chosen set is refused;
      otherwise the title is stored trimmed and the ids joined by commas. */
  function SubmitOf(title: string, companyId: string, ids: seq<string>): (r: Option<Distribution>)
    ensures r.None? <==> IsBlank(title) || companyId == "" || |ids| == 0
    ensures r.Some? ==> r.value.title == Trim(title) && r.value.status == "active" && r.value.currentResponses == 0
  {
    if Trim(title) == "" || companyId == "" || |ids| == 0 then None
    else Some(Distribution(Trim(title), companyId, Join(ids, ","), "active", 0))
  }

  /** The stored ids read back through the page's own decoding as the chosen
      list, provided no id holds a comma or surrounding white space and the
      joined text is not JSON. */
  lemma SubmitReadBack(title: string, companyId: string, ids: seq<string>, parse: SetIds.Parser)
    requires SubmitOf(title, companyId, ids).Some?
    requires forall i :: 0 <= i < |ids| ==> ',' !in ids[i] && Trim(ids[i]) == ids[i]
    requires parse(Join(ids, ",")).None?
    ensures SetIds.DistributeIds(Str(SubmitOf(title, companyId, ids).value.surveySetIds), parse) == Arr(SetIds.Strs(ids))
  {
    SetIds.DistributeReadBack(ids, parse);
  }
}
