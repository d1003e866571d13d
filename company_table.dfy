/** The company table of the administration pages: the search filter, the
    distribution figures of the selected company, the add and update rules,
    the selection after a delete and the status colours; and the company
    page's list reducer. */
module CompanyTable {
  import opened Seqs
  import opened JsCore
  import ListChange

  /** A company row; a missing description is `None`. */
  datatype Company = Company(id: string, name: string, description: Option<string>)

  /** `company.name.toLowerCase().includes(term) || (company.description && …includes(term))` */
  predicate Matches(c: Company, term: string)
    ensures term == "" ==> Matches(c, term)
    ensures c.description.None? ==> (Matches(c, term) <==> Contains(ToLower(c.name), ToLower(term)))
  {
    assert ToLower("") == "";
    assert StartsWith(ToLower(c.name), "");
    var t := ToLower(term);
    Contains(ToLower(c.name), t)
    || (c.description.Some? && c.description.value != "" && Contains(ToLower(c.description.value), t))
  }

  /** `filteredCompanies` */
  function Filtered(companies: seq<Company>, term: string): (r: seq<Company>)
    ensures |r| <= |companies|
    ensures forall c :: c in r <==> c in companies && Matches(c, term)
  {
    if |companies| == 0 then []
    else Filtered(companies[..|companies| - 1], term)
         + (if Matches(companies[|companies| - 1], term) then [companies[|companies| - 1]] else [])
  }

  /** An empty search keeps every company, in order. */
  lemma {:induction false} EmptySearchKeepsAll(companies: seq<Company>)
    ensures Filtered(companies, "") == companies
    decreases |companies|
  {
    if |companies| > 0 {
      var last := companies[|companies| - 1];
      EmptySearchKeepsAll(companies[..|companies| - 1]);
      assert ToLower("") == "";
      assert StartsWith(ToLower(last.name), "");
      assert companies == companies[..|companies| - 1] + [last];
    }
  }

  /** The companies kept are a subsequence: filtering a concatenation filters each part. */
  lemma {:induction false} FilterConcat(a: seq<Company>, b: seq<Company>, term: string)
    ensures Filtered(a + b, term) == Filtered(a, term) + Filtered(b, term)
    decreases |b|
  {
    if |b| == 0 {
      assert a + b == a;
    } else {
      var b' := b[..|b| - 1];
      assert (a + b)[..|a + b| - 1] == a + b';
      FilterConcat(a, b', term);
    }
  }

  /** The search ignores the case of ASCII letters in the term. */
  lemma SearchIgnoresCase(c: Company, term: string)
    ensures Matches(c, ToLower(term)) == Matches(c, term)
  {
    ToLowerIdempotent(term);
  }

  // ---------------------------------------------------------------- figures

  datatype Stats = Stats(total: nat, active: nat, completed: nat)

  /** The figures set after the distributions of a company were fetched
      (`data` is `null` when nothing came back). */
  function StatsOf(data: Option<seq<string>>): (r: Stats)
    ensures data.None? ==> r == Stats(0, 0, 0)
    ensures data.Some? ==> r.total == |data.value| && r.active == Count(data.value, "active")
                           && r.completed == Count(data.value, "completed")
  {
    if data.None? then Stats(0, 0, 0)
    else Stats(|data.value|, Count(data.value, "active"), Count(data.value, "completed"))
  }

  /** Active and completed distributions are never more than all of them. */
  lemma {:induction false} StatsWithinTotal(statuses: seq<string>)
    ensures Count(statuses, "active") + Count(statuses, "completed") <= |statuses|
    decreases |statuses|
  {
    if |statuses| > 0 {
      StatsWithinTotal(statuses[..|statuses| - 1]);
    }
  }

  // ---------------------------------------------------------------- forms

  /** `handleAddCompany`: a blank name is refused; name and description are stored trimmed. */
  function AddForm(name: string, description: string): (r: Option<(string, string)>)
    ensures r.None? <==> IsBlank(name)
    ensures r.Some? ==> r.value == (Trim(name), Trim(description)) && r.value.0 != ""
  {
    if Trim(name) == "" then None else Some((Trim(name), Trim(description)))
  }

  /** `handleUpdateCompany`: as adding, and a company must be open for editing;
      the row keeps its id. */
  function UpdateForm(current: Option<Company>, name: string, description: string): (r: Option<Company>)
    ensures r.None? <==> IsBlank(name) || current.None?
    ensures r.Some? ==> r.value.id == current.value.id && r.value.name == Trim(name)
                        && r.value.description == Some(Trim(description))
  {
    if Trim(name) == "" || current.None? then None
    else Some(current.value.(name := Trim(name), description := Some(Trim(description))))
  }

  /** The selection after `handleDeleteCompany`: cleared when the deleted
      company is the selected one and the delete went through; kept otherwise. */
  function SelectionAfterDelete(selected: Option<Company>, deleted: Option<Company>, succeeded: bool): (r: Option<Company>)
    ensures r.None? <==> selected.None? || (deleted.Some? && succeeded && selected.value.id == deleted.value.id)
    ensures r.Some? ==> r == selected
  {
    if deleted.None? || !succeeded then selected
    else if selected.Some? && selected.value.id == deleted.value.id then None
    else selected
  }

  /** `getStatusColor` */
  function StatusColor(status: string): (r: string)
    ensures r == "text.primary" <==> status != "active" && status != "completed" && status != "cancelled"
  {
    match status
    case "active" => "success.main"
    case "completed" => "info.main"
    case "cancelled" => "error.main"
    case _ => "text.primary"
  }

  // ---------------------------------------------------------------- list reducer

  function CompanyId(c: Company): string
  {
    c.id
  }

  /** `handleCompanyChange` */
  function CompanyChange(companies: seq<Company>, company: Company, action: string): (r: seq<Company>)
    ensures action == "add" ==> r == companies + [company]
    ensures action == "update" ==> |r| == |companies|
                                   && forall i :: 0 <= i < |r| ==> r[i] == (if companies[i].id == company.id then company else companies[i])
    ensures action == "delete" ==> forall c :: c in r <==> c in companies && c.id != company.id
    ensures action != "add" && action != "update" && action != "delete" ==> r == companies
  {
    ListChange.Change(companies, CompanyId, company, action)
  }
}
