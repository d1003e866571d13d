/** The results overview page: the aggregates computed from the fetched
    distributions (total responses, counts per status, responses per day),
    the search and status filter, and the page-by-page list with its
    "load more" state. */
module ResultsIndex {
  import opened Seqs
  import opened JsCore
  import opened JsObject

  /** A fetched distribution row, with the fields the page reads. A missing
      `question_category` is the empty string (both are falsy). */
  datatype Dist = Dist(title: string, companyName: Option<string>, status: string,
                       currentResponses: Option<int>, targetParticipants: real,
                       createdAt: int, questionCategory: string)

  const PageSize: nat := 20

  /** `dist.current_responses || 0` */
  function Responses(d: Dist): int
  {
    if d.currentResponses.Some? then d.currentResponses.value else 0
  }

  /** `totalResponses`: the reduce over the rows. */
  function Total(ds: seq<Dist>): (r: int)
    ensures (forall i :: 0 <= i < |ds| ==> Responses(ds[i]) >= 0) ==>
              r >= 0 && forall i :: 0 <= i < |ds| ==> Responses(ds[i]) <= r
  {
    if |ds| == 0 then 0
    else
      var init := ds[..|ds| - 1];
      assert forall i :: 0 <= i < |init| ==> init[i] == ds[i];
      Total(init) + Responses(ds[|ds| - 1])
  }

  /** The completion rate of a row with a positive target, in percent. */
  function Rate(d: Dist): real
    requires d.targetParticipants > 0.0
  {
    Responses(d) as real / d.targetParticipants * 100.0
  }

  /** The sum of the completion rates. */
  function RateSum(ds: seq<Dist>): real
    requires forall i :: 0 <= i < |ds| ==> ds[i].targetParticipants > 0.0
  {
    if |ds| == 0 then 0.0 else RateSum(ds[..|ds| - 1]) + Rate(ds[|ds| - 1])
  }

  /** `averageCompletionRate`: the mean of the rates; the page divides by the
      number of rows, which is NaN for none, and by each target, which is not
      finite for a zero target. */
  function AverageRate(ds: seq<Dist>): (r: real)
    requires |ds| > 0
    requires forall i :: 0 <= i < |ds| ==> ds[i].targetParticipants > 0.0
    ensures (forall i :: 0 <= i < |ds| ==> 0 <= Responses(ds[i]) && Responses(ds[i]) as real <= ds[i].targetParticipants)
              ==> 0.0 <= r <= 100.0
  {
    if forall i :: 0 <= i < |ds| ==> 0 <= Responses(ds[i]) && Responses(ds[i]) as real <= ds[i].targetParticipants then
      RateSumBounds(ds);
      MeanBounds(RateSum(ds), |ds| as real, 100.0);
      RateSum(ds) / |ds| as real
    else
      RateSum(ds) / |ds| as real
  }

  /** A row whose responses lie between none and its target has a rate between 0 and 100. */
  lemma RateBounds(d: Dist)
    requires d.targetParticipants > 0.0 && 0 <= Responses(d) && Responses(d) as real <= d.targetParticipants
    ensures 0.0 <= Rate(d) <= 100.0
  {
    MeanBounds(Responses(d) as real, d.targetParticipants, 1.0);
  }

  lemma {:induction false} RateSumBounds(ds: seq<Dist>)
    requires forall i :: 0 <= i < |ds| ==> ds[i].targetParticipants > 0.0
    requires forall i :: 0 <= i < |ds| ==> 0 <= Responses(ds[i]) && Responses(ds[i]) as real <= ds[i].targetParticipants
    ensures 0.0 <= RateSum(ds) <= 100.0 * |ds| as real
    decreases |ds|
  {
    if |ds| > 0 {
      RateSumBounds(ds[..|ds| - 1]);
      RateBounds(ds[|ds| - 1]);
    }
  }

  lemma MeanBounds(total: real, n: real, b: real)
    requires n > 0.0 && 0.0 <= total <= b * n
    ensures 0.0 <= total / n <= b
  {
    var a := total / n;
    assert a * n == total;
    assert (b - a) * n >= 0.0;
  }

  // ---------------------------------------------------------------- per status

  function Statuses(ds: seq<Dist>): (r: seq<string>)
    ensures |r| == |ds| && forall i :: 0 <= i < |ds| ==> r[i] == ds[i].status
  {
    seq(|ds|, i requires 0 <= i < |ds| => ds[i].status)
  }

  /** `statusCounts`: every row counts once under its status, so the counts add
      up to the number of rows, and only statuses that occur are keys. */
  method StatusCounts(ds: seq<Dist>) returns (counts: Dict<int>)
    ensures Valid(counts)
    ensures SumOf(Counter(counts), counts.order) == |ds|
    ensures forall s :: s in counts.m <==> s in Statuses(ds)
    ensures forall s :: Counter(counts)(s) == Count(Statuses(ds), s)
  {
    counts := CountKeys(Statuses(ds));
    TallyTotal(Statuses(ds));
    forall s
      ensures s in counts.m <==> s in Statuses(ds)
      ensures Counter(counts)(s) == Count(Statuses(ds), s)
    {
      TallyCount(Statuses(ds), s);
    }
  }

  // ---------------------------------------------------------------- per day

  datatype Day = Day(date: string, responses: int)

  function Dates(days: seq<Day>): (r: seq<string>)
    ensures |r| == |days| && forall i :: 0 <= i < |days| ==> r[i] == days[i].date
  {
    seq(|days|, i requires 0 <= i < |days| => days[i].date)
  }

  function DayResponses(d: Day): int
  {
    d.responses
  }

  /** `acc.find(item => item.date === date)`, as a position. */
  function FindDate(acc: seq<Day>, date: string): (r: Option<nat>)
    ensures r.Some? ==> r.value < |acc| && acc[r.value].date == date
    ensures r.None? <==> date !in Dates(acc)
  {
    if |acc| == 0 then None
    else if acc[|acc| - 1].date == date && FindDate(acc[..|acc| - 1], date).None? then Some(|acc| - 1)
    else
      var r := FindDate(acc[..|acc| - 1], date);
      assert forall i :: 0 <= i < |acc| - 1 ==> acc[..|acc| - 1][i] == acc[i];
      r
  }

  /** One step of the reduce: the day's entry grows by `n`, or a new entry is pushed. */
  function AddTo(acc: seq<Day>, date: string, n: int): seq<Day>
  {
    match FindDate(acc, date)
    case Some(i) => acc[i := Day(date, acc[i].responses + n)]
    case None => acc + [Day(date, n)]
  }

  /** The day key of each row. */
  function DayKeys(ds: seq<Dist>, dayOf: int -> string): (r: seq<string>)
    ensures |r| == |ds| && forall i :: 0 <= i < |ds| ==> r[i] == dayOf(ds[i].createdAt)
  {
    seq(|ds|, i requires 0 <= i < |ds| => dayOf(ds[i].createdAt))
  }

  /** The reduce before sorting. */
  function DailyAcc(ds: seq<Dist>, dayOf: int -> string): seq<Day>
  {
    if |ds| == 0 then []
    else AddTo(DailyAcc(ds[..|ds| - 1], dayOf), dayOf(ds[|ds| - 1].createdAt), Responses(ds[|ds| - 1]))
  }

  /** The responses of the rows created on day `k`. */
  function DayTotal(ds: seq<Dist>, dayOf: int -> string, k: string): int
  {
    if |ds| == 0 then 0
    else DayTotal(ds[..|ds| - 1], dayOf, k) + (if dayOf(ds[|ds| - 1].createdAt) == k then Responses(ds[|ds| - 1]) else 0)
  }

  /** The sort key: `new Date(day)`, an abstract `rank` of the day text. */
  function ByDate(rank: string -> nat): Day -> nat
  {
    (d: Day) => rank(d.date)
  }

  /** `dailyResponses`: the reduce, then the sort by date. */
  function Daily(ds: seq<Dist>, dayOf: int -> string, rank: string -> nat): seq<Day>
  {
    SortByRank(DailyAcc(ds, dayOf), ByDate(rank))
  }

  lemma AddToDates(acc: seq<Day>, date: string, n: int)
    ensures Dates(AddTo(acc, date, n)) == if date in Dates(acc) then Dates(acc) else Dates(acc) + [date]
  {
  }

  lemma AddToSum(acc: seq<Day>, date: string, n: int)
    ensures SumOf(DayResponses, AddTo(acc, date, n)) == SumOf(DayResponses, acc) + n
  {
    match FindDate(acc, date)
    case Some(i) =>
      var acc' := AddTo(acc, date, n);
      SumOfRemove(DayResponses, acc, i);
      SumOfRemove(DayResponses, acc', i);
      assert acc'[..i] + acc'[i + 1..] == acc[..i] + acc[i + 1..];
    case None =>
      assert (acc + [Day(date, n)])[..|acc|] == acc;
  }

  /** One entry per distinct day, in the order the days first occur. */
  lemma {:induction false} DailyDates(ds: seq<Dist>, dayOf: int -> string)
    ensures Dates(DailyAcc(ds, dayOf)) == Distinct(DayKeys(ds, dayOf))
    decreases |ds|
  {
    if |ds| > 0 {
      var ds' := ds[..|ds| - 1];
      var key, n := dayOf(ds[|ds| - 1].createdAt), Responses(ds[|ds| - 1]);
      var ks, ks' := DayKeys(ds, dayOf), DayKeys(ds', dayOf);
      DailyDates(ds', dayOf);
      assert ks[..|ks| - 1] == ks' && ks[|ks| - 1] == key;
      assert Distinct(ks) == if key in Distinct(ks') then Distinct(ks') else Distinct(ks') + [key];
      AddToDates(DailyAcc(ds', dayOf), key, n);
      assert DailyAcc(ds, dayOf) == AddTo(DailyAcc(ds', dayOf), key, n);
    }
  }

  /** The entries add up to the total number of responses. */
  lemma {:induction false} DailySum(ds: seq<Dist>, dayOf: int -> string)
    ensures SumOf(DayResponses, DailyAcc(ds, dayOf)) == Total(ds)
    decreases |ds|
  {
    if |ds| > 0 {
      var ds' := ds[..|ds| - 1];
      DailySum(ds', dayOf);
      AddToSum(DailyAcc(ds', dayOf), dayOf(ds[|ds| - 1].createdAt), Responses(ds[|ds| - 1]));
    }
  }

  /** A day on which no row was created has no responses. */
  lemma {:induction false} DayTotalAbsent(ds: seq<Dist>, dayOf: int -> string, k: string)
    requires k !in DayKeys(ds, dayOf)
    ensures DayTotal(ds, dayOf, k) == 0
    decreases |ds|
  {
    if |ds| > 0 {
      var ds' := ds[..|ds| - 1];
      assert DayKeys(ds', dayOf) == DayKeys(ds, dayOf)[..|ds| - 1];
      DayTotalAbsent(ds', dayOf, k);
    }
  }

  /** Each entry holds the responses of exactly the rows of its day. */
  lemma {:induction false} DailyEntries(ds: seq<Dist>, dayOf: int -> string)
    ensures forall i :: 0 <= i < |DailyAcc(ds, dayOf)| ==>
              DailyAcc(ds, dayOf)[i].responses == DayTotal(ds, dayOf, DailyAcc(ds, dayOf)[i].date)
    decreases |ds|
  {
    if |ds| > 0 {
      var ds' := ds[..|ds| - 1];
      var acc := DailyAcc(ds', dayOf);
      var key, n := dayOf(ds[|ds| - 1].createdAt), Responses(ds[|ds| - 1]);
      DailyEntries(ds', dayOf);
      DailyDates(ds', dayOf);
      var acc' := AddTo(acc, key, n);
      assert acc' == DailyAcc(ds, dayOf);
      forall i | 0 <= i < |acc'|
        ensures acc'[i].responses == DayTotal(ds, dayOf, acc'[i].date)
      {
        match FindDate(acc, key)
        case Some(j) =>
          if i != j {
            assert acc[i].date != acc[j].date by {
              assert Dates(acc)[i] == acc[i].date && Dates(acc)[j] == acc[j].date;
            }
          }
        case None =>
          if i == |acc| {
            assert key !in DayKeys(ds', dayOf);
            DayTotalAbsent(ds', dayOf, key);
          }
      }
    }
  }

  /** Two lists with the same entries: a duplicate-free date list stays so. */
  lemma SortedDates(acc: seq<Day>, days: seq<Day>)
    requires multiset(acc) == multiset(days) && NoDups(Dates(acc))
    ensures NoDups(Dates(days))
    ensures forall k :: k in Dates(days) <==> k in Dates(acc)
  {
    forall i, j | 0 <= i < j < |days|
      ensures days[i].date != days[j].date
    {
      assert acc == days[..0] + acc by { assert days[..0] == []; }
      SameEntriesDistinct(acc, days, i, j);
    }
    forall k
      ensures k in Dates(days) <==> k in Dates(acc)
    {
      if k in Dates(days) {
        var i :| 0 <= i < |days| && days[i].date == k;
        assert days[i] in multiset(acc);
        var a :| 0 <= a < |acc| && acc[a] == days[i];
        assert Dates(acc)[a] == k;
      }
      if k in Dates(acc) {
        var a :| 0 <= a < |acc| && acc[a].date == k;
        assert acc[a] in multiset(days);
        var i :| 0 <= i < |days| && days[i] == acc[a];
        assert Dates(days)[i] == k;
      }
    }
  }

  lemma SameEntriesDistinct(acc: seq<Day>, days: seq<Day>, i: nat, j: nat)
    requires multiset(acc) == multiset(days) && NoDups(Dates(acc))
    requires i < j < |days|
    ensures days[i].date != days[j].date
  {
    assert NoDups(acc) by {
      forall a, b | 0 <= a < b < |acc|
        ensures acc[a] != acc[b]
      {
        assert Dates(acc)[a] != Dates(acc)[b];
      }
    }
    NoDupsPermutation(acc, days);
    assert days[i] in multiset(acc) && days[j] in multiset(acc);
    var a :| 0 <= a < |acc| && acc[a] == days[i];
    var b :| 0 <= b < |acc| && acc[b] == days[j];
    assert Dates(acc)[a] == days[i].date && Dates(acc)[b] == days[j].date;
  }

  /** The sorted list: ascending by date, one entry per distinct day, each
      entry the responses of its day, all of them the total. */
  lemma DailyShape(ds: seq<Dist>, dayOf: int -> string, rank: string -> nat)
    ensures var days := Daily(ds, dayOf, rank);
      Ascending(days, ByDate(rank))
      && NoDups(Dates(days))
      && (forall k :: k in Dates(days) <==> k in DayKeys(ds, dayOf))
      && SumOf(DayResponses, days) == Total(ds)
  {
    var acc := DailyAcc(ds, dayOf);
    var days := Daily(ds, dayOf, rank);
    DailyDates(ds, dayOf);
    DailySum(ds, dayOf);
    SumOfPermutation(DayResponses, acc, days);
    SortedDates(acc, days);
  }

  /** Each entry of the sorted list holds the responses of exactly the rows of its day. */
  lemma DailyPerDay(ds: seq<Dist>, dayOf: int -> string, rank: string -> nat)
    ensures var days := Daily(ds, dayOf, rank);
      forall i :: 0 <= i < |days| ==> days[i].responses == DayTotal(ds, dayOf, days[i].date)
  {
    var acc := DailyAcc(ds, dayOf);
    var days := Daily(ds, dayOf, rank);
    DailyEntries(ds, dayOf);
    forall i | 0 <= i < |days|
      ensures days[i].responses == DayTotal(ds, dayOf, days[i].date)
    {
      assert days[i] in multiset(acc);
      var a :| 0 <= a < |acc| && acc[a] == days[i];
    }
  }

  /** The body of the reduce: find the day's entry and add to it, or push a new one. */
  method AddDay(acc: seq<Day>, date: string, n: int) returns (acc': seq<Day>)
    ensures acc' == AddTo(acc, date, n)
  {
    var existing := FindDate(acc, date);
    if existing.Some? {
      acc' := acc[existing.value := Day(date, acc[existing.value].responses + n)];
    } else {
      acc' := acc + [Day(date, n)];
    }
  }

  /** `dailyResponses` as the page computes it: the reduce, then the sort. */
  method DailyResponses(ds: seq<Dist>, dayOf: int -> string, rank: string -> nat) returns (days: seq<Day>)
    ensures days == Daily(ds, dayOf, rank)
  {
    var acc: seq<Day> := [];
    for i := 0 to |ds|
      invariant acc == DailyAcc(ds[..i], dayOf)
    {
      acc := AddDay(acc, dayOf(ds[i].createdAt), Responses(ds[i]));
      assert ds[..i + 1][..i] == ds[..i];
    }
    assert ds[..|ds|] == ds;
    days := SortByRank(acc, ByDate(rank));
  }

  // ---------------------------------------------------------------- filter and pages

  /** The search and the status filter of one row. */
  predicate Matches(d: Dist, term: string, filterStatus: string)
    ensures Matches(d, term, filterStatus) ==> filterStatus == "all" || d.status == filterStatus
    ensures term == "" ==> (Matches(d, term, filterStatus) <==> filterStatus == "all" || d.status == filterStatus)
  {
    ContainsEmpty(ToLower(d.title));
    assert ToLower("") == "";
    var t := ToLower(term);
    var company := if d.companyName.Some? then d.companyName.value else "";
    (Contains(ToLower(d.title), t) || Contains(ToLower(company), t))
    && (filterStatus == "all" || d.status == filterStatus)
  }

  /** `filteredDistributions` */
  function Filtered(ds: seq<Dist>, term: string, filterStatus: string): (r: seq<Dist>)
    ensures |r| <= |ds|
    ensures forall x :: x in r <==> x in ds && Matches(x, term, filterStatus)
  {
    if |ds| == 0 then []
    else Filtered(ds[..|ds| - 1], term, filterStatus)
         + (if Matches(ds[|ds| - 1], term, filterStatus) then [ds[|ds| - 1]] else [])
  }

  lemma {:induction false} ContainsEmpty(s: string)
    ensures Contains(s, "")
  {
  }

  /** An empty search with the 'all' status keeps every row, in order. */
  lemma {:induction false} FilterNothing(ds: seq<Dist>)
    ensures Filtered(ds, "", "all") == ds
    decreases |ds|
  {
    if |ds| > 0 {
      FilterNothing(ds[..|ds| - 1]);
      assert Matches(ds[|ds| - 1], "", "all");
      assert ds == ds[..|ds| - 1] + [ds[|ds| - 1]];
    }
  }

  /** The rows kept are a subsequence: filtering a concatenation filters each part. */
  lemma {:induction false} FilterConcat(a: seq<Dist>, b: seq<Dist>, term: string, filterStatus: string)
    ensures Filtered(a + b, term, filterStatus) == Filtered(a, term, filterStatus) + Filtered(b, term, filterStatus)
    decreases |b|
  {
    if |b| == 0 {
      assert a + b == a;
    } else {
      var b' := b[..|b| - 1];
      assert (a + b)[..|a + b| - 1] == a + b';
      FilterConcat(a, b', term, filterStatus);
    }
  }

  /** `currentPageData`: the first `(page + 1) * 20` rows, or all of them. */
  function CurrentPage(rows: seq<Dist>, page: nat): (r: seq<Dist>)
    ensures r <= rows
    ensures |r| == if (page + 1) * PageSize < |rows| then (page + 1) * PageSize else |rows|
  {
    rows[..if (page + 1) * PageSize < |rows| then (page + 1) * PageSize else |rows|]
  }

  /** Each further page extends the list shown before. */
  lemma PagesGrow(rows: seq<Dist>, page: nat)
    ensures CurrentPage(rows, page) <= CurrentPage(rows, page + 1)
  {
  }

  /** The scrolling state of the list. */
  class Paging {
    var page: nat
    var hasMore: bool
    var loadingMore: bool

    constructor ()
      ensures page == 0 && hasMore && !loadingMore
    {
      page := 0;
      hasMore := true;
      loadingMore := false;
    }

    /** `loadMore` with its timer run to completion: nothing while a load is
        pending, otherwise the next page and whether rows beyond it may remain. */
    method LoadMore(filteredLength: nat)
      modifies this
      ensures old(loadingMore) ==> page == old(page) && hasMore == old(hasMore) && loadingMore
      ensures !old(loadingMore) ==> page == old(page) + 1 && !loadingMore
                                    && (hasMore <==> page * PageSize < filteredLength)
    {
      if loadingMore {
        return;
      }
      loadingMore := true;
      var nextPage := page + 1;
      var hasMoreData := nextPage * PageSize < filteredLength;
      page := nextPage;
      hasMore := hasMoreData;
      loadingMore := false;
    }
  }

  /** Right after a load, `hasMore` is off only when the page shows every row,
      and it is on whenever rows remain hidden. */
  lemma HasMoreMeans(rows: seq<Dist>, page: nat)
    requires page > 0
    ensures !(page * PageSize < |rows|) ==> CurrentPage(rows, page) == rows
    ensures |CurrentPage(rows, page)| < |rows| ==> page * PageSize < |rows|
  {
  }

  // ---------------------------------------------------------------- categories

  /** `d.question_category || '미분류'` */
  function CategoryOf(d: Dist): (r: string)
    ensures r != ""
    ensures d.questionCategory != "" ==> r == d.questionCategory
  {
    if d.questionCategory == "" then "미분류" else d.questionCategory
  }

  /** `categories`: '전체' and then every category once, in first-seen order. */
  function Categories(ds: seq<Dist>): (r: seq<string>)
    ensures |r| > 0 && r[0] == "전체"
    ensures NoDups(r[1..])
    ensures forall c :: c in r[1..] <==> exists i :: 0 <= i < |ds| && CategoryOf(ds[i]) == c
    ensures "" !in r[1..]
  {
    var cats := seq(|ds|, i requires 0 <= i < |ds| => CategoryOf(ds[i]));
    var r := ["전체"] + Distinct(cats);
    assert r[1..] == Distinct(cats);
    assert forall c :: c in cats <==> exists i :: 0 <= i < |ds| && CategoryOf(ds[i]) == c by {
      forall c | c in cats
        ensures exists i :: 0 <= i < |ds| && CategoryOf(ds[i]) == c
      {
        var i :| 0 <= i < |cats| && cats[i] == c;
        assert CategoryOf(ds[i]) == c;
      }
      forall c | exists i :: 0 <= i < |ds| && CategoryOf(ds[i]) == c
        ensures c in cats
      {
        var i :| 0 <= i < |ds| && CategoryOf(ds[i]) == c;
        assert cats[i] == c;
      }
    }
    r
  }
}
