/** The home dashboard: the status chart over the fetched distributions and
    the recent-activity feed that merges the latest responses and
    distributions and keeps the five newest. */
module Dashboard {
  import opened Seqs
  import opened JsCore
  import opened JsObject

  datatype Slice = Slice(name: string, value: int)

  /** The status chart: the number of 'active' rows and of 'completed' rows;
      the counts per status add up to the number of rows. */
  method StatusChart(statuses: seq<string>) returns (counts: Dict<int>, chart: seq<Slice>)
    ensures Valid(counts) && SumOf(Counter(counts), counts.order) == |statuses|
    ensures |chart| == 2
    ensures chart[0] == Slice("진행중", Count(statuses, "active"))
    ensures chart[1] == Slice("완료됨", Count(statuses, "completed"))
  {
    counts := CountKeys(statuses);
    TallyTotal(statuses);
    TallyCount(statuses, "active");
    TallyCount(statuses, "completed");
    var active := if "active" in counts.m then counts.m["active"] else 0;
    var completed := if "completed" in counts.m then counts.m["completed"] else 0;
    chart := [Slice("진행중", active), Slice("완료됨", completed)];
  }

  /** The two bars never count more rows than there are. */
  lemma {:induction false} ChartWithinRows(statuses: seq<string>)
    ensures Count(statuses, "active") + Count(statuses, "completed") <= |statuses|
    decreases |statuses|
  {
    if |statuses| > 0 {
      ChartWithinRows(statuses[..|statuses| - 1]);
    }
  }

  // ---------------------------------------------------------------- activity feed

  datatype Response = Response(id: string, submittedAt: int, distributionId: string)
  datatype Distribution = Distribution(id: string, title: string, createdAt: int)

  /** A feed item; `date` is the time its date text denotes. */
  datatype Activity = Activity(kind: string, id: string, title: string, date: int, link: string)

  function FromResponse(r: Response): Activity
  {
    Activity("response", r.id, "새 응답이 제출됨", r.submittedAt, "/results/" + r.distributionId)
  }

  function FromDistribution(d: Distribution): Activity
  {
    Activity("distribution", d.id, "'" + d.title + "' 설문 배포", d.createdAt, "/admin/results")
  }

  /** `rows || []` */
  function Rows<T>(rows: Option<seq<T>>): seq<T>
  {
    if rows.Some? then rows.value else []
  }

  /** The merged list before sorting: responses first, then distributions; a
      failed fetch (`null`) contributes nothing. */
  function Merged(responses: Option<seq<Response>>, dists: Option<seq<Distribution>>): (r: seq<Activity>)
    ensures |r| == |Rows(responses)| + |Rows(dists)|
    ensures forall i :: 0 <= i < |Rows(responses)| ==> r[i] == FromResponse(Rows(responses)[i])
    ensures forall j :: 0 <= j < |Rows(dists)| ==> r[|Rows(responses)| + j] == FromDistribution(Rows(dists)[j])
  {
    var rs, ds := Rows(responses), Rows(dists);
    seq(|rs|, i requires 0 <= i < |rs| => FromResponse(rs[i]))
    + seq(|ds|, j requires 0 <= j < |ds| => FromDistribution(ds[j]))
  }

  function DateOf(x: Activity): int
  {
    x.date
  }

  /** `activities.sort((a, b) => new Date(b.date) - new Date(a.date))`: stable, newest first. */
  function SortDesc(s: seq<Activity>): seq<Activity>
  {
    SortDescBy(s, DateOf)
  }

  /** The page's sort, one insertion per item. */
  method SortActivities(s: seq<Activity>) returns (r: seq<Activity>)
    ensures r == SortDesc(s)
  {
    r := [];
    for i := 0 to |s|
      invariant r == SortDescBy(s[..i], DateOf)
    {
      r := InsertDescBy(s[i], r, DateOf);
      assert s[..i + 1][..i] == s[..i] && s[..i + 1][i] == s[i];
      assert SortDescBy(s[..i + 1], DateOf) == InsertDescBy(s[i], SortDescBy(s[..i], DateOf), DateOf);
    }
    assert s[..|s|] == s;
  }

  /** `slice(0, 5)` */
  function Top(sorted: seq<Activity>): seq<Activity>
  {
    if |sorted| < 5 then sorted else sorted[..5]
  }

  /** `setRecentActivity(activities.slice(0, 5))` */
  method RecentActivity(responses: Option<seq<Response>>, dists: Option<seq<Distribution>>)
    returns (feed: seq<Activity>)
    ensures feed == Feed(responses, dists)
  {
    var sorted := SortActivities(Merged(responses, dists));
    feed := if |sorted| < 5 then sorted else sorted[..5];
  }

  /** The activity feed: at most five of the merged items, newest first. */
  function Feed(responses: Option<seq<Response>>, dists: Option<seq<Distribution>>): (r: seq<Activity>)
    ensures |r| == (if |Merged(responses, dists)| < 5 then |Merged(responses, dists)| else 5)
    ensures forall x :: x in r ==> x in Merged(responses, dists)
    ensures DescendingBy(r, DateOf)
  {
    TopShape(Merged(responses, dists));
    Top(SortDesc(Merged(responses, dists)))
  }

  /** The five newest of a list: at most five items, all from the list, newest first. */
  lemma TopShape(all: seq<Activity>)
    ensures var top := Top(SortDesc(all));
      |top| == (if |all| < 5 then |all| else 5)
      && (forall x :: x in top ==> x in all)
      && DescendingBy(top, DateOf)
  {
    var sorted := SortDesc(all);
    var top := Top(sorted);
    SortDescending(all, DateOf);
    assert top == sorted[..|top|];
    forall x | x in top
      ensures x in all
    {
      assert x in multiset(sorted);
    }
  }

  /** None of the items left out is newer than an item kept. */
  lemma TopNewest(all: seq<Activity>)
    ensures var top := Top(SortDesc(all));
      forall i, x :: 0 <= i < |top| && x in all && x !in top ==> x.date <= top[i].date
  {
    var sorted := SortDesc(all);
    var top := Top(sorted);
    SortDescending(all, DateOf);
    assert top == sorted[..|top|];
    forall i, x | 0 <= i < |top| && x in all && x !in top
      ensures x.date <= top[i].date
    {
      assert x in multiset(sorted);
      var j :| 0 <= j < |sorted| && sorted[j] == x;
      assert j >= |top|;
    }
  }

  /** Among items of one date, no distribution comes before a response. */
  predicate ResponsesFirst(s: seq<Activity>)
  {
    forall i, j :: 0 <= i < j < |s| ==> !(s[i].kind == "distribution" && s[j].kind == "response")
  }

  lemma {:induction false} KindsWithKey(s: seq<Activity>, kind: string, d: int)
    requires forall i :: 0 <= i < |s| ==> s[i].kind == kind
    ensures forall x :: x in WithKey(s, DateOf, d) ==> x.kind == kind
    decreases |s|
  {
    if |s| > 0 {
      var t := s[1..];
      assert forall i :: 0 <= i < |t| ==> t[i] == s[i + 1];
      KindsWithKey(t, kind, d);
    }
  }

  /** In the merged list the responses of a date precede its distributions. */
  lemma MergedResponsesFirst(responses: Option<seq<Response>>, dists: Option<seq<Distribution>>, d: int)
    ensures ResponsesFirst(WithKey(Merged(responses, dists), DateOf, d))
  {
    var all := Merged(responses, dists);
    var n := |Rows(responses)|;
    var rs, ds := all[..n], all[n..];
    assert all == rs + ds;
    WithKeyConcat(rs, ds, DateOf, d);
    KindsWithKey(rs, "response", d);
    KindsWithKey(ds, "distribution", d);
  }

  /** The feed holds the five newest of the merged responses and distributions.
      The sort is stable, so the items of one date keep their merged order:
      the feed's items of a date are the first of the merged items of that
      date, and responses come before distributions. */
  lemma FeedShape(responses: Option<seq<Response>>, dists: Option<seq<Distribution>>)
    ensures var all := Merged(responses, dists); var feed := Feed(responses, dists);
      |feed| == (if |Rows(responses)| + |Rows(dists)| < 5 then |Rows(responses)| + |Rows(dists)| else 5)
      && (forall x :: x in feed ==> x in all)
      && DescendingBy(feed, DateOf)
      && (forall i, x :: 0 <= i < |feed| && x in all && x !in feed ==> x.date <= feed[i].date)
      && (forall d :: WithKey(feed, DateOf, d) <= WithKey(all, DateOf, d))
      && (forall d :: ResponsesFirst(WithKey(feed, DateOf, d)))
  {
    var all := Merged(responses, dists);
    TopShape(all);
    TopNewest(all);
    forall d
      ensures WithKey(Feed(responses, dists), DateOf, d) <= WithKey(all, DateOf, d)
      ensures ResponsesFirst(WithKey(Feed(responses, dists), DateOf, d))
    {
      FeedTies(responses, dists, d);
    }
  }

  /** The feed's items of date `d` are the first merged items of that date. */
  lemma FeedTies(responses: Option<seq<Response>>, dists: Option<seq<Distribution>>, d: int)
    ensures WithKey(Feed(responses, dists), DateOf, d) <= WithKey(Merged(responses, dists), DateOf, d)
    ensures ResponsesFirst(WithKey(Feed(responses, dists), DateOf, d))
  {
    var all := Merged(responses, dists);
    var sorted := SortDesc(all);
    var feed := Top(sorted);
    assert sorted == feed + sorted[|feed|..];
    SortStable(all, DateOf, d);
    WithKeyConcat(feed, sorted[|feed|..], DateOf, d);
    MergedResponsesFirst(responses, dists, d);
    var w, wa := WithKey(feed, DateOf, d), WithKey(all, DateOf, d);
    assert w <= wa;
    assert forall i :: 0 <= i < |w| ==> w[i] == wa[i];
  }

  /** Response items link to their distribution's results, distribution items
      to the results administration page. */
  predicate Linked(x: Activity)
  {
    (x.kind == "response" && StartsWith(x.link, "/results/"))
    || (x.kind == "distribution" && x.link == "/admin/results")
  }

  lemma ResponseLinked(r: Response)
    ensures Linked(FromResponse(r))
  {
    assert ("/results/" + r.distributionId)[..9] == "/results/";
  }

  lemma MergedLinked(responses: Option<seq<Response>>, dists: Option<seq<Distribution>>)
    ensures forall k :: 0 <= k < |Merged(responses, dists)| ==> Linked(Merged(responses, dists)[k])
  {
    var all := Merged(responses, dists);
    var rs, ds := Rows(responses), Rows(dists);
    forall k | 0 <= k < |all|
      ensures Linked(all[k])
    {
      if k < |rs| {
        ResponseLinked(rs[k]);
      } else {
        assert all[|rs| + (k - |rs|)] == FromDistribution(ds[k - |rs|]);
      }
    }
  }

  /** Every item of the feed carries the link of its kind. */
  lemma FeedLinks(responses: Option<seq<Response>>, dists: Option<seq<Distribution>>)
    ensures forall x :: x in Feed(responses, dists) ==> Linked(x)
  {
    TopShape(Merged(responses, dists));
    MergedLinked(responses, dists);
  }
}
