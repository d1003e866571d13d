/** Plain JavaScript objects used as dictionaries. `Object.keys`,
    `Object.values` and `Object.entries` list array-index keys first, in
    ascending numeric order, then every other key in insertion order
    (the OrdinaryOwnPropertyKeys order of ECMA-262). */
module JsObject {
  import opened Seqs
  import opened JsCore

  /** A canonical array index: "0" or digits without a leading zero, below 2^32 - 1. */
  predicate IsArrayIndex(k: string)
  {
    |k| > 0 && (forall i :: 0 <= i < |k| ==> IsDigit(k[i]))
    && (k == "0" || k[0] != '0') && DigitsValue(k) < 4294967295
  }

  /** `ks` in ascending order of `rank`. */
  predicate Ascending<T>(ks: seq<T>, rank: T -> nat)
  {
    forall i, j :: 0 <= i < j < |ks| ==> rank(ks[i]) <= rank(ks[j])
  }

  /** Inserts `k` before the first key of larger-or-equal rank. */
  function InsertByRank<T>(k: T, sorted: seq<T>, rank: T -> nat): (r: seq<T>)
    ensures multiset(r) == multiset(sorted) + multiset{k}
  {
    if |sorted| == 0 then [k]
    else if rank(k) <= rank(sorted[0]) then [k] + sorted
    else
      assert sorted == [sorted[0]] + sorted[1..];
      [sorted[0]] + InsertByRank(k, sorted[1..], rank)
  }

  /** Every key of `ks` has a rank of at least `b`. */
  predicate AllAtLeast<T>(ks: seq<T>, rank: T -> nat, b: nat)
  {
    forall i :: 0 <= i < |ks| ==> b <= rank(ks[i])
  }

  lemma InsertAtLeast<T>(k: T, sorted: seq<T>, rank: T -> nat, b: nat)
    requires AllAtLeast(sorted, rank, b) && b <= rank(k)
    ensures AllAtLeast(InsertByRank(k, sorted, rank), rank, b)
  {
    var r := InsertByRank(k, sorted, rank);
    forall i | 0 <= i < |r|
      ensures b <= rank(r[i])
    {
      assert r[i] in multiset(r);
      if r[i] != k {
        assert r[i] in multiset(sorted);
        var m :| 0 <= m < |sorted| && sorted[m] == r[i];
      }
    }
  }

  lemma ConsAscending<T>(k: T, ks: seq<T>, rank: T -> nat)
    requires Ascending(ks, rank) && AllAtLeast(ks, rank, rank(k))
    ensures Ascending([k] + ks, rank)
  {
    var r := [k] + ks;
    forall i, j | 0 <= i < j < |r|
      ensures rank(r[i]) <= rank(r[j])
    {
      assert r[j] == ks[j - 1];
      if i > 0 {
        assert r[i] == ks[i - 1];
      }
    }
  }

  lemma {:induction false} InsertAscending<T>(k: T, sorted: seq<T>, rank: T -> nat)
    requires Ascending(sorted, rank)
    ensures Ascending(InsertByRank(k, sorted, rank), rank)
    decreases |sorted|
  {
    if |sorted| == 0 {
    } else if rank(k) <= rank(sorted[0]) {
      assert AllAtLeast(sorted, rank, rank(k));
      ConsAscending(k, sorted, rank);
    } else {
      var tail := sorted[1..];
      assert Ascending(tail, rank) && AllAtLeast(tail, rank, rank(sorted[0])) by {
        assert forall i :: 0 <= i < |tail| ==> tail[i] == sorted[i + 1];
      }
      InsertAscending(k, tail, rank);
      InsertAtLeast(k, tail, rank, rank(sorted[0]));
      ConsAscending(sorted[0], InsertByRank(k, tail, rank), rank);
    }
  }

  /** A stable insertion sort of `ks` by `rank`. */
  function SortByRank<T>(ks: seq<T>, rank: T -> nat): (r: seq<T>)
    ensures multiset(r) == multiset(ks)
    ensures Ascending(r, rank)
  {
    if |ks| == 0 then []
    else
      assert ks == ks[..|ks| - 1] + [ks[|ks| - 1]];
      var rest := SortByRank(ks[..|ks| - 1], rank);
      InsertAscending(ks[|ks| - 1], rest, rank);
      InsertByRank(ks[|ks| - 1], rest, rank)
  }

  /** The keys of `ks` that are (or, with `index` false, are not) array indices, in order. */
  function FilterIndex(ks: seq<string>, index: bool): (r: seq<string>)
    ensures forall i :: 0 <= i < |r| ==> IsArrayIndex(r[i]) == index
  {
    if |ks| == 0 then []
    else FilterIndex(ks[..|ks| - 1], index) + (if IsArrayIndex(ks[|ks| - 1]) == index then [ks[|ks| - 1]] else [])
  }

  /** The order in which `Object.keys` lists keys inserted in order `ks`. */
  function KeyOrder(ks: seq<string>): seq<string>
  {
    SortByRank(FilterIndex(ks, true), DigitsValue) + FilterIndex(ks, false)
  }

  lemma {:induction false} FilterSplits(ks: seq<string>)
    ensures multiset(FilterIndex(ks, true)) + multiset(FilterIndex(ks, false)) == multiset(ks)
    decreases |ks|
  {
    if |ks| > 0 {
      var init := ks[..|ks| - 1];
      var x := ks[|ks| - 1];
      FilterSplits(init);
      assert ks == init + [x];
      assert multiset(ks) == multiset(init) + multiset{x};
      if IsArrayIndex(x) {
        assert FilterIndex(ks, true) == FilterIndex(init, true) + [x];
        assert FilterIndex(ks, false) == FilterIndex(init, false);
      } else {
        assert FilterIndex(ks, true) == FilterIndex(init, true);
        assert FilterIndex(ks, false) == FilterIndex(init, false) + [x];
      }
    }
  }

  lemma {:induction false} FilterAll(ks: seq<string>)
    requires forall i :: 0 <= i < |ks| ==> !IsArrayIndex(ks[i])
    ensures FilterIndex(ks, false) == ks
    ensures FilterIndex(ks, true) == []
    decreases |ks|
  {
    if |ks| > 0 {
      FilterAll(ks[..|ks| - 1]);
      assert ks == ks[..|ks| - 1] + [ks[|ks| - 1]];
    }
  }

  /** `Object.keys` lists every inserted key exactly as often as it was inserted. */
  lemma KeyOrderPermutes(ks: seq<string>)
    ensures multiset(KeyOrder(ks)) == multiset(ks)
  {
    FilterSplits(ks);
  }

  /** Without array-index keys, `Object.keys` is plain insertion order. */
  lemma KeyOrderInsertion(ks: seq<string>)
    requires forall i :: 0 <= i < |ks| ==> !IsArrayIndex(ks[i])
    ensures KeyOrder(ks) == ks
  {
    FilterAll(ks);
  }

  /** Array-index keys come first, in ascending numeric order; the rest follow
      in insertion order. */
  lemma KeyOrderShape(ks: seq<string>)
    ensures var r := KeyOrder(ks); var n := |SortByRank(FilterIndex(ks, true), DigitsValue)|;
      Ascending(r[..n], DigitsValue)
      && (forall i :: 0 <= i < n ==> IsArrayIndex(r[i]))
      && r[n..] == FilterIndex(ks, false)
  {
    var s := SortByRank(FilterIndex(ks, true), DigitsValue);
    var r := KeyOrder(ks);
    assert r[..|s|] == s;
    forall i | 0 <= i < |s|
      ensures IsArrayIndex(r[i])
    {
      assert r[i] == s[i];
      assert s[i] in multiset(FilterIndex(ks, true));
    }
  }

  lemma {:induction false} NoDupsFromMultiset<T>(s: seq<T>)
    requires forall x :: x in multiset(s) ==> multiset(s)[x] == 1
    ensures NoDups(s)
  {
    forall i, j | 0 <= i < j < |s|
      ensures s[i] != s[j]
    {
      var x := s[j];
      assert s == s[..i] + [s[i]] + s[i + 1..j] + [s[j]] + s[j + 1..];
      assert multiset(s)[x] == multiset(s[..i])[x] + multiset([s[i]])[x]
        + multiset(s[i + 1..j])[x] + multiset([s[j]])[x] + multiset(s[j + 1..])[x];
    }
  }

  lemma {:induction false} MultisetFromNoDups<T>(s: seq<T>)
    requires NoDups(s)
    ensures forall x :: x in multiset(s) ==> multiset(s)[x] == 1
    decreases |s|
  {
    if |s| > 0 {
      var s' := s[..|s| - 1];
      assert s == s' + [s[|s| - 1]];
      MultisetFromNoDups(s');
      assert s[|s| - 1] !in s';
    }
  }

  /** Reordering a duplicate-free sequence keeps it duplicate-free. */
  lemma NoDupsPermutation<T>(a: seq<T>, b: seq<T>)
    requires NoDups(a) && multiset(a) == multiset(b)
    ensures NoDups(b)
  {
    MultisetFromNoDups(a);
    NoDupsFromMultiset(b);
  }

  // ---------------------------------------------------------------- dictionaries

  /** A plain object used as a dictionary: its keys in insertion order and its entries. */
  datatype Dict<V> = Dict(order: seq<string>, m: map<string, V>)

  /** `order` lists every key of `keys` exactly once. */
  ghost predicate Lists(order: seq<string>, keys: set<string>)
    decreases |order|
  {
    if |order| == 0 then keys == {}
    else
      var k := order[|order| - 1];
      k in keys && Lists(order[..|order| - 1], keys - {k})
  }

  lemma {:induction false} ListsMember(order: seq<string>, keys: set<string>, x: string)
    requires Lists(order, keys)
    ensures x in order <==> x in keys
    decreases |order|
  {
    if |order| > 0 {
      var k := order[|order| - 1];
      ListsMember(order[..|order| - 1], keys - {k}, x);
      assert order == order[..|order| - 1] + [k];
    }
  }

  lemma {:induction false} ListsNoDups(order: seq<string>, keys: set<string>)
    requires Lists(order, keys)
    ensures NoDups(order)
    decreases |order|
  {
    if |order| > 0 {
      var k := order[|order| - 1];
      var init := order[..|order| - 1];
      ListsNoDups(init, keys - {k});
      ListsMember(init, keys - {k}, k);
      forall i, j | 0 <= i < j < |order|
        ensures order[i] != order[j]
      {
        if j < |order| - 1 {
          assert order[i] == init[i] && order[j] == init[j];
        } else {
          assert order[i] == init[i] && init[i] in init;
        }
      }
    }
  }

  lemma ListsSnoc(order: seq<string>, keys: set<string>, k: string)
    requires Lists(order, keys) && k !in keys
    ensures Lists(order + [k], keys + {k})
  {
    assert (order + [k])[..|order|] == order;
    assert (keys + {k}) - {k} == keys;
  }

  /** The dictionary invariant: `order` holds each key of `m` once. */
  ghost predicate Valid<V>(d: Dict<V>)
  {
    Lists(d.order, d.m.Keys)
  }

  /** A key is in the insertion order exactly when it is stored. */
  lemma ValidMember<V>(d: Dict<V>, k: string)
    requires Valid(d)
    ensures k in d.order <==> k in d.m
  {
    ListsMember(d.order, d.m.Keys, k);
  }

  lemma ValidNoDups<V>(d: Dict<V>)
    requires Valid(d)
    ensures NoDups(d.order)
  {
    ListsNoDups(d.order, d.m.Keys);
  }

  function Empty<V>(): (d: Dict<V>)
    ensures Valid(d)
  {
    Dict([], map[])
  }

  /** `d[k] = v`: a new key goes to the end of the insertion order. */
  function Put<V>(d: Dict<V>, k: string, v: V): (r: Dict<V>)
    ensures r.m == d.m[k := v]
    ensures r.order == if k in d.m then d.order else d.order + [k]
  {
    if k in d.m then Dict(d.order, d.m[k := v]) else Dict(d.order + [k], d.m[k := v])
  }

  /** Storing a key keeps the invariant. */
  lemma PutValid<V>(d: Dict<V>, k: string, v: V)
    requires Valid(d)
    ensures Valid(Put(d, k, v))
  {
    if k in d.m {
      assert d.m[k := v].Keys == d.m.Keys;
    } else {
      ListsSnoc(d.order, d.m.Keys, k);
      assert d.m[k := v].Keys == d.m.Keys + {k};
    }
  }

  /** Writing a key twice leaves the second value, at the key's first position. */
  lemma PutPut<V>(d: Dict<V>, k: string, v0: V, v1: V)
    ensures Put(Put(d, k, v0), k, v1) == Put(d, k, v1)
  {
  }

  /** `Object.keys(d)` */
  function Keys<V>(d: Dict<V>): (ks: seq<string>)
    requires Valid(d)
    ensures NoDups(ks) && multiset(ks) == multiset(d.order)
    ensures forall i :: 0 <= i < |ks| ==> ks[i] in d.m
  {
    ValidNoDups(d);
    KeyOrderPermutes(d.order);
    NoDupsPermutation(d.order, KeyOrder(d.order));
    var ks := KeyOrder(d.order);
    assert forall i :: 0 <= i < |ks| ==> ks[i] in multiset(d.order);
    forall i | 0 <= i < |ks|
      ensures ks[i] in d.m
    {
      ValidMember(d, ks[i]);
    }
    ks
  }

  /** `Object.keys` lists exactly the keys of the dictionary. */
  lemma KeysCover<V>(d: Dict<V>)
    requires Valid(d)
    ensures forall k :: k in Keys(d) <==> k in d.m
  {
    forall k | k in d.m
      ensures k in Keys(d)
    {
      ValidMember(d, k);
      assert k in multiset(d.order);
    }
  }

  /** `Object.values(d)` */
  function Values<V>(d: Dict<V>): (vs: seq<V>)
    requires Valid(d)
    ensures |vs| == |Keys(d)|
    ensures forall i :: 0 <= i < |vs| ==> vs[i] == d.m[Keys(d)[i]]
  {
    var ks := Keys(d);
    seq(|ks|, i requires 0 <= i < |ks| => d.m[ks[i]])
  }

  /** `Object.entries(d)` */
  function Entries<V>(d: Dict<V>): (es: seq<(string, V)>)
    requires Valid(d)
    ensures |es| == |Keys(d)|
    ensures forall i :: 0 <= i < |es| ==> es[i] == (Keys(d)[i], d.m[Keys(d)[i]])
  {
    var ks := Keys(d);
    seq(|ks|, i requires 0 <= i < |ks| => (ks[i], d.m[ks[i]]))
  }

  /** The count stored under a key, 0 for an absent key. */
  function Counter(d: Dict<int>): string -> int
  {
    k => if k in d.m then d.m[k] else 0
  }

  /** The values of a counting dictionary sum to the same total in
      `Object.values` order as in insertion order. */
  lemma SumValues(d: Dict<int>)
    requires Valid(d)
    ensures Sum(Values(d)) == SumOf(Counter(d), d.order)
  {
    SumOfValues(Counter(d), Keys(d), Values(d));
    SumOfPermutation(Counter(d), Keys(d), d.order);
  }

  /** `d[k] = (d[k] || 0) + 1` */
  function Bump(d: Dict<int>, k: string): (r: Dict<int>)
    ensures r.m == d.m[k := Counter(d)(k) + 1]
    ensures r.order == if k in d.m then d.order else d.order + [k]
  {
    Put(d, k, (if k in d.m then d.m[k] else 0) + 1)
  }

  /** Bumping one key of a valid counter raises its total over the keys by one. */
  lemma BumpTotal(d: Dict<int>, k: string)
    requires Valid(d)
    ensures Valid(Bump(d, k))
    ensures SumOf(Counter(Bump(d, k)), Bump(d, k).order) == SumOf(Counter(d), d.order) + 1
  {
    var f, f' := Counter(d), Counter(Bump(d, k));
    PutValid(d, k, f(k) + 1);
    ValidNoDups(d);
    ValidMember(d, k);
    if k in d.m {
      SumOfBump(f, f', d.order, k);
    } else {
      SumOfAgree(f, f', d.order);
      assert (d.order + [k])[..|d.order|] == d.order;
    }
  }

  /** `for (const k of ks) out[k] = f(k)`, starting from `{}`. */
  function Tabulate<V>(ks: seq<string>, f: string -> V): Dict<V>
  {
    if |ks| == 0 then Empty() else Put(Tabulate(ks[..|ks| - 1], f), ks[|ks| - 1], f(ks[|ks| - 1]))
  }

  lemma TabulatePrefix<V>(ks: seq<string>, i: nat, f: string -> V)
    requires i < |ks|
    ensures Tabulate(ks[..i + 1], f) == Put(Tabulate(ks[..i], f), ks[i], f(ks[i]))
  {
    assert ks[..i + 1][..i] == ks[..i];
  }

  /** Over distinct keys the table is valid and keeps the keys in the order given. */
  lemma {:induction false} TabulateValid<V>(ks: seq<string>, f: string -> V)
    requires NoDups(ks)
    ensures Valid(Tabulate(ks, f)) && Tabulate(ks, f).order == ks
    decreases |ks|
  {
    if |ks| > 0 {
      var ks' := ks[..|ks| - 1];
      TabulateValid(ks', f);
      assert ks[|ks| - 1] !in ks';
      TabulateEntry(ks', f, ks[|ks| - 1]);
      PutValid(Tabulate(ks', f), ks[|ks| - 1], f(ks[|ks| - 1]));
      assert ks == ks' + [ks[|ks| - 1]];
    }
  }

  /** The table holds `f(k)` at exactly the keys listed. */
  lemma {:induction false} TabulateEntry<V>(ks: seq<string>, f: string -> V, k: string)
    ensures k in Tabulate(ks, f).m <==> k in ks
    ensures k in ks ==> Tabulate(ks, f).m[k] == f(k)
    decreases |ks|
  {
    if |ks| > 0 {
      var ks' := ks[..|ks| - 1];
      TabulateEntry(ks', f, k);
      assert ks == ks' + [ks[|ks| - 1]];
    }
  }

  /** `ks.forEach((k, i) => { out[k] = vs[i] })`, starting from `{}`: a later
      value for a key overwrites an earlier one. */
  function Store<V>(ks: seq<string>, vs: seq<V>): Dict<V>
    requires |ks| == |vs|
  {
    if |ks| == 0 then Empty() else Put(Store(ks[..|ks| - 1], vs[..|vs| - 1]), ks[|ks| - 1], vs[|vs| - 1])
  }

  /** The loop that stores the values one by one. */
  method StoreAll<V>(ks: seq<string>, vs: seq<V>) returns (d: Dict<V>)
    requires |ks| == |vs|
    ensures d == Store(ks, vs)
  {
    d := Empty();
    for i := 0 to |ks|
      invariant d == Store(ks[..i], vs[..i])
    {
      assert ks[..i + 1][..i] == ks[..i] && vs[..i + 1][..i] == vs[..i];
      d := Put(d, ks[i], vs[i]);
    }
    assert ks[..|ks|] == ks && vs[..|vs|] == vs;
  }

  lemma {:induction false} StoreValid<V>(ks: seq<string>, vs: seq<V>)
    requires |ks| == |vs|
    ensures Valid(Store(ks, vs))
    decreases |ks|
  {
    if |ks| > 0 {
      StoreValid(ks[..|ks| - 1], vs[..|vs| - 1]);
      PutValid(Store(ks[..|ks| - 1], vs[..|vs| - 1]), ks[|ks| - 1], vs[|vs| - 1]);
    }
  }

  /** The keys stored are exactly the keys listed. */
  lemma {:induction false} StoreKeys<V>(ks: seq<string>, vs: seq<V>)
    requires |ks| == |vs|
    ensures forall k :: k in Store(ks, vs).m <==> k in ks
    decreases |ks|
  {
    if |ks| > 0 {
      StoreKeys(ks[..|ks| - 1], vs[..|vs| - 1]);
      assert ks == ks[..|ks| - 1] + [ks[|ks| - 1]];
    }
  }

  /** Each key holds the value paired with its last occurrence. */
  lemma {:induction false} StoreLast<V>(ks: seq<string>, vs: seq<V>, i: nat)
    requires |ks| == |vs| && i < |ks|
    requires forall j :: i < j < |ks| ==> ks[j] != ks[i]
    ensures ks[i] in Store(ks, vs).m && Store(ks, vs).m[ks[i]] == vs[i]
    decreases |ks|
  {
    if i < |ks| - 1 {
      var ks', vs' := ks[..|ks| - 1], vs[..|vs| - 1];
      assert forall j :: i < j < |ks'| ==> ks'[j] == ks[j];
      StoreLast(ks', vs', i);
    }
  }

  /** `ks.forEach(k => { out[k] = (out[k] || 0) + 1 })`, starting from `{}`. */
  function Tally(ks: seq<string>): Dict<int>
  {
    if |ks| == 0 then Empty() else Bump(Tally(ks[..|ks| - 1]), ks[|ks| - 1])
  }

  /** The tallies add up to the number of keys counted. */
  lemma {:induction false} TallyTotal(ks: seq<string>)
    ensures Valid(Tally(ks))
    ensures SumOf(Counter(Tally(ks)), Tally(ks).order) == |ks|
  {
    if |ks| > 0 {
      TallyTotal(ks[..|ks| - 1]);
      BumpTotal(Tally(ks[..|ks| - 1]), ks[|ks| - 1]);
    }
  }

  /** Each key is tallied as often as it occurs, and only keys that occur are present. */
  lemma {:induction false} TallyCount(ks: seq<string>, k: string)
    ensures k in Tally(ks).m <==> k in ks
    ensures Counter(Tally(ks))(k) == Count(ks, k)
  {
    if |ks| > 0 {
      var ks' := ks[..|ks| - 1];
      TallyCount(ks', k);
      assert ks == ks' + [ks[|ks| - 1]];
    }
  }

  /** The keys of a tally come in first-seen order. */
  lemma {:induction false} TallyOrder(ks: seq<string>)
    ensures Tally(ks).order == Distinct(ks)
  {
    if |ks| > 0 {
      var ks' := ks[..|ks| - 1];
      TallyOrder(ks');
      TallyCount(ks', ks[|ks| - 1]);
    }
  }

  method CountKeys(ks: seq<string>) returns (d: Dict<int>)
    ensures d == Tally(ks)
  {
    d := Empty();
    for i := 0 to |ks|
      invariant d == Tally(ks[..i])
    {
      d := Bump(d, ks[i]);
      assert ks[..i + 1][..i] == ks[..i];
    }
    assert ks[..|ks|] == ks;
  }

  /** A property of a chart-row object: the row label or a number. */
  datatype Field = Label(text: string) | Amount(n: int)

  function AmountOf(f: Field): int
  {
    if f.Amount? then f.n else 0
  }
}
