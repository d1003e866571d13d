/** Generic sequence facts shared by the analytics modules: sums, occurrence
    counts and first-seen de-duplication (the order a JavaScript `Set` keeps). */
module Seqs {

  predicate NoDups<T(==)>(s: seq<T>)
  {
    forall i, j :: 0 <= i < j < |s| ==> s[i] != s[j]
  }

  function Sum(s: seq<int>): int
  {
    if |s| == 0 then 0 else Sum(s[..|s| - 1]) + s[|s| - 1]
  }

  function SumReal(s: seq<real>): real
  {
    if |s| == 0 then 0.0 else SumReal(s[..|s| - 1]) + s[|s| - 1]
  }

  /** Number of occurrences of `x` in `s`. */
  function Count<T(==)>(s: seq<T>, x: T): nat
  {
    if |s| == 0 then 0
    else Count(s[..|s| - 1], x) + (if s[|s| - 1] == x then 1 else 0)
  }

  /** The elements of `s` in first-seen order, each once: `[...new Set(s)]`. */
  function Distinct<T(==, !new)>(s: seq<T>): (d: seq<T>)
    ensures NoDups(d)
    ensures forall x :: x in d <==> x in s
  {
    if |s| == 0 then []
    else
      var p := Distinct(s[..|s| - 1]);
      assert forall i :: 0 <= i < |s| - 1 ==> s[i] == s[..|s| - 1][i];
      if s[|s| - 1] in p then p else p + [s[|s| - 1]]
  }

  lemma SumSnoc(s: seq<int>, x: int)
    ensures Sum(s + [x]) == Sum(s) + x
  {
    assert (s + [x])[..|s|] == s;
  }

  lemma SumRealSnoc(s: seq<real>, x: real)
    ensures SumReal(s + [x]) == SumReal(s) + x
  {
    assert (s + [x])[..|s|] == s;
  }

  lemma CountSnoc<T>(s: seq<T>, y: T, x: T)
    ensures Count(s + [y], x) == Count(s, x) + (if y == x then 1 else 0)
  {
    assert (s + [y])[..|s|] == s;
  }

  lemma {:induction false} SumConcat(a: seq<int>, b: seq<int>)
    ensures Sum(a + b) == Sum(a) + Sum(b)
    decreases |b|
  {
    if |b| == 0 {
      assert a + b == a;
    } else {
      var b' := b[..|b| - 1];
      assert a + b == (a + b') + [b[|b| - 1]];
      assert b == b' + [b[|b| - 1]];
      SumSnoc(a + b', b[|b| - 1]);
      SumSnoc(b', b[|b| - 1]);
      SumConcat(a, b');
    }
  }

  /** The summands of a count: `Count(s, x)` is the number of indices holding `x`. */
  lemma {:induction false} CountMultiset<T>(s: seq<T>, x: T)
    ensures Count(s, x) == multiset(s)[x]
    decreases |s|
  {
    if |s| > 0 {
      var s' := s[..|s| - 1];
      assert s == s' + [s[|s| - 1]];
      CountMultiset(s', x);
    }
  }

  /** `Σ f(k)` over `ks`, in order. */
  function SumOf<K>(f: K -> int, ks: seq<K>): int
  {
    if |ks| == 0 then 0 else SumOf(f, ks[..|ks| - 1]) + f(ks[|ks| - 1])
  }

  lemma {:induction false} SumOfConcat<K>(f: K -> int, a: seq<K>, b: seq<K>)
    ensures SumOf(f, a + b) == SumOf(f, a) + SumOf(f, b)
    decreases |b|
  {
    if |b| == 0 {
      assert a + b == a;
    } else {
      var b' := b[..|b| - 1];
      assert a + b == (a + b') + [b[|b| - 1]];
      assert (a + b)[..|a + b| - 1] == a + b';
      SumOfConcat(f, a, b');
    }
  }

  /** Taking the element at `j` out of `b`. */
  lemma MultisetRemove<K>(b: seq<K>, j: nat)
    requires j < |b|
    ensures multiset(b[..j] + b[j + 1..]) == multiset(b) - multiset{b[j]}
  {
    assert b == b[..j] + [b[j]] + b[j + 1..];
  }

  lemma {:induction false} SumOfRemove<K>(f: K -> int, b: seq<K>, j: nat)
    requires j < |b|
    ensures SumOf(f, b) == SumOf(f, b[..j] + b[j + 1..]) + f(b[j])
    decreases |b|
  {
    var n := |b| - 1;
    if j == n {
      assert b[..j] + b[j + 1..] == b[..n];
    } else {
      var b' := b[..n];
      SumOfRemove(f, b', j);
      var rest := b'[..j] + b'[j + 1..];
      assert b[..j] + b[j + 1..] == rest + [b[n]];
      assert (rest + [b[n]])[..|rest|] == rest;
    }
  }

  /** Summing `f` over a reordering of the arguments gives the same total. */
  lemma {:induction false} SumOfPermutation<K>(f: K -> int, a: seq<K>, b: seq<K>)
    requires multiset(a) == multiset(b)
    ensures SumOf(f, a) == SumOf(f, b)
    decreases |a|
  {
    if |a| == 0 {
      assert |b| == |multiset(b)| == 0;
    } else {
      var x := a[|a| - 1];
      var a' := a[..|a| - 1];
      assert a == a' + [x];
      assert x in multiset(b);
      var j :| 0 <= j < |b| && b[j] == x;
      MultisetRemove(b, j);
      assert multiset(a') == multiset(a) - multiset{x};
      SumOfPermutation(f, a', b[..j] + b[j + 1..]);
      SumOfRemove(f, b, j);
    }
  }

  /** Functions that agree on every element of `ks` have the same total over it. */
  lemma {:induction false} SumOfAgree<K>(f: K -> int, g: K -> int, ks: seq<K>)
    requires forall i :: 0 <= i < |ks| ==> f(ks[i]) == g(ks[i])
    ensures SumOf(f, ks) == SumOf(g, ks)
    decreases |ks|
  {
    if |ks| > 0 {
      SumOfAgree(f, g, ks[..|ks| - 1]);
    }
  }

  /** Raising `f` by one at a single key of a duplicate-free `ks` raises the total by one. */
  lemma {:induction false} SumOfBump<K>(f: K -> int, g: K -> int, ks: seq<K>, key: K)
    requires NoDups(ks) && key in ks
    requires g(key) == f(key) + 1
    requires forall i :: 0 <= i < |ks| && ks[i] != key ==> g(ks[i]) == f(ks[i])
    ensures SumOf(g, ks) == SumOf(f, ks) + 1
    decreases |ks|
  {
    var ks' := ks[..|ks| - 1];
    if ks[|ks| - 1] == key {
      assert key !in ks';
      SumOfAgree(f, g, ks');
    } else {
      assert key in ks';
      SumOfBump(f, g, ks', key);
    }
  }

  /** A list of values computed pointwise by `f` sums to `SumOf(f, ks)`. */
  lemma {:induction false} SumOfValues<K>(f: K -> int, ks: seq<K>, vs: seq<int>)
    requires |vs| == |ks|
    requires forall i :: 0 <= i < |ks| ==> vs[i] == f(ks[i])
    ensures Sum(vs) == SumOf(f, ks)
    decreases |ks|
  {
    if |ks| > 0 {
      SumOfValues(f, ks[..|ks| - 1], vs[..|vs| - 1]);
    }
  }

  /** The first-seen list grows by `x` exactly when `x` is new. */
  lemma DistinctSnoc<T(!new)>(s: seq<T>, x: T)
    ensures Distinct(s + [x]) == if x in Distinct(s) then Distinct(s) else Distinct(s) + [x]
  {
    assert (s + [x])[..|s|] == s;
  }

  lemma {:induction false} SumOfZero<K>(f: K -> int, ks: seq<K>)
    requires forall i :: 0 <= i < |ks| ==> f(ks[i]) == 0
    ensures SumOf(f, ks) == 0
    decreases |ks|
  {
    if |ks| > 0 {
      SumOfZero(f, ks[..|ks| - 1]);
    }
  }

  /** A pointwise smaller summand gives a smaller total. */
  lemma {:induction false} SumOfMono<K>(f: K -> int, g: K -> int, ks: seq<K>)
    requires forall i :: 0 <= i < |ks| ==> f(ks[i]) <= g(ks[i])
    ensures SumOf(f, ks) <= SumOf(g, ks)
    decreases |ks|
  {
    if |ks| > 0 {
      SumOfMono(f, g, ks[..|ks| - 1]);
    }
  }

  /** Counting each key of a duplicate-free list that covers `s` accounts for every element of `s`. */
  lemma {:induction false} CountsCover<T>(s: seq<T>, ks: seq<T>)
    requires NoDups(ks)
    requires forall i :: 0 <= i < |s| ==> s[i] in ks
    ensures SumOf(k => Count(s, k), ks) == |s|
    decreases |s|
  {
    if |s| == 0 {
      SumOfZero(k => Count(s, k), ks);
    } else {
      var s' := s[..|s| - 1];
      CountsCover(s', ks);
      SumOfBump(k => Count(s', k), k => Count(s, k), ks, s[|s| - 1]);
    }
  }

  /** The elements of `s` that occur in `ks`, in order. */
  function Among<T(==, !new)>(s: seq<T>, ks: seq<T>): (r: seq<T>)
    ensures |r| <= |s|
    ensures forall x :: x in r <==> x in s && x in ks
  {
    if |s| == 0 then []
    else
      var s' := s[..|s| - 1];
      assert s == s' + [s[|s| - 1]];
      Among(s', ks) + (if s[|s| - 1] in ks then [s[|s| - 1]] else [])
  }

  /** Counting each key of a duplicate-free list and adding up counts exactly the
      elements that are among those keys. */
  lemma {:induction false} CountsAmong<T(!new)>(s: seq<T>, ks: seq<T>)
    requires NoDups(ks)
    ensures SumOf(k => Count(s, k), ks) == |Among(s, ks)|
    decreases |s|
  {
    if |s| == 0 {
      SumOfZero(k => Count(s, k), ks);
    } else {
      var s' := s[..|s| - 1];
      CountsAmong(s', ks);
      if s[|s| - 1] in ks {
        SumOfBump(k => Count(s', k), k => Count(s, k), ks, s[|s| - 1]);
      } else {
        SumOfAgree(k => Count(s', k), k => Count(s, k), ks);
      }
    }
  }

  /** Raising `f` by `delta` at a single key of a duplicate-free `ks` raises the total by `delta`. */
  lemma {:induction false} SumOfShift<K>(f: K -> int, g: K -> int, ks: seq<K>, key: K, delta: int)
    requires NoDups(ks) && key in ks
    requires g(key) == f(key) + delta
    requires forall i :: 0 <= i < |ks| && ks[i] != key ==> g(ks[i]) == f(ks[i])
    ensures SumOf(g, ks) == SumOf(f, ks) + delta
    decreases |ks|
  {
    var ks' := ks[..|ks| - 1];
    if ks[|ks| - 1] == key {
      assert key !in ks';
      SumOfAgree(f, g, ks');
    } else {
      assert key in ks';
      SumOfShift(f, g, ks', key, delta);
    }
  }

  /** Adding `d` to one element adds `d` to the sum. */
  lemma {:induction false} SumUpdate(s: seq<int>, j: nat, d: int)
    requires j < |s|
    ensures Sum(s[j := s[j] + d]) == Sum(s) + d
    decreases |s|
  {
    var n := |s| - 1;
    if j < n {
      SumUpdate(s[..n], j, d);
      assert s[j := s[j] + d][..n] == s[..n][j := s[..n][j] + d];
    } else {
      assert s[j := s[j] + d][..n] == s[..n];
    }
  }

  // ---------------------------------------------------------------- first-seen order

  /** De-duplicating a concatenation keeps the de-duplicated first part in front. */
  lemma {:induction false} DistinctPrefix<T(!new)>(a: seq<T>, b: seq<T>)
    ensures |Distinct(a)| <= |Distinct(a + b)| && Distinct(a + b)[..|Distinct(a)|] == Distinct(a)
    decreases |b|
  {
    if |b| == 0 {
      assert a + b == a;
    } else {
      var b' := b[..|b| - 1];
      DistinctPrefix(a, b');
      assert a + b == (a + b') + [b[|b| - 1]];
      DistinctSnoc(a + b', b[|b| - 1]);
    }
  }

  /** A duplicate-free sequence is its own de-duplication. */
  lemma {:induction false} DistinctOfNoDups<T(!new)>(s: seq<T>)
    requires NoDups(s)
    ensures Distinct(s) == s
    decreases |s|
  {
    if |s| > 0 {
      var s' := s[..|s| - 1];
      assert NoDups(s');
      DistinctOfNoDups(s');
      assert s[|s| - 1] !in s';
      assert s == s' + [s[|s| - 1]];
    }
  }

  // ---------------------------------------------------------------- newest first

  /** Descending by `key`. */
  predicate DescendingBy<T>(s: seq<T>, key: T -> int)
  {
    forall i, j :: 0 <= i < j < |s| ==> key(s[i]) >= key(s[j])
  }

  /** Puts `x` after every element of at least its key, so that equal keys keep their order. */
  function InsertDescBy<T>(x: T, sorted: seq<T>, key: T -> int): (r: seq<T>)
    ensures multiset(r) == multiset(sorted) + multiset{x}
    ensures |r| == |sorted| + 1
  {
    if |sorted| == 0 then [x]
    else if key(sorted[0]) >= key(x) then
      assert sorted == [sorted[0]] + sorted[1..];
      [sorted[0]] + InsertDescBy(x, sorted[1..], key)
    else [x] + sorted
  }

  /** `s.sort((a, b) => key(b) - key(a))`: a stable sort, largest key first. */
  function SortDescBy<T>(s: seq<T>, key: T -> int): (r: seq<T>)
    ensures multiset(r) == multiset(s)
    ensures |r| == |s|
  {
    if |s| == 0 then []
    else
      assert s == s[..|s| - 1] + [s[|s| - 1]];
      InsertDescBy(s[|s| - 1], SortDescBy(s[..|s| - 1], key), key)
  }

  predicate AllAtMost<T>(s: seq<T>, key: T -> int, d: int)
  {
    forall i :: 0 <= i < |s| ==> key(s[i]) <= d
  }

  lemma {:induction false} InsertAtMost<T>(x: T, sorted: seq<T>, key: T -> int, d: int)
    requires AllAtMost(sorted, key, d) && key(x) <= d
    ensures AllAtMost(InsertDescBy(x, sorted, key), key, d)
    decreases |sorted|
  {
    if |sorted| > 0 && key(sorted[0]) >= key(x) {
      InsertAtMost(x, sorted[1..], key, d);
    }
  }

  lemma {:induction false} InsertDescending<T>(x: T, sorted: seq<T>, key: T -> int)
    requires DescendingBy(sorted, key)
    ensures DescendingBy(InsertDescBy(x, sorted, key), key)
    decreases |sorted|
  {
    if |sorted| > 0 && key(sorted[0]) >= key(x) {
      var tail := sorted[1..];
      InsertDescending(x, tail, key);
      InsertAtMost(x, tail, key, key(sorted[0]));
      var r := InsertDescBy(x, sorted, key);
      assert r == [sorted[0]] + InsertDescBy(x, tail, key);
    }
  }

  /** The sorted sequence is descending. */
  lemma {:induction false} SortDescending<T>(s: seq<T>, key: T -> int)
    ensures DescendingBy(SortDescBy(s, key), key)
    decreases |s|
  {
    if |s| > 0 {
      SortDescending(s[..|s| - 1], key);
      InsertDescending(s[|s| - 1], SortDescBy(s[..|s| - 1], key), key);
    }
  }

  /** Inserting an element of no larger key than all the rest appends it. */
  lemma {:induction false} InsertSmallest<T>(x: T, sorted: seq<T>, key: T -> int)
    requires forall i :: 0 <= i < |sorted| ==> key(sorted[i]) >= key(x)
    ensures InsertDescBy(x, sorted, key) == sorted + [x]
    decreases |sorted|
  {
    if |sorted| > 0 {
      InsertSmallest(x, sorted[1..], key);
    }
  }

  /** Stability: a sequence already in descending order, ties included, is left as it is. */
  lemma {:induction false} SortedUnchanged<T>(s: seq<T>, key: T -> int)
    requires DescendingBy(s, key)
    ensures SortDescBy(s, key) == s
    decreases |s|
  {
    if |s| > 0 {
      var s', x := s[..|s| - 1], s[|s| - 1];
      assert s == s' + [x];
      assert DescendingBy(s', key) by {
        forall i, j | 0 <= i < j < |s'|
          ensures key(s'[i]) >= key(s'[j])
        {
          assert s'[i] == s[i] && s'[j] == s[j];
        }
      }
      SortedUnchanged(s', key);
      assert forall i :: 0 <= i < |s'| ==> key(s'[i]) >= key(x) by {
        forall i | 0 <= i < |s'|
          ensures key(s'[i]) >= key(x)
        {
          assert s'[i] == s[i];
        }
      }
      InsertSmallest(x, s', key);
      assert SortDescBy(s, key) == InsertDescBy(x, SortDescBy(s', key), key);
    }
  }

  // ---------------------------------------------------------------- filters

  /** `s.filter(p)` */
  function Filter<T(!new)>(s: seq<T>, p: T -> bool): (r: seq<T>)
    ensures |r| <= |s|
    ensures forall x :: x in r <==> x in s && p(x)
  {
    if |s| == 0 then []
    else Filter(s[..|s| - 1], p) + (if p(s[|s| - 1]) then [s[|s| - 1]] else [])
  }

  /** Filtering keeps the order: it distributes over concatenation. */
  lemma {:induction false} FilterConcat<T(!new)>(a: seq<T>, b: seq<T>, p: T -> bool)
    ensures Filter(a + b, p) == Filter(a, p) + Filter(b, p)
    decreases |b|
  {
    if |b| == 0 {
      assert a + b == a;
    } else {
      var b' := b[..|b| - 1];
      assert (a + b)[..|a + b| - 1] == a + b';
      FilterConcat(a, b', p);
    }
  }

  /** A filter every element passes keeps the whole list. */
  lemma {:induction false} FilterAll<T(!new)>(s: seq<T>, p: T -> bool)
    requires forall i :: 0 <= i < |s| ==> p(s[i])
    ensures Filter(s, p) == s
    decreases |s|
  {
    if |s| > 0 {
      FilterAll(s[..|s| - 1], p);
      assert s == s[..|s| - 1] + [s[|s| - 1]];
    }
  }

  /** Two filters that agree on every element keep the same elements. */
  lemma {:induction false} FilterAgree<T(!new)>(s: seq<T>, p: T -> bool, q: T -> bool)
    requires forall i :: 0 <= i < |s| ==> p(s[i]) == q(s[i])
    ensures Filter(s, p) == Filter(s, q)
    decreases |s|
  {
    if |s| > 0 {
      FilterAgree(s[..|s| - 1], p, q);
    }
  }

  // ---------------------------------------------------------------- stability

  /** The elements whose key is `k`, in their order. */
  function WithKey<T>(s: seq<T>, key: T -> int, k: int): seq<T>
  {
    if |s| == 0 then []
    else if key(s[0]) == k then [s[0]] + WithKey(s[1..], key, k)
    else WithKey(s[1..], key, k)
  }

  lemma {:induction false} WithKeyConcat<T>(a: seq<T>, b: seq<T>, key: T -> int, k: int)
    ensures WithKey(a + b, key, k) == WithKey(a, key, k) + WithKey(b, key, k)
    decreases |a|
  {
    if |a| == 0 {
      assert a + b == b;
    } else {
      assert (a + b)[0] == a[0] && (a + b)[1..] == a[1..] + b;
      WithKeyConcat(a[1..], b, key, k);
      if key(a[0]) == k {
        ConcatAssoc([a[0]], WithKey(a[1..], key, k), WithKey(b, key, k));
      }
    }
  }

  /** No element of a descending list whose head has a key below `k` has key `k`. */
  lemma {:induction false} WithKeyBelow<T>(s: seq<T>, key: T -> int, k: int)
    requires DescendingBy(s, key) && |s| > 0 && key(s[0]) < k
    ensures WithKey(s, key, k) == []
    decreases |s|
  {
    if |s| > 1 {
      var t := s[1..];
      assert key(s[0]) >= key(s[1]);
      assert DescendingBy(t, key) by {
        forall i, j | 0 <= i < j < |t|
          ensures key(t[i]) >= key(t[j])
        {
          assert t[i] == s[i + 1] && t[j] == s[j + 1];
        }
      }
      WithKeyBelow(t, key, k);
    }
  }

  /** Inserting `x` into a descending list puts it after every element of its key. */
  lemma {:induction false} InsertWithKey<T>(x: T, sorted: seq<T>, key: T -> int, k: int)
    requires DescendingBy(sorted, key)
    ensures WithKey(InsertDescBy(x, sorted, key), key, k) == WithKey(sorted, key, k) + WithKey([x], key, k)
    decreases |sorted|
  {
    if |sorted| == 0 {
      assert sorted + [x] == [x];
    } else if key(sorted[0]) >= key(x) {
      var tail := sorted[1..];
      assert DescendingBy(tail, key) by {
        forall i, j | 0 <= i < j < |tail|
          ensures key(tail[i]) >= key(tail[j])
        {
          assert tail[i] == sorted[i + 1] && tail[j] == sorted[j + 1];
        }
      }
      InsertWithKey(x, tail, key, k);
      var r := InsertDescBy(x, sorted, key);
      assert r[1..] == InsertDescBy(x, tail, key);
    } else {
      var r := InsertDescBy(x, sorted, key);
      assert r[1..] == sorted;
      if key(x) == k {
        WithKeyBelow(sorted, key, k);
      }
    }
  }

  lemma ConcatAssoc<T>(a: seq<T>, b: seq<T>, c: seq<T>)
    ensures a + (b + c) == (a + b) + c
  {
  }

  /** Stability: the sort keeps the order of the elements of each key. */
  lemma {:induction false} SortStable<T>(s: seq<T>, key: T -> int, k: int)
    ensures WithKey(SortDescBy(s, key), key, k) == WithKey(s, key, k)
    decreases |s|
  {
    if |s| > 0 {
      var s', x := s[..|s| - 1], s[|s| - 1];
      assert s == s' + [x];
      SortStable(s', key, k);
      SortDescending(s', key);
      InsertWithKey(x, SortDescBy(s', key), key, k);
      WithKeyConcat(s', [x], key, k);
    }
  }

  /** A filter no element passes keeps nothing. */
  lemma {:induction false} FilterNone<T(!new)>(s: seq<T>, p: T -> bool)
    requires forall i :: 0 <= i < |s| ==> !p(s[i])
    ensures Filter(s, p) == []
    decreases |s|
  {
    if |s| > 0 {
      FilterNone(s[..|s| - 1], p);
    }
  }

  /** A list without duplicates whose only member is `x` is `[x]`. */
  lemma OnlyMember<T>(s: seq<T>, x: T)
    requires NoDups(s) && forall y :: y in s <==> y == x
    ensures s == [x]
  {
    assert x in s;
    assert s[0] in s;
    forall i | 0 <= i < |s|
      ensures s[i] == s[0] && i == 0
    {
      assert s[i] in s;
    }
    assert s[|s| - 1] == s[0];
  }
}
