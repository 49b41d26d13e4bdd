/** Ordering by a two-part key, used wherever the engine sorts candidates
  * with std::sort: objects by squared distance, sounds and lights by
  * priority then distance, grass clusters by depth. std::sort does not fix
  * the order of equal keys; this model fixes one order for them and proves nothing about it. */
module Sorting {

  /** A sort key compared lexicographically: `major` first, then `minor`. */
  datatype Key = Key(major: int, minor: real)

  datatype Keyed<T> = Keyed(key: Key, item: T)

  predicate KeyLe(a: Key, b: Key) {
    a.major < b.major || (a.major == b.major && a.minor <= b.minor)
  }

  predicate Sorted<T>(s: seq<Keyed<T>>) {
    forall i, j :: 0 <= i < j < |s| ==> KeyLe(s[i].key, s[j].key)
  }

  /** Every key of `s` is at least `k`. */
  predicate AllAbove<T>(k: Key, s: seq<Keyed<T>>) {
    forall i :: 0 <= i < |s| ==> KeyLe(k, s[i].key)
  }

  function Items<T>(s: seq<Keyed<T>>): (r: seq<T>)
    ensures |r| == |s|
    ensures forall i :: 0 <= i < |s| ==> r[i] == s[i].item
  {
    if s == [] then [] else [s[0].item] + Items(s[1..])
  }

  /** Reordering keyed elements reorders their items the same way. */
  lemma {:induction false} ItemsPermutation<T>(a: seq<Keyed<T>>, b: seq<Keyed<T>>)
    requires multiset(a) == multiset(b)
    ensures multiset(Items(a)) == multiset(Items(b))
    decreases |a|
  {
    if a == [] {
      assert |multiset(b)| == 0;
    } else {
      var x := a[0];
      assert x in multiset(b);
      var j :| 0 <= j < |b| && b[j] == x;
      var rest := b[..j] + b[j + 1..];
      RemoveAt(b, j);
      assert a == [x] + a[1..];
      assert multiset(a) == multiset(a[1..]) + multiset{x};
      MultisetCancel(multiset(a[1..]), multiset(rest), x);
      ItemsPermutation(a[1..], rest);
      ItemsRemoveAt(b, j);
    }
  }

  lemma RemoveAt<T>(b: seq<T>, j: nat)
    requires j < |b|
    ensures multiset(b) == multiset(b[..j] + b[j + 1..]) + multiset{b[j]}
  {
    assert b == b[..j] + [b[j]] + b[j + 1..];
  }

  lemma ItemsRemoveAt<T>(b: seq<Keyed<T>>, j: nat)
    requires j < |b|
    ensures multiset(Items(b)) == multiset(Items(b[..j] + b[j + 1..])) + multiset{b[j].item}
  {
    var r := Items(b);
    var rest := b[..j] + b[j + 1..];
    var ir := Items(rest);
    var cut := r[..j] + r[j + 1..];
    assert |ir| == |cut|;
    forall k | 0 <= k < |ir|
      ensures ir[k] == cut[k]
    {
      if k < j {
        assert rest[k] == b[k];
      } else {
        assert rest[k] == b[k + 1];
      }
    }
    assert ir == cut;
    RemoveAt(r, j);
    assert r[j] == b[j].item;
  }

  lemma MultisetCancel<T>(x: multiset<T>, y: multiset<T>, e: T)
    requires x + multiset{e} == y + multiset{e}
    ensures x == y
  {
    assert x == (x + multiset{e}) - multiset{e};
    assert y == (y + multiset{e}) - multiset{e};
  }

  /** Inserts `x` before the first element with a strictly greater key. */
  function Insert<T>(x: Keyed<T>, s: seq<Keyed<T>>): (r: seq<Keyed<T>>)
    requires Sorted(s)
    ensures Sorted(r)
    ensures |r| == |s| + 1
    ensures multiset(r) == multiset(s) + multiset{x}
    ensures forall k: Key :: KeyLe(k, x.key) && AllAbove(k, s) ==> AllAbove(k, r)
  {
    if s == [] then [x]
    else if KeyLe(s[0].key, x.key) then
      var t := Insert(x, s[1..]);
      assert s == [s[0]] + s[1..];
      assert AllAbove(s[0].key, t) by {
        SortedTail(s);
      }
      ConsSorted(s[0], t);
      ConsAbove(s[0], t);
      forall k: Key | AllAbove(k, s) ensures AllAbove(k, s[1..]) && KeyLe(k, s[0].key) {
      }
      assert multiset([s[0]] + t) == multiset{s[0]} + multiset(s[1..]) + multiset{x};
      [s[0]] + t
    else
      assert AllAbove(x.key, s) by {
        forall i | 0 <= i < |s| ensures KeyLe(x.key, s[i].key) {
          assert KeyLe(s[0].key, s[i].key);
        }
      }
      ConsSorted(x, s);
      ConsAbove(x, s);
      [x] + s
  }

  /** The head of a sorted sequence is below every later key. */
  lemma SortedTail<T>(s: seq<Keyed<T>>)
    requires s != [] && Sorted(s)
    ensures Sorted(s[1..]) && AllAbove(s[0].key, s[1..])
  {
  }

  /** A key below every key of a sorted sequence can head it. */
  lemma ConsSorted<T>(h: Keyed<T>, t: seq<Keyed<T>>)
    requires Sorted(t) && AllAbove(h.key, t)
    ensures Sorted([h] + t)
  {
    var r := [h] + t;
    forall i, j | 0 <= i < j < |r| ensures KeyLe(r[i].key, r[j].key) {
      if i > 0 {
        assert r[i] == t[i - 1] && r[j] == t[j - 1];
      } else {
        assert r[j] == t[j - 1];
      }
    }
  }

  /** A lower bound of the head and of the tail bounds the whole. */
  lemma ConsAbove<T>(h: Keyed<T>, t: seq<Keyed<T>>)
    ensures forall k: Key :: KeyLe(k, h.key) && AllAbove(k, t) ==> AllAbove(k, [h] + t)
  {
    forall k: Key | KeyLe(k, h.key) && AllAbove(k, t) ensures AllAbove(k, [h] + t) {
      var r := [h] + t;
      forall i | 0 <= i < |r| ensures KeyLe(k, r[i].key) {
        if i > 0 {
          assert r[i] == t[i - 1];
        }
      }
    }
  }

  /** Insertion sort: the result is ordered by key and is a
    * permutation of the input. */
  function SortByKey<T>(s: seq<Keyed<T>>): (r: seq<Keyed<T>>)
    ensures Sorted(r)
    ensures |r| == |s|
    ensures multiset(r) == multiset(s)
  {
    if s == [] then []
    else
      assert s == [s[0]] + s[1..];
      Insert(s[0], SortByKey(s[1..]))
  }

  predicate KeyLt(a: Key, b: Key) {
    !KeyLe(b, a)
  }

  /** How many elements of `s` have a key strictly below `k`. */
  function CountBelow<T>(s: seq<Keyed<T>>, k: Key): (n: nat)
    ensures n <= |s|
  {
    if s == [] then 0 else (if KeyLt(s[0].key, k) then 1 else 0) + CountBelow(s[1..], k)
  }

  /** How many elements of `s` have a key at most `k`. */
  function CountUpTo<T>(s: seq<Keyed<T>>, k: Key): (n: nat)
    ensures n <= |s|
  {
    if s == [] then 0 else (if KeyLe(s[0].key, k) then 1 else 0) + CountUpTo(s[1..], k)
  }

  lemma {:induction false} CountsOfInsert<T>(x: Keyed<T>, s: seq<Keyed<T>>, k: Key)
    requires Sorted(s)
    ensures CountBelow(Insert(x, s), k) == CountBelow(s, k) + (if KeyLt(x.key, k) then 1 else 0)
    ensures CountUpTo(Insert(x, s), k) == CountUpTo(s, k) + (if KeyLe(x.key, k) then 1 else 0)
  {
    if s != [] && KeyLe(s[0].key, x.key) {
      CountsOfInsert(x, s[1..], k);
      var r := Insert(x, s);
      assert r[1..] == Insert(x, s[1..]);
    } else {
      var r := Insert(x, s);
      assert r[1..] == s;
    }
  }

  /** Sorting keeps the counts of elements below or up to any key. */
  lemma {:induction false} CountsOfSort<T>(s: seq<Keyed<T>>, k: Key)
    ensures CountBelow(SortByKey(s), k) == CountBelow(s, k)
    ensures CountUpTo(SortByKey(s), k) == CountUpTo(s, k)
  {
    if s != [] {
      CountsOfSort(s[1..], k);
      CountsOfInsert(s[0], SortByKey(s[1..]), k);
    }
  }

  /** In a sorted sequence the element at index `n` has at most `n`
    * elements strictly below it and more than `n` elements up to it. */
  lemma {:induction false} RankInSorted<T>(s: seq<Keyed<T>>, n: nat)
    requires Sorted(s) && n < |s|
    ensures CountBelow(s, s[n].key) <= n
    ensures CountUpTo(s, s[n].key) > n
  {
    if n == 0 {
      BelowFirstIsNone(s);
    } else {
      assert Sorted(s[1..]) by {
        forall i, j | 0 <= i < j < |s[1..]| ensures KeyLe(s[1..][i].key, s[1..][j].key) {
          assert s[1..][i] == s[i + 1] && s[1..][j] == s[j + 1];
        }
      }
      RankInSorted(s[1..], n - 1);
      assert s[1..][n - 1] == s[n];
      assert KeyLe(s[0].key, s[n].key);
    }
  }

  lemma BelowFirstIsNone<T>(s: seq<Keyed<T>>)
    requires Sorted(s) && s != []
    ensures CountBelow(s, s[0].key) == 0
    ensures CountUpTo(s, s[0].key) >= 1
  {
    NoneBelow(s, s[0].key);
  }

  lemma {:induction false} NoneBelow<T>(s: seq<Keyed<T>>, k: Key)
    requires forall i :: 0 <= i < |s| ==> KeyLe(k, s[i].key)
    ensures CountBelow(s, k) == 0
  {
    if s != [] {
      NoneBelow(s[1..], k);
    }
  }

  /** The element a sorted permutation holds at index `n` is an `n`-th
    * smallest element of the input: at most `n` input elements are strictly
    * below it and more than `n` are up to it. */
  lemma SortRank<T>(s: seq<Keyed<T>>, n: nat)
    requires n < |s|
    ensures SortByKey(s)[n] in s
    ensures CountBelow(s, SortByKey(s)[n].key) <= n < CountUpTo(s, SortByKey(s)[n].key)
  {
    var r := SortByKey(s);
    assert r[n] in multiset(r);
    RankInSorted(r, n);
    CountsOfSort(s, r[n].key);
  }

  /** Every element of the sorted sequence comes from the input. */
  lemma SortMember<T>(s: seq<Keyed<T>>, i: nat)
    requires i < |s|
    ensures SortByKey(s)[i] in s
  {
    assert SortByKey(s)[i] in multiset(SortByKey(s));
  }

  /** Every element of the input appears in the sorted sequence. */
  lemma SortContains<T>(s: seq<Keyed<T>>, x: Keyed<T>)
    requires x in s
    ensures x in SortByKey(s)
  {
    assert x in multiset(s);
  }
  /** The first `n` elements of `s`, or all of them when there are fewer. */
  function Truncate<T>(s: seq<T>, n: nat): (r: seq<T>)
    ensures |r| == if |s| < n then |s| else n
    ensures forall i :: 0 <= i < |r| ==> r[i] == s[i]
  {
    if |s| > n then s[..n] else s
  }

  /** The last `n` elements of `s`, or all of them when there are fewer. */
  function KeepLast<T>(s: seq<T>, n: nat): (r: seq<T>)
    ensures |r| == if |s| < n then |s| else n
    ensures forall i :: 0 <= i < |r| ==> r[i] == s[|s| - |r| + i]
  {
    if |s| > n then s[|s| - n..] else s
  }

  /** An element cut off when the sorted sequence is truncated to `n` ranks
    * no better than any element kept, and the cut happened only because
    * `n` elements were kept. */
  lemma TruncateKeepsBest<T>(c: seq<Keyed<T>>, n: nat, x: Keyed<T>)
    requires x in c && x !in Truncate(SortByKey(c), n)
    ensures |Truncate(SortByKey(c), n)| == n
    ensures forall y :: y in Truncate(SortByKey(c), n) ==> KeyLe(y.key, x.key)
  {
    var sorted := SortByKey(c);
    SortContains(c, x);
    var j :| 0 <= j < |sorted| && sorted[j] == x;
    var kept := Truncate(sorted, n);
    assert j >= n;
    forall y | y in kept ensures KeyLe(y.key, x.key) {
      var i :| 0 <= i < |kept| && kept[i] == y;
      assert sorted[i] == y;
    }
  }

  /** An element cut off when only the last `n` elements of the sorted
    * sequence are kept ranks no worse than any element kept. */
  lemma KeepLastKeepsWorst<T>(c: seq<Keyed<T>>, n: nat, x: Keyed<T>)
    requires x in c && x !in KeepLast(SortByKey(c), n)
    ensures |KeepLast(SortByKey(c), n)| == n
    ensures forall y :: y in KeepLast(SortByKey(c), n) ==> KeyLe(x.key, y.key)
  {
    SortContains(c, x);
    SortedKeepLast(SortByKey(c), n, x);
  }

  lemma SortedKeepLast<T>(sorted: seq<Keyed<T>>, n: nat, x: Keyed<T>)
    requires Sorted(sorted) && x in sorted && x !in KeepLast(sorted, n)
    ensures |KeepLast(sorted, n)| == n
    ensures forall y :: y in KeepLast(sorted, n) ==> KeyLe(x.key, y.key)
  {
    var j :| 0 <= j < |sorted| && sorted[j] == x;
    var kept := KeepLast(sorted, n);
    var start := |sorted| - |kept|;
    forall y | y in kept ensures KeyLe(x.key, y.key) {
      var i :| 0 <= i < |kept| && kept[i] == y;
      assert sorted[start + i] == y;
    }
  }
  /** Inserting adds exactly the inserted item to the items. */
  lemma {:induction false} ItemsOfInsert<T>(x: Keyed<T>, s: seq<Keyed<T>>)
    requires Sorted(s)
    ensures multiset(Items(Insert(x, s))) == multiset(Items(s)) + multiset{x.item}
  {
    if s != [] && KeyLe(s[0].key, x.key) {
      ItemsOfInsert(x, s[1..]);
      assert Sorted(s[1..]) by {
        forall i, j | 0 <= i < j < |s[1..]| ensures KeyLe(s[1..][i].key, s[1..][j].key) {
          assert s[1..][i] == s[i + 1] && s[1..][j] == s[j + 1];
        }
      }
      var t := Insert(x, s[1..]);
      assert Insert(x, s) == [s[0]] + t;
      assert Items([s[0]] + t) == [s[0].item] + Items(t);
      assert Items(s) == [s[0].item] + Items(s[1..]);
    } else {
      assert Insert(x, s) == [x] + s;
      assert Items([x] + s) == [x.item] + Items(s);
    }
  }

  /** Sorting permutes the items. */
  lemma {:induction false} ItemsOfSort<T>(s: seq<Keyed<T>>)
    ensures multiset(Items(SortByKey(s))) == multiset(Items(s))
  {
    if s != [] {
      ItemsOfSort(s[1..]);
      ItemsOfInsert(s[0], SortByKey(s[1..]));
      assert Items(s) == [s[0].item] + Items(s[1..]);
    }
  }
}
