/** The stable sorts the program delegates to its runtime (Array.prototype.sort with a
    comparator `(a, b) => key(b) - key(a)`, Python's `list.sort(key=..., reverse=True)`),
    JavaScript's `slice(0, n)`, and the `reduce((acc, v) => acc + f(v), 0)` sums. */
module Sorting {

  /** Non-increasing in `key`. */
  predicate SortedDesc<T>(s: seq<T>, key: T -> int) {
    forall i, j :: 0 <= i < j < |s| ==> key(s[i]) >= key(s[j])
  }

  /** The elements of `s` whose key is `k`, in their order in `s`. Two sequences with the same
      KeyFilter for every k list equal-keyed elements in the same relative order. */
  function KeyFilter<T>(s: seq<T>, key: T -> int, k: int): seq<T>
  {
    if |s| == 0 then [] else (if key(s[0]) == k then [s[0]] else []) + KeyFilter(s[1..], key, k)
  }

  lemma {:induction false} KeyFilterMembers<T>(s: seq<T>, key: T -> int, k: int)
    ensures forall y :: y in KeyFilter(s, key, k) ==> y in s && key(y) == k
  {
    if |s| > 0 {
      KeyFilterMembers(s[1..], key, k);
    }
  }

  /** `x` goes in front of the first element whose key is not greater than its own. */
  function Insert<T>(x: T, s: seq<T>, key: T -> int): seq<T>
  {
    if |s| == 0 || key(s[0]) <= key(x) then [x] + s
    else [s[0]] + Insert(x, s[1..], key)
  }

  lemma {:induction false} InsertPermutes<T>(x: T, s: seq<T>, key: T -> int)
    ensures multiset(Insert(x, s, key)) == multiset(s) + multiset{x}
    ensures |Insert(x, s, key)| == |s| + 1
  {
    if |s| > 0 && key(s[0]) > key(x) {
      InsertPermutes(x, s[1..], key);
      assert s == [s[0]] + s[1..];
    }
  }

  lemma {:induction false} InsertSorted<T>(x: T, s: seq<T>, key: T -> int)
    requires SortedDesc(s, key)
    ensures SortedDesc(Insert(x, s, key), key)
  {
    if |s| > 0 && key(s[0]) > key(x) {
      var t := Insert(x, s[1..], key);
      InsertSorted(x, s[1..], key);
      InsertPermutes(x, s[1..], key);
      forall j | 0 <= j < |t| ensures key(s[0]) >= key(t[j]) {
        assert t[j] in multiset(s[1..]) + multiset{x};
      }
    }
  }

  lemma {:induction false} InsertStable<T>(x: T, s: seq<T>, key: T -> int, k: int)
    ensures KeyFilter(Insert(x, s, key), key, k) == (if key(x) == k then [x] else []) + KeyFilter(s, key, k)
  {
    if |s| == 0 || key(s[0]) <= key(x) {
      var r := [x] + s;
      assert r[0] == x && r[1..] == s;
    } else {
      var t := Insert(x, s[1..], key);
      InsertStable(x, s[1..], key, k);
      var r := [s[0]] + t;
      assert r[0] == s[0] && r[1..] == t;
      assert KeyFilter(r, key, k) == (if key(s[0]) == k then [s[0]] else []) + KeyFilter(t, key, k);
      assert KeyFilter(s, key, k) == (if key(s[0]) == k then [s[0]] else []) + KeyFilter(s[1..], key, k);
    }
  }

  /** A stable sort into non-increasing key order: each element is inserted into the sorted
      rest before the first element whose key is not greater. */
  function SortDesc<T>(s: seq<T>, key: T -> int): (r: seq<T>)
    ensures |r| == |s|
  {
    if |s| == 0 then [] else
      InsertPermutes(s[0], SortDesc(s[1..], key), key);
      Insert(s[0], SortDesc(s[1..], key), key)
  }

  /** SortDesc sorts: the result is a permutation of s in non-increasing key order, and the
      elements of each key keep their order in s. */
  lemma {:induction false} SortDescSpec<T>(s: seq<T>, key: T -> int)
    ensures multiset(SortDesc(s, key)) == multiset(s)
    ensures SortedDesc(SortDesc(s, key), key)
    ensures forall k :: KeyFilter(SortDesc(s, key), key, k) == KeyFilter(s, key, k)
  {
    if |s| > 0 {
      var t := SortDesc(s[1..], key);
      SortDescSpec(s[1..], key);
      assert s == [s[0]] + s[1..];
      InsertPermutes(s[0], t, key);
      InsertSorted(s[0], t, key);
      forall k ensures KeyFilter(Insert(s[0], t, key), key, k) == KeyFilter(s, key, k) {
        InsertStable(s[0], t, key, k);
      }
    }
  }

  lemma {:induction false} KeyFilterHead<T>(s: seq<T>, key: T -> int)
    requires |s| > 0
    ensures KeyFilter(s, key, key(s[0])) == [s[0]] + KeyFilter(s[1..], key, key(s[0]))
    ensures forall k :: k != key(s[0]) ==> KeyFilter(s, key, k) == KeyFilter(s[1..], key, k)
  {
  }

  /** Sortedness and stability determine the result: two non-increasing sequences that list
      the elements of every key in the same order are equal. */
  lemma {:induction false} SortedUnique<T>(a: seq<T>, b: seq<T>, key: T -> int)
    requires SortedDesc(a, key) && SortedDesc(b, key)
    requires forall k :: KeyFilter(a, key, k) == KeyFilter(b, key, k)
    ensures a == b
    decreases |a|
  {
    if |a| == 0 && |b| == 0 {
    } else if |a| == 0 {
      KeyFilterHead(b, key);
    } else if |b| == 0 {
      KeyFilterHead(a, key);
    } else {
      var ka, kb := key(a[0]), key(b[0]);
      KeyFilterHead(a, key);
      KeyFilterHead(b, key);
      KeyFilterMembers(a, key, kb);
      KeyFilterMembers(b, key, ka);
      assert a[0] in KeyFilter(b, key, ka);
      assert b[0] in KeyFilter(a, key, kb);
      assert ka == kb;
      assert KeyFilter(a, key, ka)[0] == a[0];
      assert KeyFilter(b, key, ka)[0] == b[0];
      forall k ensures KeyFilter(a[1..], key, k) == KeyFilter(b[1..], key, k) {
        if k == ka {
          assert KeyFilter(a, key, k)[1..] == KeyFilter(a[1..], key, k);
          assert KeyFilter(b, key, k)[1..] == KeyFilter(b[1..], key, k);
        }
      }
      SortedUnique(a[1..], b[1..], key);
      assert a == [a[0]] + a[1..];
      assert b == [b[0]] + b[1..];
    }
  }

  /** Any stable sort into non-increasing key order produces SortDesc's result, so SortDesc
      stands for every stable library sort. */
  lemma StableSortIsSortDesc<T>(s: seq<T>, r: seq<T>, key: T -> int)
    requires SortedDesc(r, key)
    requires forall k :: KeyFilter(r, key, k) == KeyFilter(s, key, k)
    ensures r == SortDesc(s, key)
  {
    SortDescSpec(s, key);
    SortedUnique(r, SortDesc(s, key), key);
  }

  /** `s.map(f)`. */
  function Map<T, U>(s: seq<T>, f: T -> U): (r: seq<U>)
    ensures |r| == |s|
  {
    if |s| == 0 then [] else [f(s[0])] + Map(s[1..], f)
  }

  /** Each element of the map is f of the element at the same place. */
  lemma {:induction false} MapAt<T, U>(s: seq<T>, f: T -> U, i: nat)
    requires i < |s|
    ensures Map(s, f)[i] == f(s[i])
  {
    if i > 0 {
      MapAt(s[1..], f, i - 1);
    }
  }

  /** A sequence that agrees with f on each element of s is its map. */
  lemma MapElementwise<T, U>(s: seq<T>, f: T -> U, t: seq<U>)
    requires |t| == |s| && forall i :: 0 <= i < |s| ==> t[i] == f(s[i])
    ensures Map(s, f) == t
  {
    forall i | 0 <= i < |s| ensures Map(s, f)[i] == t[i] {
      MapAt(s, f, i);
    }
  }

  /** Mapping a concatenation maps each part. */
  lemma {:induction false} MapAppend<T, U>(a: seq<T>, b: seq<T>, f: T -> U)
    ensures Map(a + b, f) == Map(a, f) + Map(b, f)
  {
    if |a| == 0 {
      assert a + b == b;
    } else {
      assert (a + b)[1..] == a[1..] + b;
      MapAppend(a[1..], b, f);
    }
  }

  lemma {:induction false} KeyFilterMap<T, U>(s: seq<T>, f: T -> U, key: U -> int, key0: T -> int, k: int)
    requires forall x :: key(f(x)) == key0(x)
    ensures KeyFilter(Map(s, f), key, k) == Map(KeyFilter(s, key0, k), f)
  {
    if |s| > 0 {
      KeyFilterMap(s[1..], f, key, key0, k);
      MapAppend([s[0]], s[1..], f);
      assert [s[0]] + s[1..] == s;
      assert Map([s[0]], f) == [f(s[0])];
      var m := Map(s, f);
      assert m == [f(s[0])] + Map(s[1..], f);
      assert m[1..] == Map(s[1..], f) && m[0] == f(s[0]);
      var rest := KeyFilter(s[1..], key0, k);
      if key0(s[0]) == k {
        MapAppend([s[0]], rest, f);
        assert KeyFilter(s, key0, k) == [s[0]] + rest;
      } else {
        assert KeyFilter(s, key0, k) == rest;
      }
    }
  }

  /** Sorting commutes with a map that keeps every key. */
  lemma SortDescMap<T, U>(s: seq<T>, f: T -> U, key: U -> int, key0: T -> int)
    requires forall x :: key(f(x)) == key0(x)
    ensures SortDesc(Map(s, f), key) == Map(SortDesc(s, key0), f)
  {
    var t := SortDesc(s, key0);
    SortDescSpec(s, key0);
    var r := Map(t, f);
    forall i | 0 <= i < |t| ensures r[i] == f(t[i]) {
      MapAt(t, f, i);
    }
    assert SortedDesc(r, key);
    forall k ensures KeyFilter(r, key, k) == KeyFilter(Map(s, f), key, k) {
      KeyFilterMap(t, f, key, key0, k);
      KeyFilterMap(s, f, key, key0, k);
    }
    StableSortIsSortDesc(Map(s, f), r, key);
  }

  function Min(a: int, b: int): int { if a <= b then a else b }

  /** JavaScript's `s.slice(0, n)` (and Python's `s[:n]`) for a non-negative n. */
  function Take<T>(s: seq<T>, n: nat): (r: seq<T>)
    ensures |r| == Min(n, |s|)
    ensures r == s[..|r|]
  {
    if n <= |s| then s[..n] else s
  }

  /** Taking the first n of a stable descending sort picks a top-n: the chosen elements come
      from s, in non-increasing order, and every element left out ranks no higher than any
      chosen one. */
  lemma TopN<T>(s: seq<T>, key: T -> int, n: nat)
    ensures var r := Take(SortDesc(s, key), n);
      && |r| == Min(n, |s|)
      && SortedDesc(r, key)
      && multiset(r) <= multiset(s)
      && forall x, c :: x in multiset(s) - multiset(r) && c in r ==> key(x) <= key(c)
  {
    var t := SortDesc(s, key);
    assert multiset(t) == multiset(s) && SortedDesc(t, key) by {
      SortDescSpec(s, key);
    }
    PrefixRanks(t, |Take(t, n)|, key);
  }

  /** A prefix of a non-increasing sequence is a sub-multiset of it, and every element after the
      prefix ranks no higher than any element in it. */
  lemma PrefixRanks<T>(t: seq<T>, m: nat, key: T -> int)
    requires SortedDesc(t, key) && m <= |t|
    ensures multiset(t[..m]) <= multiset(t)
    ensures forall x, c :: x in multiset(t) - multiset(t[..m]) && c in t[..m] ==> key(x) <= key(c)
  {
    var r, rest := t[..m], t[m..];
    assert multiset(t) - multiset(r) == multiset(rest) by {
      assert t == r + rest;
      assert multiset(t) == multiset(r) + multiset(rest);
    }
    forall x, c | x in multiset(t) - multiset(r) && c in r ensures key(x) <= key(c) {
      assert x in rest;
      RanksBelow(t, m, x, c, key);
    }
  }

  lemma RanksBelow<T>(t: seq<T>, m: nat, x: T, c: T, key: T -> int)
    requires SortedDesc(t, key) && m <= |t|
    requires x in t[m..] && c in t[..m]
    ensures key(x) <= key(c)
  {
    var i :| m <= i < |t| && t[i] == x;
    var j :| 0 <= j < m && t[j] == c;
  }

  /** `s.reduce((acc, v) => acc + f(v), 0)`, summed left to right. */
  function Sum<T>(s: seq<T>, f: T -> int): int
  {
    if |s| == 0 then 0 else Sum(s[..|s| - 1], f) + f(s[|s| - 1])
  }

  lemma {:induction false} SumAppend<T>(a: seq<T>, b: seq<T>, f: T -> int)
    ensures Sum(a + b, f) == Sum(a, f) + Sum(b, f)
    decreases |b|
  {
    if |b| > 0 {
      assert (a + b)[..|a + b| - 1] == a + b[..|b| - 1];
      SumAppend(a, b[..|b| - 1], f);
    } else {
      assert a + b == a;
    }
  }

  /** A sum does not depend on the order of the summands. */
  lemma {:induction false} SumPermutation<T>(a: seq<T>, b: seq<T>, f: T -> int)
    requires multiset(a) == multiset(b)
    ensures Sum(a, f) == Sum(b, f)
    decreases |a|
  {
    if |a| > 0 {
      var x := a[|a| - 1];
      assert a == a[..|a| - 1] + [x];
      assert x in multiset(b);
      var i :| 0 <= i < |b| && b[i] == x;
      assert b == b[..i] + [x] + b[i + 1..];
      var b' := b[..i] + b[i + 1..];
      assert multiset(a) == multiset(a[..|a| - 1]) + multiset{x};
      assert multiset(b) == multiset(b[..i]) + multiset{x} + multiset(b[i + 1..]);
      assert multiset(b') == multiset(b[..i]) + multiset(b[i + 1..]);
      assert multiset(b') == multiset(b) - multiset{x};
      assert multiset(a[..|a| - 1]) == multiset(a) - multiset{x};
      SumPermutation(a[..|a| - 1], b', f);
      SumAppend(b[..i], [x], f);
      SumAppend(b[..i] + [x], b[i + 1..], f);
      SumAppend(b[..i], b[i + 1..], f);
      assert Sum([x], f) == f(x) by { assert [x][..0] == []; }
    } else {
      assert b == [];
    }
  }

  /** Sums of two measures that agree on every element are equal. */
  lemma {:induction false} SumCongruent<T>(s: seq<T>, f: T -> int, g: T -> int)
    requires forall i :: 0 <= i < |s| ==> f(s[i]) == g(s[i])
    ensures Sum(s, f) == Sum(s, g)
  {
    if |s| > 0 {
      SumCongruent(s[..|s| - 1], f, g);
    }
  }

  /** The position of the first element with key k, or |s| when there is none. */
  function FirstKey<T>(s: seq<T>, key: T -> int, k: int): (i: nat)
    ensures i <= |s| && (i < |s| ==> key(s[i]) == k)
    ensures forall j :: 0 <= j < i ==> key(s[j]) != k
  {
    if |s| == 0 then 0 else if key(s[0]) == k then 0 else 1 + FirstKey(s[1..], key, k)
  }

  /** The elements of key k start with the first element of key k. */
  lemma {:induction false} KeyFilterAt<T>(s: seq<T>, key: T -> int, k: int, i: nat)
    requires i < |s| && key(s[i]) == k
    requires forall j :: 0 <= j < i ==> key(s[j]) != k
    ensures |KeyFilter(s, key, k)| > 0 && KeyFilter(s, key, k)[0] == s[i]
  {
    if i > 0 {
      KeyFilterAt(s[1..], key, k, i - 1);
    }
  }

  /** The head of a stable descending sort is an element of s with the greatest key. */
  lemma SortDescHeadMax<T>(s: seq<T>, key: T -> int)
    requires |s| > 0
    ensures SortDesc(s, key)[0] in s
    ensures forall w :: w in s ==> key(w) <= key(SortDesc(s, key)[0])
  {
    var r := SortDesc(s, key);
    SortDescSpec(s, key);
    assert r[0] in multiset(s);
    forall w | w in s ensures key(w) <= key(r[0]) {
      assert w in multiset(r);
      var m :| 0 <= m < |r| && r[m] == w;
    }
  }

  /** ... and, among those, the first: every element before it has a smaller key. */
  lemma SortDescHead<T>(s: seq<T>, key: T -> int)
    requires |s| > 0
    ensures var t := SortDesc(s, key)[0];
      exists i :: 0 <= i < |s| && s[i] == t && forall j :: 0 <= j < i ==> key(s[j]) < key(t)
  {
    var r := SortDesc(s, key);
    var t := r[0];
    SortDescHeadMax(s, key);
    SortDescSpec(s, key);
    var k := key(t);
    var i := FirstKey(s, key, k);
    assert i < |s| by {
      var m :| 0 <= m < |s| && s[m] == t;
      assert key(s[m]) == k;
    }
    assert s[i] == t by {
      KeyFilterAt(s, key, k, i);
      KeyFilterAt(r, key, k, 0);
    }
    forall j | 0 <= j < i ensures key(s[j]) < k {
      assert s[j] in s;
    }
  }
}
