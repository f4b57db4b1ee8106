/** `sorted(s, key=...)` where the key is text in code point order. */
module StableSort {
  import opened CodePoints

  ghost predicate InOrder<T>(s: seq<T>, key: T -> string) {
    forall i, j :: 0 <= i < j < |s| ==> AtMost(key(s[i]), key(s[j]))
  }

  /** The items with a given key, in order. */
  function WithKey<T>(s: seq<T>, key: T -> string, k: string): seq<T> {
    if s == [] then []
    else
      var front, last := WithKey(s[..|s| - 1], key, k), s[|s| - 1];
      if key(last) == k then front + [last] else front
  }

  /** After every item whose key is at most that of x. */
  function Insert<T>(s: seq<T>, x: T, key: T -> string): seq<T> {
    if s == [] || AtMost(key(s[|s| - 1]), key(x)) then s + [x]
    else Insert(s[..|s| - 1], x, key) + [s[|s| - 1]]
  }

  function Sort<T>(s: seq<T>, key: T -> string): seq<T> {
    if s == [] then [] else Insert(Sort(s[..|s| - 1], key), s[|s| - 1], key)
  }

  lemma WithKeyAppend<T>(s: seq<T>, x: T, key: T -> string, k: string)
    ensures WithKey(s + [x], key, k) == WithKey(s, key, k) + if key(x) == k then [x] else []
  {
    assert (s + [x])[..|s|] == s;
  }

  lemma {:induction false} InsertMembers<T>(s: seq<T>, x: T, key: T -> string)
    ensures multiset(Insert(s, x, key)) == multiset(s) + multiset{x}
    ensures |Insert(s, x, key)| == |s| + 1
  {
    if s != [] && !AtMost(key(s[|s| - 1]), key(x)) {
      InsertMembers(s[..|s| - 1], x, key);
      assert s == s[..|s| - 1] + [s[|s| - 1]];
    }
  }

  lemma InOrderAppend<T>(s: seq<T>, x: T, key: T -> string)
    requires InOrder(s, key) && forall y :: y in s ==> AtMost(key(y), key(x))
    ensures InOrder(s + [x], key)
  {
  }

  lemma {:induction false} InsertInOrder<T>(s: seq<T>, x: T, key: T -> string)
    requires InOrder(s, key)
    ensures InOrder(Insert(s, x, key), key)
  {
    CodePointOrder();
    hide AtMost;
    if s == [] {
    } else {
      var front, last := s[..|s| - 1], s[|s| - 1];
      if AtMost(key(last), key(x)) {
        forall y | y in s ensures AtMost(key(y), key(x)) {
          var i :| 0 <= i < |s| && s[i] == y;
          assert AtMost(key(s[i]), key(last));
        }
        InOrderAppend(s, x, key);
      } else {
        InsertInOrder(front, x, key);
        InsertMembers(front, x, key);
        forall y | y in Insert(front, x, key) ensures AtMost(key(y), key(last)) {
          assert y in multiset(Insert(front, x, key));
          if y != x {
            assert y in multiset(front);
            var i :| 0 <= i < |front| && front[i] == y;
            assert AtMost(key(s[i]), key(last));
          }
        }
        InOrderAppend(Insert(front, x, key), last, key);
      }
    }
  }

  lemma {:induction false} InsertWithKey<T>(s: seq<T>, x: T, key: T -> string, k: string)
    ensures WithKey(Insert(s, x, key), key, k) == WithKey(s, key, k) + if key(x) == k then [x] else []
  {
    hide AtMost;
    if s == [] || AtMost(key(s[|s| - 1]), key(x)) {
      WithKeyAppend(s, x, key, k);
    } else {
      var front, last := s[..|s| - 1], s[|s| - 1];
      InsertWithKey(front, x, key, k);
      WithKeyAppend(Insert(front, x, key), last, key, k);
      ApartFromLast(key(last), key(x));
    }
  }

  lemma ApartFromLast(a: string, b: string)
    requires !AtMost(a, b)
    ensures a != b
  {
    AtMostTotal(a, b);
  }

  /** The result is in order, has the same items, and keeps the order of items with equal keys. */
  lemma {:induction false} SortIsStable<T>(s: seq<T>, key: T -> string, k: string)
    ensures InOrder(Sort(s, key), key) && multiset(Sort(s, key)) == multiset(s) && |Sort(s, key)| == |s|
    ensures WithKey(Sort(s, key), key, k) == WithKey(s, key, k)
  {
    hide AtMost, InOrder, Insert;
    if s == [] {
      EmptyInOrder(key);
    } else {
      var front, last := s[..|s| - 1], s[|s| - 1];
      assert s == front + [last];
      SortIsStable(front, key, k);
      InsertInOrder(Sort(front, key), last, key);
      InsertMembers(Sort(front, key), last, key);
      InsertWithKey(Sort(front, key), last, key, k);
      WithKeyAppend(front, last, key, k);
    }
  }

  lemma EmptyInOrder<T>(key: T -> string)
    ensures InOrder([], key)
  {
  }

  ghost predicate SameByKey<T>(a: seq<T>, b: seq<T>, key: T -> string) {
    forall k :: WithKey(a, key, k) == WithKey(b, key, k)
  }

  lemma {:induction false} WithKeyMembers<T>(s: seq<T>, key: T -> string, k: string, x: T)
    ensures x in WithKey(s, key, k) <==> x in s && key(x) == k
  {
    if s != [] {
      assert s == s[..|s| - 1] + [s[|s| - 1]];
      WithKeyMembers(s[..|s| - 1], key, k, x);
    }
  }

  lemma LastKeyAtMost<T>(a: seq<T>, b: seq<T>, key: T -> string)
    requires a != [] && InOrder(b, key) && SameByKey(a, b, key)
    ensures b != [] && AtMost(key(a[|a| - 1]), key(b[|b| - 1]))
  {
    hide AtMost;
    var x := a[|a| - 1];
    assert WithKey(a, key, key(x)) == WithKey(b, key, key(x));
    WithKeyMembers(a, key, key(x), x);
    WithKeyMembers(b, key, key(x), x);
    var i :| 0 <= i < |b| && b[i] == x;
    CodePointOrder();
  }

  /** Two lists in order that agree key by key are equal. */
  lemma {:induction false} StableUnique<T>(a: seq<T>, b: seq<T>, key: T -> string)
    requires InOrder(a, key) && InOrder(b, key) && SameByKey(a, b, key)
    ensures a == b
  {
    hide AtMost;
    if a != [] {
      LastKeyAtMost(a, b, key);
    }
    if b != [] {
      LastKeyAtMost(b, a, key);
    }
    if a != [] && b != [] {
      var fa, fb, x, y := a[..|a| - 1], b[..|b| - 1], a[|a| - 1], b[|b| - 1];
      CodePointOrder();
      assert key(x) == key(y);
      LastsEqual(a, b, key);
      forall k ensures WithKey(fa, key, k) == WithKey(fb, key, k) {
        FrontsAgree(a, b, key, k);
      }
      StableUnique(fa, fb, key);
      assert a == fa + [x] && b == fb + [y];
    }
  }

  lemma LastsEqual<T>(a: seq<T>, b: seq<T>, key: T -> string)
    requires a != [] && b != [] && key(a[|a| - 1]) == key(b[|b| - 1]) && SameByKey(a, b, key)
    ensures a[|a| - 1] == b[|b| - 1]
  {
    var k := key(a[|a| - 1]);
    assert WithKey(a, key, k) == WithKey(b, key, k);
    assert WithKey(a, key, k)[|WithKey(a, key, k)| - 1] == a[|a| - 1];
    assert WithKey(b, key, k)[|WithKey(b, key, k)| - 1] == b[|b| - 1];
  }

  lemma FrontsAgree<T>(a: seq<T>, b: seq<T>, key: T -> string, k: string)
    requires a != [] && b != [] && a[|a| - 1] == b[|b| - 1] && SameByKey(a, b, key)
    ensures WithKey(a[..|a| - 1], key, k) == WithKey(b[..|b| - 1], key, k)
  {
    var fa, fb, x := a[..|a| - 1], b[..|b| - 1], a[|a| - 1];
    assert a == fa + [x] && b == fb + [x];
    WithKeyAppend(fa, x, key, k);
    WithKeyAppend(fb, x, key, k);
    assert WithKey(a, key, k) == WithKey(b, key, k);
    if key(x) == k {
      assert WithKey(fa, key, k) == WithKey(a, key, k)[..|WithKey(a, key, k)| - 1];
      assert WithKey(fb, key, k) == WithKey(b, key, k)[..|WithKey(b, key, k)| - 1];
    }
  }

  /** A list in order is the result of sorting exactly the lists that agree with it key by key. */
  lemma SortsTo<T>(s: seq<T>, r: seq<T>, key: T -> string)
    requires InOrder(r, key)
    ensures Sort(s, key) == r <==> SameByKey(s, r, key)
  {
    hide InOrder, Sort;
    forall k ensures InOrder(Sort(s, key), key) && WithKey(Sort(s, key), key, k) == WithKey(s, key, k) {
      SortIsStable(s, key, k);
    }
    SortIsStable(s, key, "");
    if SameByKey(s, r, key) {
      StableUnique(Sort(s, key), r, key);
    }
  }

  lemma SameByKeySize<T>(a: seq<T>, b: seq<T>, key: T -> string)
    requires SameByKey(a, b, key)
    ensures |a| == |b|
  {
    hide InOrder, Sort;
    SortIsStable(a, key, "");
    SortIsStable(b, key, "");
    forall k ensures WithKey(a, key, k) == WithKey(Sort(b, key), key, k) {
      SortIsStable(b, key, k);
    }
    SortsTo(a, Sort(b, key), key);
  }

  lemma {:induction false} WithKeySingle<T>(s: seq<T>, key: T -> string, k: string)
    requires forall i, j :: 0 <= i < j < |s| ==> key(s[i]) != key(s[j])
    ensures |WithKey(s, key, k)| <= 1
  {
    if s != [] {
      var front, last := s[..|s| - 1], s[|s| - 1];
      WithKeySingle(front, key, k);
      if WithKey(front, key, k) != [] && key(last) == k {
        WithKeyMembers(front, key, k, WithKey(front, key, k)[0]);
      }
    }
  }

  ghost predicate Pairwise<T>(s: seq<T>, rel: (T, T) -> bool) {
    forall i, j :: 0 <= i < j < |s| ==> rel(s[i], s[j])
  }

  ghost predicate PairwiseWith<T>(s: seq<T>, key: T -> string, k: string, rel: (T, T) -> bool) {
    forall i, j :: 0 <= i < j < |s| && key(s[i]) == k && key(s[j]) == k ==> rel(s[i], s[j])
  }

  ghost predicate AllBefore<T>(s: seq<T>, x: T, rel: (T, T) -> bool) {
    forall y :: y in s ==> rel(y, x)
  }

  ghost predicate AllWithBefore<T>(s: seq<T>, x: T, key: T -> string, k: string, rel: (T, T) -> bool) {
    forall y :: y in s && key(y) == k ==> rel(y, x)
  }

  /** The items with a key keep the order they have in the list. */
  lemma {:induction false} WithKeyPairs<T>(s: seq<T>, key: T -> string, k: string, rel: (T, T) -> bool)
    ensures Pairwise(WithKey(s, key, k), rel) <==> PairwiseWith(s, key, k, rel)
  {
    if s != [] {
      hide Pairwise, PairwiseWith, AllBefore, AllWithBefore;
      var front, last := s[..|s| - 1], s[|s| - 1];
      WithKeyPairs(front, key, k, rel);
      PairwiseWithLast(front, last, key, k, rel);
      PairwiseLast(WithKey(front, key, k), last, rel);
      WithKeyBefore(front, last, key, k, rel);
      assert s == front + [last];
    } else {
      assert WithKey(s, key, k) == [];
    }
  }

  lemma WithKeyBefore<T>(s: seq<T>, x: T, key: T -> string, k: string, rel: (T, T) -> bool)
    ensures AllBefore(WithKey(s, key, k), x, rel) <==> AllWithBefore(s, x, key, k, rel)
  {
    hide WithKey;
    forall y | y in WithKey(s, key, k) ensures y in s && key(y) == k {
      WithKeyMembers(s, key, k, y);
    }
    forall y | y in s && key(y) == k ensures y in WithKey(s, key, k) {
      WithKeyMembers(s, key, k, y);
    }
  }

  lemma PairwiseLast<T>(s: seq<T>, x: T, rel: (T, T) -> bool)
    ensures Pairwise(s + [x], rel) <==> Pairwise(s, rel) && AllBefore(s, x, rel)
  {
    var t := s + [x];
    if Pairwise(t, rel) {
      forall i, j | 0 <= i < j < |s| ensures rel(s[i], s[j]) {
        assert rel(t[i], t[j]);
      }
      forall y | y in s ensures rel(y, x) {
        var i :| 0 <= i < |s| && s[i] == y;
        assert rel(t[i], t[|s|]);
      }
    }
  }

  lemma PairwiseWithLast<T>(s: seq<T>, x: T, key: T -> string, k: string, rel: (T, T) -> bool)
    ensures PairwiseWith(s + [x], key, k, rel) <==>
      PairwiseWith(s, key, k, rel) && (key(x) == k ==> AllWithBefore(s, x, key, k, rel))
  {
    var t := s + [x];
    if PairwiseWith(t, key, k, rel) {
      forall i, j | 0 <= i < j < |s| && key(s[i]) == k && key(s[j]) == k ensures rel(s[i], s[j]) {
        assert t[i] == s[i] && t[j] == s[j];
      }
      forall y | key(x) == k && y in s && key(y) == k ensures rel(y, x) {
        var i :| 0 <= i < |s| && s[i] == y;
        assert t[i] == y && t[|s|] == x;
      }
    }
  }

  lemma {:induction false} WithKeyCount<T>(s: seq<T>, key: T -> string, k: string, x: T)
    ensures multiset(WithKey(s, key, k))[x] == if key(x) == k then multiset(s)[x] else 0
  {
    if s != [] {
      assert s == s[..|s| - 1] + [s[|s| - 1]];
      WithKeyCount(s[..|s| - 1], key, k, x);
    }
  }

  lemma WithKeyPermuted<T(!new)>(s: seq<T>, t: seq<T>, key: T -> string, k: string)
    requires multiset(s) == multiset(t)
    ensures multiset(WithKey(s, key, k)) == multiset(WithKey(t, key, k))
  {
    var a, b := multiset(WithKey(s, key, k)), multiset(WithKey(t, key, k));
    forall x ensures a[x] == b[x] {
      WithKeyCount(s, key, k, x);
      WithKeyCount(t, key, k, x);
    }
    assert a == b;
  }
}
