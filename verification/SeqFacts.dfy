/** Facts about sequences that several proofs share. */
module SeqFacts {

  ghost predicate Distinct<T>(s: seq<T>) {
    forall i, j :: 0 <= i < j < |s| ==> s[i] != s[j]
  }

  lemma {:induction false} DistinctCount<T>(s: seq<T>, x: T)
    requires Distinct(s)
    ensures multiset(s)[x] == if x in s then 1 else 0
  {
    if s != [] {
      var front, last := s[..|s| - 1], s[|s| - 1];
      assert s == front + [last];
      DistinctCount(front, x);
      assert last !in front;
    }
  }

  /** Repetition-free lists with the same elements are permutations of each other. */
  lemma SameElementsPermute<T>(s: seq<T>, t: seq<T>)
    requires Distinct(s) && Distinct(t)
    requires forall x :: x in s <==> x in t
    ensures multiset(s) == multiset(t)
  {
    forall x ensures multiset(s)[x] == multiset(t)[x] {
      DistinctCount(s, x);
      DistinctCount(t, x);
    }
  }

  lemma RepeatCount<T>(s: seq<T>, i: nat, j: nat)
    requires i < j < |s| && s[i] == s[j]
    ensures multiset(s)[s[i]] >= 2
  {
    assert s == s[..j] + s[j..];
    assert s[..j][i] == s[i] && s[j..][0] == s[j];
    assert s[i] in s[..j] && s[i] in s[j..];
  }

  lemma DropLast<T>(s: seq<T>)
    requires s != []
    ensures multiset(s[..|s| - 1]) == multiset(s) - multiset{s[|s| - 1]}
  {
    assert s == s[..|s| - 1] + [s[|s| - 1]];
  }

  lemma DistinctPermuted<T>(s: seq<T>, t: seq<T>)
    requires Distinct(s) && multiset(s) == multiset(t)
    ensures Distinct(t)
  {
    forall i, j | 0 <= i < j < |t| ensures t[i] != t[j] {
      if t[i] == t[j] {
        RepeatCount(t, i, j);
        DistinctCount(s, t[i]);
      }
    }
  }

  lemma PermutedMembers<T>(s: seq<T>, t: seq<T>)
    requires multiset(s) == multiset(t)
    ensures |s| == |t|
    ensures forall x :: x in s <==> x in t
  {
    assert |multiset(s)| == |s| && |multiset(t)| == |t|;
    forall x ensures x in s <==> x in t {
      assert x in s <==> x in multiset(s);
      assert x in t <==> x in multiset(t);
    }
  }

  /** A set that holds exactly the whole numbers lo..hi-1. */
  lemma {:induction false} IntervalSize(s: set<int>, lo: int, hi: int)
    requires lo <= hi
    requires forall v :: v in s <==> lo <= v < hi
    ensures |s| == hi - lo
    decreases hi - lo
  {
    if lo < hi {
      assert s == (s - {lo}) + {lo};
      IntervalSize(s - {lo}, lo + 1, hi);
    } else {
      assert forall v :: v !in s;
      assert s == {};
    }
  }

  ghost predicate AscendingBy<T>(s: seq<T>, key: T -> int) {
    forall i, j :: 0 <= i < j < |s| ==> key(s[i]) <= key(s[j])
  }

  /** Only one ascending arrangement exists of elements numbered 1, 2, 3, ... */
  lemma {:induction false} AscendingUnique<T>(s: seq<T>, t: seq<T>, key: T -> int)
    requires multiset(s) == multiset(t) && AscendingBy(t, key)
    requires forall i :: 0 <= i < |s| ==> key(s[i]) == i + 1
    ensures s == t
  {
    if s != [] {
      var front, front' := s[..|s| - 1], t[..|t| - 1];
      SameLast(s, t, key);
      assert multiset(front) == multiset(front') by {
        DropLast(s);
        DropLast(t);
      }
      AscendingUnique(front, front', key);
      assert s == front + [s[|s| - 1]] && t == front' + [t[|t| - 1]];
    }
  }

  lemma SameLast<T>(s: seq<T>, t: seq<T>, key: T -> int)
    requires s != [] && multiset(s) == multiset(t) && AscendingBy(t, key)
    requires forall i :: 0 <= i < |s| ==> key(s[i]) == i + 1
    ensures |s| == |t| && s[|s| - 1] == t[|t| - 1]
  {
    PermutedMembers(s, t);
    var last, top := s[|s| - 1], t[|t| - 1];
    assert last in s && top in t;
    var i :| 0 <= i < |t| && t[i] == last;
    var k :| 0 <= k < |s| && s[k] == top;
    assert key(last) <= key(top);
  }

  ghost predicate StrictlyBy<T>(s: seq<T>, key: T -> int) {
    forall i, j :: 0 <= i < j < |s| ==> key(s[i]) < key(s[j])
  }

  /** Elements with different keys have only one ascending arrangement. */
  lemma {:induction false} StrictUnique<T>(s: seq<T>, t: seq<T>, key: T -> int)
    requires multiset(s) == multiset(t) && AscendingBy(s, key) && StrictlyBy(t, key)
    ensures s == t
  {
    PermutedMembers(s, t);
    if s != [] {
      StrictLast(s, t, key);
      var front, front' := s[..|s| - 1], t[..|t| - 1];
      assert multiset(front) == multiset(front') by {
        DropLast(s);
        DropLast(t);
      }
      StrictUnique(front, front', key);
      assert s == front + [s[|s| - 1]] && t == front' + [t[|t| - 1]];
    }
  }

  lemma StrictLast<T>(s: seq<T>, t: seq<T>, key: T -> int)
    requires s != [] && multiset(s) == multiset(t) && AscendingBy(s, key) && StrictlyBy(t, key)
    ensures |s| == |t| && s[|s| - 1] == t[|t| - 1]
  {
    PermutedMembers(s, t);
    var x, y := s[|s| - 1], t[|t| - 1];
    assert x in t && y in s;
    var i :| 0 <= i < |s| && s[i] == y;
    var j :| 0 <= j < |t| && t[j] == x;
    assert key(y) <= key(x);
  }

  /** Taking one element out of a permutation. */
  lemma RemoveAt<T>(s: seq<T>, i: nat)
    requires i < |s|
    ensures multiset(s[..i] + s[i + 1..]) == multiset(s) - multiset{s[i]}
  {
    assert s == s[..i] + [s[i]] + s[i + 1..];
  }

  // ----- First appearances -----

  /** The index of the first element with key k, or the length when there is none. */
  function FirstWith<T, K(==)>(s: seq<T>, key: T -> K, k: K): (r: nat)
    ensures r <= |s|
    ensures r < |s| ==> key(s[r]) == k
  {
    if s == [] then 0
    else
      var r := FirstWith(s[..|s| - 1], key, k);
      if r < |s| - 1 || key(s[|s| - 1]) == k then r else |s|
  }

  lemma {:induction false} FirstWithIsFirst<T, K>(s: seq<T>, key: T -> K, k: K)
    ensures forall i :: 0 <= i < FirstWith(s, key, k) ==> key(s[i]) != k
  {
    if s != [] {
      var front := s[..|s| - 1];
      FirstWithIsFirst(front, key, k);
      forall i | 0 <= i < FirstWith(s, key, k) ensures key(s[i]) != k {
        assert i < |front| ==> front[i] == s[i];
      }
    }
  }

  lemma FirstWithStep<T, K>(s: seq<T>, x: T, key: T -> K, k: K)
    ensures FirstWith(s + [x], key, k) ==
      if FirstWith(s, key, k) < |s| || key(x) == k then FirstWith(s, key, k) else |s| + 1
  {
    assert (s + [x])[..|s|] == s;
  }

  /** An element of the list is met no later than at its own place. */
  lemma FirstWithAt<T, K>(s: seq<T>, key: T -> K, i: nat)
    requires i < |s|
    ensures FirstWith(s, key, key(s[i])) <= i
  {
    FirstWithIsFirst(s, key, key(s[i]));
  }
}
