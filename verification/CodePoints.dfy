/** Sorted forms of sets, and text in code point order. */
module CodePoints {

  // ----- Any total order -----

  ghost predicate TotalOrder<T(!new)>(le: (T, T) -> bool) {
    && (forall a, b :: le(a, b) || le(b, a))
    && (forall a, b :: le(a, b) && le(b, a) ==> a == b)
    && (forall a, b, c :: le(a, b) && le(b, c) ==> le(a, c))
  }

  /** Sorted and free of repeats. */
  ghost predicate Ascending<T>(s: seq<T>, le: (T, T) -> bool) {
    forall i, j :: 0 <= i < j < |s| ==> le(s[i], s[j]) && s[i] != s[j]
  }

  /** The ascending list of a set. */
  ghost predicate Lists<T(!new)>(r: seq<T>, s: set<T>, le: (T, T) -> bool) {
    Ascending(r, le) && forall x :: x in r <==> x in s
  }

  predicate IsLeast<T(==)>(m: T, s: set<T>, le: (T, T) -> bool) {
    m in s && forall x :: x in s ==> le(m, x)
  }

  lemma {:induction false} LeastExists<T(!new)>(s: set<T>, le: (T, T) -> bool) returns (m: T)
    requires TotalOrder(le) && s != {}
    ensures IsLeast(m, s, le)
  {
    var y :| y in s;
    var rest := s - {y};
    assert s == rest + {y};
    m := y;
    if rest != {} {
      var n := LeastExists(rest, le);
      m := if le(n, y) then n else y;
    }
  }

  lemma SomeLeast<T(!new)>(s: set<T>, le: (T, T) -> bool)
    requires TotalOrder(le) && s != {}
    ensures exists m :: m in s && IsLeast(m, s, le)
  {
    var m := LeastExists(s, le);
  }

  /** `sorted(s)` */
  function SortedBy<T(!new,==)>(s: set<T>, le: (T, T) -> bool): (r: seq<T>)
    requires TotalOrder(le)
    ensures Lists(r, s, le)
  {
    if s == {} then []
    else
      SomeLeast(s, le);
      var m :| m in s && IsLeast(m, s, le);
      [m] + SortedBy(s - {m}, le)
  }

  lemma ListsEmpty<T(!new)>(a: seq<T>, s: set<T>, le: (T, T) -> bool)
    requires Lists(a, s, le)
    ensures a == [] <==> s == {}
  {
    assert a != [] ==> a[0] in s;
  }

  lemma ListsTail<T(!new)>(a: seq<T>, s: set<T>, le: (T, T) -> bool)
    requires a != [] && Lists(a, s, le)
    ensures Lists(a[1..], s - {a[0]}, le)
  {
  }

  /** A set has only one ascending list. */
  lemma {:induction false} ListsUnique<T(!new)>(a: seq<T>, b: seq<T>, s: set<T>, le: (T, T) -> bool)
    requires TotalOrder(le) && Lists(a, s, le) && Lists(b, s, le)
    ensures a == b
  {
    ListsEmpty(a, s, le);
    ListsEmpty(b, s, le);
    if a != [] {
      assert a[0] in b && b[0] in a;
      assert le(a[0], b[0]) && le(b[0], a[0]);
      ListsTail(a, s, le);
      ListsTail(b, s, le);
      ListsUnique(a[1..], b[1..], s - {a[0]}, le);
      assert a == [a[0]] + a[1..] && b == [b[0]] + b[1..];
    }
  }

  lemma {:induction false} ListSize<T(!new)>(r: seq<T>, s: set<T>, le: (T, T) -> bool)
    requires Lists(r, s, le)
    ensures |r| == |s|
  {
    ListsEmpty(r, s, le);
    if r != [] {
      ListsTail(r, s, le);
      ListSize(r[1..], s - {r[0]}, le);
      assert r[0] in s;
    }
  }

  // ----- Code point order -----

  /** Lexicographic order, as Python compares strings and tuples of code points. */
  predicate AtMost(a: string, b: string) {
    if a == "" then true
    else if b == "" then false
    else if a[0] != b[0] then a[0] < b[0]
    else AtMost(a[1..], b[1..])
  }

  lemma {:induction false} AtMostAntisymmetric(a: string, b: string)
    requires AtMost(a, b) && AtMost(b, a)
    ensures a == b
  {
    if a != "" {
      AtMostAntisymmetric(a[1..], b[1..]);
      assert a == [a[0]] + a[1..] && b == [b[0]] + b[1..];
    }
  }

  lemma {:induction false} AtMostTransitive(a: string, b: string, c: string)
    requires AtMost(a, b) && AtMost(b, c)
    ensures AtMost(a, c)
  {
    if a != "" && b != "" && c != "" && a[0] == b[0] == c[0] {
      AtMostTransitive(a[1..], b[1..], c[1..]);
    }
  }

  lemma {:induction false} AtMostTotal(a: string, b: string)
    ensures AtMost(a, b) || AtMost(b, a)
  {
    if a != "" && b != "" && a[0] == b[0] {
      AtMostTotal(a[1..], b[1..]);
    }
  }

  lemma CodePointOrder()
    ensures TotalOrder(AtMost)
  {
    forall a, b ensures AtMost(a, b) || AtMost(b, a) {
      AtMostTotal(a, b);
    }
    forall a, b | AtMost(a, b) && AtMost(b, a) ensures a == b {
      AtMostAntisymmetric(a, b);
    }
    forall a, b, c | AtMost(a, b) && AtMost(b, c) ensures AtMost(a, c) {
      AtMostTransitive(a, b, c);
    }
  }

  /** `sorted(set(values))` for texts. */
  function SortedList(s: set<string>): (r: seq<string>)
    ensures Lists(r, s, AtMost)
  {
    CodePointOrder();
    SortedBy(s, AtMost)
  }

  /** The texts agree up to some place, where the first has the smaller code point. */
  ghost predicate SmallerAt(a: string, b: string, i: int) {
    0 <= i < |a| && i < |b| && a[..i] == b[..i] && a[i] < b[i]
  }

  /** One text comes before or with another when it is a prefix of it or has the smaller code point where
      they first differ. */
  lemma {:induction false} AtMostMeaning(a: string, b: string)
    ensures AtMost(a, b) <==> a <= b || exists i :: SmallerAt(a, b, i)
  {
    if a != "" && b != "" && a[0] == b[0] {
      var x, y := a[1..], b[1..];
      assert a == [a[0]] + x && b == [b[0]] + y;
      AtMostMeaning(x, y);
      if i :| SmallerAt(x, y, i) {
        assert a[..i + 1] == [a[0]] + x[..i] && b[..i + 1] == [b[0]] + y[..i];
        assert SmallerAt(a, b, i + 1);
      }
      if i :| SmallerAt(a, b, i) {
        assert a[..i][1..] == x[..i - 1] && b[..i][1..] == y[..i - 1];
        assert SmallerAt(x, y, i - 1);
      }
    } else if a != "" && b != "" {
      assert a[0] < b[0] ==> SmallerAt(a, b, 0);
      forall i | SmallerAt(a, b, i) ensures i > 0 ==> a[0] == b[0] {
        SameStart(a, b, i);
      }
    }
  }

  lemma SameStart(a: string, b: string, i: int)
    requires SmallerAt(a, b, i)
    ensures i > 0 ==> a[0] == b[0]
  {
    assert i > 0 ==> a[..i][0] == a[0] && b[..i][0] == b[0];
  }
}
