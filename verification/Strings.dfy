/** Characters, bytes, and searching and scanning strings by index. */
module Strings {

  type byte = n: int | 0 <= n < 256

  predicate IsAsciiSpace(c: char) {
    c == ' ' || '\t' as int <= c as int <= '\r' as int
  }

  /** `sep.join(parts)` */
  function Join(parts: seq<string>, sep: string): string {
    if parts == [] then ""
    else if |parts| == 1 then parts[0]
    else Join(parts[..|parts| - 1], sep) + sep + parts[|parts| - 1]
  }

  /** `s.find(c, i)`: the first index, or -1. */
  function Find(s: string, c: char, i: nat): (r: int)
    requires i <= |s|
    ensures -1 <= r < |s|
    ensures r >= 0 ==> i <= r && s[r] == c
    decreases |s| - i
  {
    if i == |s| then -1 else if s[i] == c then i else Find(s, c, i + 1)
  }

  lemma {:induction false} FindFirst(s: string, c: char, i: nat)
    requires i <= |s|
    ensures var r := Find(s, c, i);
      forall k :: i <= k < (if r >= 0 then r else |s|) ==> s[k] != c
    decreases |s| - i
  {
    if i < |s| && s[i] != c {
      FindFirst(s, c, i + 1);
    }
  }

  /** The end of the longest run from index i on whose characters satisfy p. */
  function Span(s: string, i: nat, p: char -> bool): (j: nat)
    requires i <= |s|
    ensures i <= j <= |s|
    ensures j < |s| ==> !p(s[j])
    decreases |s| - i
  {
    if i < |s| && p(s[i]) then Span(s, i + 1, p) else i
  }

  lemma {:induction false} FindExact(s: string, c: char, i: nat, j: nat)
    requires i <= j < |s| && s[j] == c && forall k :: i <= k < j ==> s[k] != c
    ensures Find(s, c, i) == j
    decreases j - i
  {
    if i < j {
      FindExact(s, c, i + 1, j);
    }
  }

  lemma {:induction false} SpanExact(s: string, i: nat, j: nat, p: char -> bool)
    requires i <= j <= |s| && (forall k :: i <= k < j ==> p(s[k])) && (j < |s| ==> !p(s[j]))
    ensures Span(s, i, p) == j
    decreases j - i
  {
    if i < j {
      SpanExact(s, i + 1, j, p);
    }
  }

  /** The inner loops of the scanners: `while i < n and p(s[i]): i += 1`. */
  method Skip(s: string, i: nat, p: char -> bool) returns (j: nat)
    requires i <= |s|
    ensures j == Span(s, i, p)
  {
    j := i;
    while j < |s| && p(s[j])
      invariant i <= j <= |s| && Span(s, j, p) == Span(s, i, p)
    {
      j := j + 1;
    }
  }

  predicate OccursAt(s: string, sub: string, i: int) {
    0 <= i && i + |sub| <= |s| && s[i..i + |sub|] == sub
  }

  /** `sub in s` */
  predicate Contains(s: string, sub: string) {
    exists i :: 0 <= i <= |s| && OccursAt(s, sub, i)
  }

  lemma Cancel<T>(x: seq<T>, a: seq<T>, y: seq<T>, b: seq<T>)
    requires x + a == y + b && |x| == |y|
    ensures x == y && a == b
  {
    assert x == (x + a)[..|x|] && y == (y + b)[..|y|];
    assert a == (x + a)[|x|..] && b == (y + b)[|y|..];
  }

  /** Splitting at the last occurrence of a character. */
  lemma LastMark(x: string, a: string, y: string, b: string, c: char)
    requires x + [c] + a == y + [c] + b && c !in a && c !in b
    ensures x == y && a == b
  {
    NoLaterMark(x, a, c);
    NoLaterMark(y, b, c);
    Cancel(x, [c] + a, y, [c] + b);
    Cancel([c], a, [c], b);
  }

  lemma NoLaterMark(x: string, a: string, c: char)
    requires c !in a
    ensures (x + [c] + a)[|x|] == c && forall k :: |x| < k < |x + [c] + a| ==> (x + [c] + a)[k] != c
    ensures x + [c] + a == x + ([c] + a)
  {
    forall k | |x| < k < |x + [c] + a| ensures (x + [c] + a)[k] != c {
      assert (x + [c] + a)[k] == a[k - |x| - 1];
    }
  }
}
