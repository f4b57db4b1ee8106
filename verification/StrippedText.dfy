/** Text whose outer spaces do not count. */
module StrippedText {
  import opened Documents

  function StripStart(s: string): string {
    if s != "" && IsPythonSpace(s[0]) then StripStart(s[1..]) else s
  }

  function StripEnd(s: string): string {
    if s != "" && IsPythonSpace(s[|s| - 1]) then StripEnd(s[..|s| - 1]) else s
  }

  /** `s.strip()` */
  function Strip(s: string): string {
    StripEnd(StripStart(s))
  }

  predicate TextFits(s: string, max: nat) {
    Strip(s) != "" && Utf8Length(Strip(s)) <= max
  }

  lemma {:induction false} StripEndShape(s: string)
    ensures var r := StripEnd(s);
      (r != "" ==> s != "" && r[0] == s[0] && !IsPythonSpace(r[|r| - 1])) && StripEnd(r) == r
  {
    if s != "" && IsPythonSpace(s[|s| - 1]) {
      StripEndShape(s[..|s| - 1]);
    }
  }

  lemma {:induction false} StripStartShape(s: string)
    ensures var r := StripStart(s); r != "" ==> !IsPythonSpace(r[0])
  {
    if s != "" && IsPythonSpace(s[0]) {
      StripStartShape(s[1..]);
    }
  }

  /** Stripping twice is stripping once. */
  lemma StripIdempotent(s: string)
    ensures Strip(Strip(s)) == Strip(s)
  {
    StripStartShape(s);
    StripEndShape(StripStart(s));
  }

  /** Stripped text still fits. */
  lemma FitsStripped(s: string, max: nat)
    requires TextFits(s, max)
    ensures TextFits(Strip(s), max) && Strip(Strip(s)) == Strip(s)
  {
    hide Utf8Length;
    StripIdempotent(s);
  }

  lemma {:induction false} StripStartSplits(s: string) returns (before: string)
    ensures s == before + StripStart(s) && AllIn(before, IsPythonSpace)
  {
    before := "";
    if s != "" && IsPythonSpace(s[0]) {
      var rest := StripStartSplits(s[1..]);
      before := [s[0]] + rest;
    }
  }

  lemma {:induction false} StripEndSplits(s: string) returns (after: string)
    ensures s == StripEnd(s) + after && AllIn(after, IsPythonSpace)
  {
    after := "";
    if s != "" && IsPythonSpace(s[|s| - 1]) {
      var rest := StripEndSplits(s[..|s| - 1]);
      after := rest + [s[|s| - 1]];
    }
  }

  /** Only whitespace is taken away, and none is left at the ends. */
  lemma StripMeaning(s: string) returns (before: string, after: string)
    ensures s == before + Strip(s) + after && AllIn(before, IsPythonSpace) && AllIn(after, IsPythonSpace)
    ensures var r := Strip(s); r != "" ==> !IsPythonSpace(r[0]) && !IsPythonSpace(r[|r| - 1])
  {
    before := StripStartSplits(s);
    after := StripEndSplits(StripStart(s));
    StripStartShape(s);
    StripEndShape(StripStart(s));
  }

  /** The whitespace that `str.strip` removes. */
  lemma PythonSpaces(c: char)
    ensures IsPythonSpace(c) <==> c as int in {
      0x9, 0xA, 0xB, 0xC, 0xD, 0x1C, 0x1D, 0x1E, 0x1F, 0x20, 0x85, 0xA0, 0x1680,
      0x2000, 0x2001, 0x2002, 0x2003, 0x2004, 0x2005, 0x2006, 0x2007, 0x2008, 0x2009, 0x200A,
      0x2028, 0x2029, 0x202F, 0x205F, 0x3000}
  {
  }
}
