/** The canonical scan view: invisible characters, confusables, comments, hidden elements and
    whitespace, in that order. */
module TextViews {
  import opened Wrappers
  import opened Strings
  import opened HiddenHtml

  // ----- Characters -----

  predicate IsInvisible(c: char) {
    var n := c as int;
    || n == 0x00AD || 0x0600 <= n <= 0x0605 || n == 0x061C || n == 0x06DD || n == 0x070F
    || 0x0890 <= n <= 0x0891 || n == 0x08E2 || n == 0x180E || 0x200B <= n <= 0x200F
    || 0x202A <= n <= 0x202E || 0x2060 <= n <= 0x2064 || 0x2066 <= n <= 0x206F || n == 0xFEFF
    || 0xFFF9 <= n <= 0xFFFB || n == 0x110BD || n == 0x110CD || 0x13430 <= n <= 0x1343F
    || 0x1BCA0 <= n <= 0x1BCA3 || 0x1D173 <= n <= 0x1D17A || n == 0xE0001 || 0xE0020 <= n <= 0xE007F
  }

  /** The curated lookalikes, by the ASCII letter they are folded to. */
  function Confusable(n: int): (folded: Option<char>)
    ensures folded.Some? ==> 'A' <= folded.value <= 'z' && 0x0261 <= n <= 0x0501
  {
    // lower case: Cyrillic, then Greek
    if n == 0x0430 || n == 0x03B1 then Some('a')
    else if n == 0x0435 || n == 0x03B5 then Some('e')
    else if n == 0x043E || n == 0x03BF then Some('o')
    else if n == 0x0440 || n == 0x03C1 then Some('p')
    else if n == 0x0441 then Some('c')
    else if n == 0x0443 then Some('y')
    else if n == 0x0445 then Some('x')
    else if n == 0x0456 || n == 0x03B9 then Some('i')
    else if n == 0x0458 then Some('j')
    else if n == 0x0455 then Some('s')
    else if n == 0x04BB then Some('h')
    else if n == 0x0261 then Some('g')
    else if n == 0x0501 then Some('d')
    else if n == 0x043C then Some('m')
    else if n == 0x043D || n == 0x03B7 then Some('n')
    else if n == 0x0442 || n == 0x03C4 then Some('t')
    else if n == 0x0432 then Some('b')
    else if n == 0x043A || n == 0x03BA then Some('k')
    else if n == 0x03BD then Some('v')
    else if n == 0x03C5 then Some('u')
    // upper case: Cyrillic, then Greek
    else if n == 0x0410 || n == 0x0391 then Some('A')
    else if n == 0x0415 || n == 0x0395 then Some('E')
    else if n == 0x041E || n == 0x039F then Some('O')
    else if n == 0x0420 || n == 0x03A1 then Some('P')
    else if n == 0x0421 then Some('C')
    else if n == 0x0422 || n == 0x03A4 then Some('T')
    else if n == 0x0423 then Some('Y')
    else if n == 0x0425 || n == 0x03A7 then Some('X')
    else if n == 0x0406 || n == 0x0399 then Some('I')
    else if n == 0x0408 then Some('J')
    else if n == 0x0412 || n == 0x0392 then Some('B')
    else if n == 0x041D || n == 0x0397 then Some('H')
    else if n == 0x041A || n == 0x039A then Some('K')
    else if n == 0x041C || n == 0x039C then Some('M')
    else if n == 0x041F || n == 0x039D then Some('N')
    else if n == 0x0396 then Some('Z')
    else None
  }

  predicate IsFullWidth(c: char) {
    0xFF01 <= c as int <= 0xFF5E
  }

  predicate IsFoldable(c: char) {
    IsFullWidth(c) || Confusable(c as int).Some?
  }

  function FoldChar(c: char): char {
    if IsFullWidth(c) then (c as int - 0xFEE0) as char else GetOr(Confusable(c as int), c)
  }

  /** Folding reaches a character that is neither foldable nor newly invisible. */
  lemma FoldedOnce(c: char)
    ensures !IsFoldable(FoldChar(c))
    ensures !IsInvisible(c) ==> !IsInvisible(FoldChar(c))
  {
    assert IsFoldable(c) ==> FoldChar(c) as int < 0x80;
  }

  // ----- Invisible characters and confusables -----

  function WithoutInvisible(text: string): string {
    if text == "" then ""
    else
      var last := text[|text| - 1];
      WithoutInvisible(text[..|text| - 1]) + if IsInvisible(last) then "" else [last]
  }

  /** `strip_invisible` */
  method StripInvisible(text: string) returns (r: string)
    ensures r == WithoutInvisible(text)
    ensures forall c :: c in r ==> !IsInvisible(c) && c in text
  {
    var out := "";
    var changed := false;
    for i := 0 to |text|
      invariant out == WithoutInvisible(text[..i])
      invariant forall c :: c in out ==> !IsInvisible(c) && c in text
      invariant !changed ==> out == text[..i]
    {
      assert text[..i + 1][..i] == text[..i];
      if IsInvisible(text[i]) {
        changed := true;
        assert out + "" == out;
        continue;
      }
      out := out + [text[i]];
    }
    assert text[..|text|] == text;
    r := if changed then out else text;
  }

  function Folded(text: string): string {
    seq(|text|, i requires 0 <= i < |text| => FoldChar(text[i]))
  }

  /** `fold_confusables` */
  method FoldConfusables(text: string) returns (r: string)
    ensures r == Folded(text)
  {
    var out := "";
    var changed := false;
    for i := 0 to |text|
      invariant |out| == i && forall j :: 0 <= j < i ==> out[j] == FoldChar(text[j])
      invariant !changed ==> out == text[..i]
    {
      var c := text[i];
      if IsFullWidth(c) {
        out := out + [(c as int - 0xFEE0) as char];
        changed := true;
      } else {
        var folded := Confusable(c as int);
        if folded.Some? {
          out := out + [folded.value];
          changed := true;
        } else {
          out := out + [c];
        }
      }
    }
    r := if changed then out else text;
  }

  // ----- Comments -----

  const OPEN := "<!--"
  const CLOSE := "-->"

  /** `s.find(sub)`, from index i on. */
  function FindText(s: string, sub: string, i: nat): (r: int)
    requires i <= |s|
    ensures r == -1 || (i <= r && r + |sub| <= |s| && OccursAt(s, sub, r))
    decreases |s| - i
  {
    if OccursAt(s, sub, i) then i else if i == |s| then -1 else FindText(s, sub, i + 1)
  }

  lemma {:induction false} FindTextFirst(s: string, sub: string, i: nat)
    requires i <= |s|
    ensures var r := FindText(s, sub, i);
      forall k :: i <= k <= (if r >= 0 then r - 1 else |s|) ==> !OccursAt(s, sub, k)
    decreases |s| - i
  {
    if !OccursAt(s, sub, i) && i < |s| {
      FindTextFirst(s, sub, i + 1);
    }
  }

  /** Each comment becomes a space; an unterminated one takes the rest of the text with it. */
  function WithoutComments(text: string): string
    decreases |text|
  {
    var start := FindText(text, OPEN, 0);
    if start == -1 then text
    else
      var after := text[start + 4..];
      var end := FindText(after, CLOSE, 0);
      text[..start] + " " + if end == -1 then "" else WithoutComments(after[end + 3..])
  }

  /** One comment at a time. */
  lemma CommentsStep(text: string)
    ensures var start := FindText(text, OPEN, 0);
      if start == -1 then WithoutComments(text) == text
      else
        var after := text[start + 4..];
        var end := FindText(after, CLOSE, 0);
        WithoutComments(text) == text[..start] + " " + if end == -1 then "" else WithoutComments(after[end + 3..])
  {
    hide OccursAt, FindText;
  }

  lemma ContainsOpener(text: string)
    ensures !Contains(text, OPEN) ==> FindText(text, OPEN, 0) == -1
  {
  }

  /** `strip_html_comments` */
  method StripHtmlComments(text: string) returns (r: string)
    ensures r == WithoutComments(text)
  {
    hide OccursAt, Contains, WithoutComments, FindText;
    ContainsOpener(text);
    if !Contains(text, OPEN) {
      CommentsStep(text);
      return text;
    }
    var out := "";
    var rest := text;
    while true
      invariant out + WithoutComments(rest) == WithoutComments(text)
      decreases |rest|
    {
      CommentsStep(rest);
      var start := FindText(rest, OPEN, 0);
      if start == -1 {
        return out + rest;
      }
      var afterOpen := rest[start + 4..];
      var end := FindText(afterOpen, CLOSE, 0);
      if end == -1 {
        CommentAssoc(out, rest[..start], "");
        return out + rest[..start] + " ";
      }
      CommentAssoc(out, rest[..start], WithoutComments(afterOpen[end + 3..]));
      out := out + rest[..start] + " ";
      rest := afterOpen[end + 3..];
    }
  }

  lemma CommentAssoc(out: string, before: string, after: string)
    ensures out + (before + " " + after) == (out + before + " ") + after
    ensures out + (before + " " + "") == out + before + " "
  {
  }

  /** No opener can reach across the space that replaces a comment. */
  lemma SpaceSeparates(a: string, b: string, i: int)
    ensures OccursAt(a + " " + b, OPEN, i) ==> OccursAt(a, OPEN, i) || OccursAt(b, OPEN, i - |a| - 1)
  {
    var s := a + " " + b;
    assert s[|a|] == ' ';
    if OccursAt(s, OPEN, i) {
      assert forall k :: 0 <= k < 4 ==> s[i + k] == OPEN[k] != ' ';
      if i + 4 <= |a| {
        assert s[i..i + 4] == a[i..i + 4];
      } else {
        assert |a| < i;
        assert s[i..i + 4] == b[i - |a| - 1..i - |a| + 3];
      }
    }
  }

  lemma PrefixOccurs(text: string, n: nat, sub: string, i: int)
    requires n <= |text|
    ensures OccursAt(text[..n], sub, i) <==> OccursAt(text, sub, i) && i + |sub| <= n
  {
    if 0 <= i && i + |sub| <= n {
      assert text[..n][i..i + |sub|] == text[i..i + |sub|];
    }
  }

  ghost predicate NoOpener(s: string) {
    forall i :: !OccursAt(s, OPEN, i)
  }

  lemma NoOpenerAcross(text: string, start: nat, tail: string)
    requires start <= |text|
    requires forall k :: 0 <= k <= start - 1 ==> !OccursAt(text, OPEN, k)
    requires NoOpener(tail)
    ensures NoOpener(text[..start] + " " + tail)
  {
    hide OccursAt;
    forall i ensures !OccursAt(text[..start] + " " + tail, OPEN, i) {
      PrefixOccurs(text, start, OPEN, i);
      SpaceSeparates(text[..start], tail, i);
      NeverBefore(text, i);
    }
  }

  lemma NeverBefore(text: string, i: int)
    ensures OccursAt(text, OPEN, i) ==> i >= 0
  {
  }

  /** Nothing is found exactly when the text has no opener. */
  lemma NoneFound(s: string)
    ensures FindText(s, OPEN, 0) == -1 <==> NoOpener(s)
  {
    FindTextFirst(s, OPEN, 0);
    forall i ensures OccursAt(s, OPEN, i) ==> 0 <= i <= |s| {
    }
  }

  lemma {:induction false} CommentsGone(text: string)
    ensures NoOpener(WithoutComments(text))
    decreases |text|
  {
    hide NoOpener, OccursAt;
    FindTextFirst(text, OPEN, 0);
    var start := FindText(text, OPEN, 0);
    if start == -1 {
      NoneFound(text);
    } else {
      var after := text[start + 4..];
      var end := FindText(after, CLOSE, 0);
      var tail := if end == -1 then "" else WithoutComments(after[end + 3..]);
      if end == -1 {
        NothingOpens();
      } else {
        CommentsGone(after[end + 3..]);
      }
      NoOpenerAcross(text, start, tail);
    }
  }

  lemma NothingOpens()
    ensures NoOpener("")
  {
  }

  lemma {:induction false} CommentsShrink(text: string)
    ensures |WithoutComments(text)| <= |text|
    ensures forall c :: c in WithoutComments(text) ==> c in text || c == ' '
    decreases |text|
  {
    hide OccursAt, WithoutComments, FindText;
    CommentsStep(text);
    var start := FindText(text, OPEN, 0);
    if start != -1 {
      var after := text[start + 4..];
      var end := FindText(after, CLOSE, 0);
      var tail := if end == -1 then "" else WithoutComments(after[end + 3..]);
      if end != -1 {
        CommentsShrink(after[end + 3..]);
        SliceMembers(text, start + 4);
        SliceMembers(after, end + 3);
      }
      SpacedMembers(text, start, tail);
    }
  }

  lemma SliceMembers(s: string, n: nat)
    requires n <= |s|
    ensures forall c :: c in s[n..] ==> c in s
  {
  }

  lemma SpacedMembers(text: string, start: nat, tail: string)
    requires start <= |text| && forall c :: c in tail ==> c in text || c == ' '
    ensures forall c :: c in text[..start] + " " + tail ==> c in text || c == ' '
  {
  }

  /** The result holds no comment opener and is no longer than the text; so stripping again
      changes nothing. */
  lemma CommentsStripped(text: string)
    ensures var r := WithoutComments(text);
      && NoOpener(r)
      && |r| <= |text|
      && (forall c :: c in r ==> c in text || c == ' ')
    ensures WithoutComments(WithoutComments(text)) == WithoutComments(text)
  {
    hide NoOpener, FindText;
    CommentsGone(text);
    CommentsShrink(text);
    NoneFound(WithoutComments(text));
  }

  // ----- Whitespace -----

  predicate IsSpace(c: char) {
    var n := c as int;
    || 0x09 <= n <= 0x0D || n == 0x20 || n == 0x85 || n == 0xA0 || n == 0x1680 || 0x2000 <= n <= 0x200A
    || n == 0x2028 || n == 0x2029 || n == 0x202F || n == 0x205F || n == 0x3000
  }

  predicate EndsInSpace(s: string) {
    s != "" && IsSpace(s[|s| - 1])
  }

  /** Every run of whitespace becomes one space. */
  function OneSpace(s: string): string {
    if s == "" then ""
    else
      var front, last := OneSpace(s[..|s| - 1]), s[|s| - 1];
      if !IsSpace(last) then front + [last]
      else if EndsInSpace(s[..|s| - 1]) then front
      else front + " "
  }

  function TrimStart(s: string): string {
    if s != "" && IsSpace(s[0]) then TrimStart(s[1..]) else s
  }

  function TrimEnd(s: string): string {
    if EndsInSpace(s) then TrimEnd(s[..|s| - 1]) else s
  }

  /** `collapse_whitespace` */
  function CollapseWhitespace(s: string): string {
    TrimEnd(TrimStart(OneSpace(s)))
  }

  /** The maximal runs of other characters. */
  function Words(s: string): (w: seq<string>)
    ensures s != "" && !IsSpace(s[|s| - 1]) ==> w != []
  {
    if s == "" then []
    else
      var front, last := s[..|s| - 1], s[|s| - 1];
      if IsSpace(last) then Words(front)
      else if front == "" || EndsInSpace(front) then Words(front) + [[last]]
      else Words(front)[|Words(front)| - 1 := Words(front)[|Words(front)| - 1] + [last]]
  }

  /** Whitespace is only ever one space between two other characters. */
  ghost predicate SingleSpaced(s: string) {
    && (forall i :: 0 <= i < |s| && IsSpace(s[i]) ==> s[i] == ' ')
    && (forall i, j :: 0 <= i < |s| && j == i + 1 < |s| && IsSpace(s[i]) ==> !IsSpace(s[j]))
  }

  ghost predicate Neat(s: string) {
    SingleSpaced(s) && !EndsInSpace(s) && (s != "" ==> !IsSpace(s[0]))
  }

  lemma SpaceIsSpace()
    ensures IsSpace(' ')
  {
  }

  lemma {:induction false} OneSpaceSpacing(s: string)
    ensures SingleSpaced(OneSpace(s)) && (EndsInSpace(OneSpace(s)) <==> EndsInSpace(s))
  {
    hide IsSpace, SingleSpaced;
    if s == "" {
      NothingSpaced();
    } else {
      var front, last := s[..|s| - 1], s[|s| - 1];
      OneSpaceSpacing(front);
      if !IsSpace(last) {
        AppendPlain(OneSpace(front), last);
      } else if !EndsInSpace(front) {
        AppendSpace(OneSpace(front));
      }
    }
  }

  lemma NothingSpaced()
    ensures SingleSpaced("")
  {
  }

  lemma AppendPlain(r: string, last: char)
    requires SingleSpaced(r) && !IsSpace(last)
    ensures SingleSpaced(r + [last]) && !EndsInSpace(r + [last])
  {
    hide IsSpace;
  }

  lemma AppendSpace(r: string)
    requires SingleSpaced(r) && !EndsInSpace(r)
    ensures SingleSpaced(r + " ") && EndsInSpace(r + " ")
  {
    SpaceIsSpace();
    hide IsSpace;
  }

  /** What one more character does to the words of a text. */
  lemma WordsStep(front: string, last: char)
    ensures IsSpace(last) ==> Words(front + [last]) == Words(front)
    ensures !IsSpace(last) ==>
      if front == "" || EndsInSpace(front) then Words(front + [last]) == Words(front) + [[last]]
      else Words(front) != [] && Words(front + [last]) == ExtendLast(Words(front), last)
  {
    hide IsSpace;
    assert (front + [last])[..|front|] == front;
  }

  function ExtendLast(words: seq<string>, c: char): seq<string>
    requires words != []
  {
    words[|words| - 1 := words[|words| - 1] + [c]]
  }

  lemma OneSpaceStep(front: string, last: char)
    ensures OneSpace(front + [last]) ==
      if !IsSpace(last) then OneSpace(front) + [last]
      else if EndsInSpace(front) then OneSpace(front)
      else OneSpace(front) + [' ']
  {
    hide IsSpace;
    assert (front + [last])[..|front|] == front;
  }

  lemma OneSpaceEmpty(s: string)
    ensures OneSpace(s) == "" <==> s == ""
  {
    OneSpaceSpacing(s);
    if s != "" && !EndsInSpace(s) {
      assert OneSpace(s) == OneSpace(s[..|s| - 1]) + [s[|s| - 1]];
    }
  }

  lemma {:induction false} OneSpaceWords(s: string)
    ensures Words(OneSpace(s)) == Words(s)
  {
    if s == "" {
    } else {
      var front, last := s[..|s| - 1], s[|s| - 1];
      assert s == front + [last];
      OneSpaceWords(front);
      OneSpaceSpacing(front);
      OneSpaceEmpty(front);
      SpaceIsSpace();
      OneSpaceStep(front, last);
      hide *;
      WordsStep(front, last);
      WordsStep(OneSpace(front), last);
      WordsStep(OneSpace(front), ' ');
    }
  }

  lemma {:induction false} OneSpaceMembers(s: string)
    ensures |OneSpace(s)| <= |s|
    ensures forall c :: c in OneSpace(s) ==> c in s || c == ' '
  {
    hide IsSpace, EndsInSpace;
    if s != "" {
      var front, last := s[..|s| - 1], s[|s| - 1];
      assert s == front + [last];
      OneSpaceMembers(front);
      OneSpaceStep(front, last);
    }
  }

  lemma {:induction false} TrimEndKeeps(s: string)
    requires SingleSpaced(s)
    ensures var r := TrimEnd(s);
      SingleSpaced(r) && !EndsInSpace(r) && Words(r) == Words(s) && r <= s
  {
    if EndsInSpace(s) {
      TrimEndKeeps(s[..|s| - 1]);
    }
  }

  lemma {:induction false} WordsSkipSpace(c: char, s: string)
    requires IsSpace(c)
    ensures Words([c] + s) == Words(s)
  {
    if s == "" {
      assert ([c] + s)[..0] == "";
    } else {
      var front, last := s[..|s| - 1], s[|s| - 1];
      assert s == front + [last] && [c] + s == ([c] + front) + [last];
      assert EndsInSpace([c] + front) <==> front == "" || EndsInSpace(front);
      hide *;
      WordsSkipSpace(c, front);
      WordsStep(front, last);
      WordsStep([c] + front, last);
    }
  }

  lemma {:induction false} TrimStartKeeps(s: string)
    requires SingleSpaced(s)
    ensures var r := TrimStart(s);
      && SingleSpaced(r) && (r != "" ==> !IsSpace(r[0])) && Words(r) == Words(s)
      && |r| <= |s| && forall c :: c in r ==> c in s
  {
    if s != "" && IsSpace(s[0]) {
      var rest := s[1..];
      assert SingleSpaced(rest);
      TrimStartKeeps(rest);
      WordsSkipSpace(s[0], rest);
      assert s == [s[0]] + rest;
    }
  }

  /** Collapsing keeps the words of a text and leaves exactly one space between them. */
  lemma CollapseMeaning(s: string)
    ensures Neat(CollapseWhitespace(s)) && Words(CollapseWhitespace(s)) == Words(s)
    ensures |CollapseWhitespace(s)| <= |s|
    ensures forall c :: c in CollapseWhitespace(s) ==> c in s || c == ' '
  {
    var a := OneSpace(s);
    var b := TrimStart(a);
    OneSpaceSpacing(s);
    OneSpaceWords(s);
    OneSpaceMembers(s);
    TrimStartKeeps(a);
    TrimEndKeeps(b);
    assert forall c :: c in TrimEnd(b) ==> c in b;
  }

  lemma {:induction false} OneSpaceFixed(s: string)
    requires SingleSpaced(s)
    ensures OneSpace(s) == s
  {
    hide IsSpace;
    if s != "" {
      var front, last := s[..|s| - 1], s[|s| - 1];
      assert SingleSpaced(front);
      OneSpaceFixed(front);
      assert EndsInSpace(front) ==> !IsSpace(last);
      assert s == front + [last];
    }
  }

  /** A neat text is left alone, so collapsing twice is collapsing once. */
  lemma CollapseIdempotent(s: string)
    ensures Neat(s) ==> CollapseWhitespace(s) == s
    ensures CollapseWhitespace(CollapseWhitespace(s)) == CollapseWhitespace(s)
  {
    CollapseMeaning(s);
    var r := CollapseWhitespace(s);
    OneSpaceFixed(r);
    if Neat(s) {
      OneSpaceFixed(s);
    }
  }

  // ----- The canonical view -----

  ghost function Canonical(lower: string -> string, t: string): string {
    CollapseWhitespace(Visible(WithoutComments(Folded(WithoutInvisible(t))), lower))
  }

  /** The first view of `deobfuscate`: the canonical text, when it differs and is not blank. */
  method CanonicalView(lower: string -> string, t: string) returns (view: Option<string>)
    ensures var canon := Canonical(lower, t);
      view == if canon != t && canon != "" then Some(canon) else None
  {
    var stripped := StripInvisible(t);
    var folded := FoldConfusables(stripped);
    var uncommented := StripHtmlComments(folded);
    var visible := StripHiddenHtml(lower, uncommented);
    var canon := CollapseWhitespace(visible);
    view := if canon != t && canon != "" then Some(canon) else None;
  }

  lemma {:induction false} InvisibleGone(text: string)
    ensures forall c :: c in WithoutInvisible(text) <==> c in text && !IsInvisible(c)
    ensures |WithoutInvisible(text)| <= |text|
  {
    if text != "" {
      var front, last := text[..|text| - 1], text[|text| - 1];
      assert text == front + [last];
      InvisibleGone(front);
    }
  }

  /** No later stage brings back an invisible or a foldable character, and the view has at most
      as many characters as the text. */
  lemma CanonicalClean(lower: string -> string, t: string)
    ensures forall c :: c in Canonical(lower, t) ==> !IsInvisible(c) && !IsFoldable(c)
    ensures Neat(Canonical(lower, t))
    ensures |Canonical(lower, t)| <= |t|
  {
    hide Canonical, WithoutInvisible, WithoutComments, Visible, CollapseWhitespace, IsInvisible, Neat;
    var stripped := WithoutInvisible(t);
    var folded := Folded(stripped);
    var uncommented := WithoutComments(folded);
    var visible := Visible(uncommented, lower);
    InvisibleGone(t);
    forall c | c in folded ensures !IsInvisible(c) && !IsFoldable(c) {
      var i :| 0 <= i < |folded| && folded[i] == c;
      FoldedOnce(stripped[i]);
    }
    CommentsStripped(folded);
    VisibleShrinks(uncommented, lower);
    CollapseMeaning(visible);
    SpacePlain();
    assert forall c :: c in CollapseWhitespace(visible) ==> c in folded || c == ' ';
    CanonicalIs(lower, t);
  }

  lemma SpacePlain()
    ensures !IsInvisible(' ') && !IsFoldable(' ')
  {
  }

  lemma CanonicalIs(lower: string -> string, t: string)
    ensures Canonical(lower, t) == CollapseWhitespace(Visible(WithoutComments(Folded(WithoutInvisible(t))), lower))
  {
  }

  lemma VisibleShrinks(text: string, lower: string -> string)
    ensures |Visible(text, lower)| <= |text| && forall c :: c in Visible(text, lower) ==> c in text
  {
    RegionsOrdered(text, 0, 0, lower);
    KeptShrinks(text, 0, Regions(text, 0, lower));
  }
}
