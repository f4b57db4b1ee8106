/** Markup written from a tree of nested elements: where an element ends, and what is left of the text
    when the hidden ones are removed. */
module HiddenElements {
  import opened Wrappers
  import opened Strings
  import opened HiddenHtml

  /** Text, one content after another, an element with its content and its closing name, or an element
      without content. */
  datatype Content =
    | Plain(text: string)
    | Both(first: Content, second: Content)
    | Element(name: string, attrs: seq<Attribute>, inner: Content, shut: string)
    | Lone(name: string, attrs: seq<Attribute>, slash: bool)

  // ----- Names -----

  predicate Letter(c: char) {
    'a' <= c <= 'z' || 'A' <= c <= 'Z'
  }

  /** A letter, then letters, digits and hyphens. */
  predicate IsName(s: string) {
    s != "" && Letter(s[0]) && forall i :: 0 <= i < |s| ==> Letter(s[i]) || '0' <= s[i] <= '9' || s[i] == '-'
  }

  predicate SameLetter(a: char, b: char) {
    a == b || ('A' <= a <= 'Z' && b as int == a as int + 32) || ('A' <= b <= 'Z' && a as int == b as int + 32)
  }

  /** The same name but for the case of its letters. */
  predicate SameName(a: string, b: string) {
    |a| == |b| && forall i :: 0 <= i < |a| ==> SameLetter(a[i], b[i])
  }

  const VOID := {
    "area", "base", "br", "col", "embed", "hr", "img", "input",
    "link", "meta", "param", "source", "track", "wbr"}

  /** An element that never has content. */
  ghost predicate IsVoid(name: string) {
    exists v :: v in VOID && SameName(name, v)
  }

  lemma SameNameLowered(a: string, b: string)
    requires IsName(a) && IsName(b)
    ensures SameName(a, b) <==> LowerName(a) == LowerName(b)
  {
    if LowerName(a) == LowerName(b) {
      forall i | 0 <= i < |a| ensures SameLetter(a[i], b[i]) {
        assert LowerName(a)[i] == LowerName(b)[i];
      }
    }
  }

  lemma VoidNames(v: string)
    ensures v in VOID <==> v in VOID_ELEMENTS
    ensures v in VOID ==> v != "" && forall i :: 0 <= i < |v| ==> 'a' <= v[i] <= 'z'
  {
  }

  lemma VoidLowered(name: string)
    requires IsName(name)
    ensures IsVoid(name) <==> LowerName(name) in VOID_ELEMENTS
  {
    hide LowerName;
    if IsVoid(name) {
      var v :| v in VOID && SameName(name, v);
      VoidLower(name, v);
    }
    if LowerName(name) in VOID_ELEMENTS {
      VoidLower(name, LowerName(name));
    }
  }

  lemma VoidLower(name: string, v: string)
    requires IsName(name) && (v in VOID || v in VOID_ELEMENTS)
    ensures v in VOID && v in VOID_ELEMENTS
    ensures SameName(name, v) <==> LowerName(name) == v
  {
    VoidNames(v);
    hide LowerName;
    assert IsName(v);
    SameNameLowered(name, v);
    LowerAlready(v);
  }

  lemma LowerAlready(v: string)
    requires forall i :: 0 <= i < |v| ==> 'a' <= v[i] <= 'z'
    ensures LowerName(v) == v
  {
  }

  // ----- Writing -----

  function TagText(closing: bool, name: string, attrs: string): string {
    (if closing then "</" else "<") + name + attrs + ">"
  }

  function LoneAttrs(attrs: seq<Attribute>, slash: bool): string {
    WriteAttributes(attrs) + if slash then "/" else ""
  }

  function Write(c: Content): string {
    match c
    case Plain(s) => s
    case Both(a, b) => Write(a) + Write(b)
    case Element(name, attrs, inner, shut) =>
      TagText(false, name, LoneAttrs(attrs, false)) + Write(inner) + TagText(true, shut, "")
    case Lone(name, attrs, slash) => TagText(false, name, LoneAttrs(attrs, slash))
  }

  /** Attribute values may hold anything but a double quote, so `<` and `>` too. */
  predicate NamedAttributes(attrs: seq<Attribute>) {
    forall a :: a in attrs ==> IsName(a.name) && '"' !in a.value
  }

  /** Text holds no `<`; elements are closed under their own name in any case of letters, void ones and
      those that end in `/>` have no content. */
  ghost predicate WellWritten(c: Content) {
    match c
    case Plain(s) => '<' !in s
    case Both(a, b) => WellWritten(a) && WellWritten(b)
    case Element(name, attrs, inner, shut) =>
      && IsName(name) && !IsVoid(name) && IsName(shut) && SameName(name, shut)
      && NamedAttributes(attrs) && WellWritten(inner)
    case Lone(name, attrs, slash) => IsName(name) && (slash || IsVoid(name)) && NamedAttributes(attrs)
  }

  /** The attributes are written in lower case already. */
  ghost predicate LowerCase(lower: string -> string, c: Content) {
    match c
    case Plain(_) => true
    case Both(a, b) => LowerCase(lower, a) && LowerCase(lower, b)
    case Element(_, attrs, inner, _) =>
      lower(LoneAttrs(attrs, false)) == LoneAttrs(attrs, false) && LowerCase(lower, inner)
    case Lone(_, attrs, slash) => lower(LoneAttrs(attrs, slash)) == LoneAttrs(attrs, slash)
  }

  /** What is left without the hidden elements. */
  function Shown(c: Content): string {
    match c
    case Plain(s) => s
    case Both(a, b) => Shown(a) + Shown(b)
    case Element(name, attrs, inner, shut) =>
      if HasHiding(attrs) then ""
      else TagText(false, name, LoneAttrs(attrs, false)) + Shown(inner) + TagText(true, shut, "")
    case Lone(name, attrs, slash) =>
      if HasHiding(attrs) then "" else TagText(false, name, LoneAttrs(attrs, slash))
  }

  // ----- Quotation marks in written attributes -----

  /** No `>` in it stands outside quotes, and its quotes are closed. */
  predicate Quiet(s: string) {
    QuoteAt(s, 0, |s|).None? && forall i :: 0 <= i < |s| && s[i] == '>' ==> QuoteAt(s, 0, i).Some?
  }

  lemma {:induction false} QuoteShift(text: string, start: nat, s: string, i: nat)
    requires start + |s| <= |text| && text[start..start + |s|] == s && i <= |s|
    ensures QuoteAt(text, start, start + i) == QuoteAt(s, 0, i)
  {
    if i > 0 {
      QuoteShift(text, start, s, i - 1);
      assert text[start + i - 1] == text[start..start + |s|][i - 1];
    }
  }

  /** After closed quotes, reading starts afresh. */
  lemma {:induction false} QuoteResumes(a: string, b: string, i: nat)
    requires i <= |b| && QuoteAt(a, 0, |a|).None?
    ensures QuoteAt(a + b, 0, |a| + i) == QuoteAt(b, 0, i)
  {
    if i == 0 {
      QuoteShift(a + b, 0, a, |a|);
    } else {
      QuoteResumes(a, b, i - 1);
    }
  }

  lemma QuietJoin(a: string, b: string)
    requires Quiet(a) && Quiet(b)
    ensures Quiet(a + b)
  {
    hide QuoteAt;
    QuoteResumes(a, b, |b|);
    forall i | 0 <= i < |a + b| && (a + b)[i] == '>' ensures QuoteAt(a + b, 0, i).Some? {
      if i < |a| {
        QuoteShift(a + b, 0, a, i);
      } else {
        QuoteResumes(a, b, i - |a|);
      }
    }
  }

  lemma {:induction false} NoQuotes(s: string, i: nat)
    requires i <= |s| && '"' !in s && '\'' !in s
    ensures QuoteAt(s, 0, i).None?
  {
    if i > 0 {
      NoQuotes(s, i - 1);
    }
  }

  lemma QuietPlain(s: string)
    requires '"' !in s && '\'' !in s && '>' !in s
    ensures Quiet(s)
  {
    NoQuotes(s, |s|);
  }

  lemma {:induction false} QuotedOpen(value: string, i: nat)
    requires '"' !in value && i <= |value|
    ensures QuoteAt("\"" + value + "\"", 0, i + 1) == Some('"')
  {
    var s := "\"" + value + "\"";
    if i == 0 {
      assert s[0] == '"' && QuoteAt(s, 0, 0).None?;
    } else {
      QuotedOpen(value, i - 1);
      assert s[i] == value[i - 1];
    }
  }

  lemma QuietQuoted(value: string)
    requires '"' !in value
    ensures Quiet("\"" + value + "\"")
  {
    var s := "\"" + value + "\"";
    QuotedOpen(value, |value|);
    assert s[|s| - 1] == '"';
    forall i | 0 <= i < |s| && s[i] == '>' ensures QuoteAt(s, 0, i).Some? {
      QuotedOpen(value, i - 1);
    }
  }

  lemma NamePlain(name: string)
    requires IsName(name)
    ensures '"' !in name && '\'' !in name && '>' !in name && '<' !in name && AllNameChars(name)
    ensures IsTagNameStart(name[0])
  {
  }

  lemma {:induction false} QuietAttributes(attrs: seq<Attribute>)
    requires NamedAttributes(attrs)
    ensures Quiet(WriteAttributes(attrs))
    ensures forall a :: a in attrs ==> Writable(a)
    ensures attrs != [] ==> WriteAttributes(attrs) != "" && WriteAttributes(attrs)[0] == ' '
    ensures attrs != [] ==> WriteAttributes(attrs)[|WriteAttributes(attrs)| - 1] == '"'
  {
    hide Quiet;
    if attrs == [] {
      QuietPlain("");
    } else {
      var a, rest := attrs[0], attrs[1..];
      assert attrs == [a] + rest && a in attrs;
      NamePlain(a.name);
      QuietAttributes(rest);
      var name := " " + a.name + "=";
      QuietPlain(name);
      QuietQuoted(a.value);
      QuietJoin(name, "\"" + a.value + "\"");
      assert WriteAttribute(a) == name + ("\"" + a.value + "\"");
      QuietJoin(WriteAttribute(a), WriteAttributes(rest));
    }
  }

  /** What attributes as written mean to the scanners. */
  lemma WrittenAttributes(attrs: seq<Attribute>, slash: bool)
    requires NamedAttributes(attrs)
    ensures var s := LoneAttrs(attrs, slash);
      Quiet(s) && (s != "" ==> !IsTagNameChar(s[0])) && (SelfClosing(s) <==> slash)
  {
    QuietAttributes(attrs);
    QuietPlain("/");
    QuietJoin(WriteAttributes(attrs), "/");
    var w, s := WriteAttributes(attrs), LoneAttrs(attrs, slash);
    assert s == w + if slash then "/" else "";
    assert attrs == [] ==> w == "";
    hide *;
    AttributeEnds(w, slash);
  }

  lemma AttributeEnds(w: string, slash: bool)
    requires w != "" ==> w[0] == ' ' && w[|w| - 1] == '"'
    ensures var s := w + if slash then "/" else "";
      (s != "" ==> !IsTagNameChar(s[0])) && (SelfClosing(s) <==> slash) && (!slash ==> s == w)
  {
    assert w + "" == w;
  }

  lemma WrittenHidden(lower: string -> string, attrs: seq<Attribute>, slash: bool)
    requires NamedAttributes(attrs) && lower(LoneAttrs(attrs, slash)) == LoneAttrs(attrs, slash)
    ensures Hidden(lower, LoneAttrs(attrs, slash)) <==> HasHiding(attrs)
  {
    hide Quiet, Hidden, HasHiding;
    QuietAttributes(attrs);
    HiddenAsWritten(lower, attrs, if slash then "/" else "");
  }

  // ----- One written tag -----

  lemma {:induction false} TagEndExact(text: string, start: nat, i: nat, end: nat)
    requires start <= i <= end < |text| && EndsTag(text, start, end)
    requires forall k :: i <= k < end ==> !EndsTag(text, start, k)
    ensures TagEndFrom(text, start, i) == end
    decreases end - i
  {
    if i < end {
      TagEndExact(text, start, i + 1, end);
    }
  }

  lemma QuietTagEnd(text: string, start: nat, attrs: string)
    requires start + |attrs| < |text| && text[start..start + |attrs|] == attrs && text[start + |attrs|] == '>'
    requires Quiet(attrs)
    ensures TagEnd(text, start) == start + |attrs|
  {
    hide QuoteAt;
    var end := start + |attrs|;
    QuoteShift(text, start, attrs, |attrs|);
    forall k | start <= k < end ensures !EndsTag(text, start, k) {
      QuoteShift(text, start, attrs, k - start);
      assert text[k] == attrs[k - start];
    }
    TagEndExact(text, start, start, end);
  }

  /** The tag as read. */
  function TagOf(pre: string, closing: bool, name: string, attrs: string): Tag {
    Tag(|pre|, closing, LowerName(name), attrs, |pre| + |TagText(closing, name, attrs)| - 1)
  }

  lemma TagExact(text: string, pre: string, closing: bool, name: string, attrs: string, more: string)
    requires text == pre + TagText(closing, name, attrs) + more
    requires IsName(name) && Quiet(attrs) && (attrs != "" ==> !IsTagNameChar(attrs[0]))
    ensures |pre| + 1 < |text| && text[|pre|] == '<' && (text[|pre| + 1] == '/' <==> closing)
    ensures MarkFor(text, |pre|, closing) == Complete(TagOf(pre, closing, name, attrs))
    ensures MarkAt(text, |pre|) == MarkFor(text, |pre|, closing)
  {
    hide Quiet, LowerName, QuoteAt, IsName;
    var lead := if closing then "</" else "<";
    assert text == pre + lead + name + (attrs + ">" + more);
    NameRead(text, pre + lead, name, attrs + ">" + more);
    var p := |pre + lead + name|;
    assert text[p..p + |attrs|] == attrs && text[p + |attrs|] == '>';
    QuietTagEnd(text, p, attrs);
    assert text[|pre|] == '<' && (closing ==> text[|pre| + 1] == '/');
  }

  /** A name is read to its end when something else follows it. */
  lemma NameRead(text: string, start: string, name: string, rest: string)
    requires text == start + name + rest && IsName(name) && rest != "" && !IsTagNameChar(rest[0])
    ensures var p := |start + name|;
      && Span(text, |start|, IsTagNameChar) == p && text[|start|..p] == name
      && IsTagNameStart(text[|start|]) && text[|start|] != '/'
  {
    NamePlain(name);
    var n, p := |start|, |start + name|;
    assert text[n..p] == name && text[n] == name[0] && text[p] == rest[0];
    forall k | n <= k < p ensures IsTagNameChar(text[k]) {
      assert text[k] == name[k - n];
    }
    SpanExact(text, n, p, IsTagNameChar);
  }

  // ----- Where an element ends -----

  /** One written tag moves the depth and is passed, unless it closes the element. */
  lemma ClosesOrPasses(
    text: string, pre: string, closing: bool, name: string, attrs: string, more: string, sought: string, depth: int)
    requires text == pre + TagText(closing, name, attrs) + more
    requires IsName(name) && Quiet(attrs) && (attrs != "" ==> !IsTagNameChar(attrs[0]))
    ensures var next := |pre| + |TagText(closing, name, attrs)|;
      var d := depth + Nesting(TagOf(pre, closing, name, attrs), sought);
      CloserIn(Tags(text, |pre|), sought, depth) == if d == 0 then next else CloserIn(Tags(text, next), sought, d)
  {
    hide Quiet, LowerName, Nesting, MarkFor, Tags, TagText, CloserIn;
    TagExact(text, pre, closing, name, attrs, more);
    FindExact(text, '<', |pre|, |pre|);
    TagsStep(text, |pre|, |pre|);
    var t := TagOf(pre, closing, name, attrs);
    CloserCons(t, Tags(text, t.end + 1), sought, depth);
  }

  lemma {:induction false} TextPassed(text: string, i: nat, j: nat)
    requires i <= j <= |text| && forall k :: i <= k < j ==> text[k] != '<'
    ensures Find(text, '<', i) == Find(text, '<', j)
    decreases j - i
  {
    if i < j {
      TextPassed(text, i + 1, j);
    }
  }

  lemma TagsPassed(text: string, i: nat, j: nat)
    requires i <= j <= |text| && forall k :: i <= k < j ==> text[k] != '<'
    ensures Tags(text, i) == Tags(text, j)
  {
    hide MarkFor;
    TextPassed(text, i, j);
  }

  /** The nesting that written tags stand for. */
  lemma WrittenNesting(t: Tag, name: string, attrs: seq<Attribute>, slash: bool, sought: string)
    requires IsName(name) && t.name == LowerName(name) && NamedAttributes(attrs)
    requires !t.closing ==> t.attrs == LoneAttrs(attrs, slash)
    ensures t.closing ==> Nesting(t, sought) == if sought == LowerName(name) then -1 else 0
    ensures !t.closing && (slash || IsVoid(name)) ==> Nesting(t, sought) == 0
    ensures !t.closing && !slash && !IsVoid(name) ==> Nesting(t, sought) == if sought == LowerName(name) then 1 else 0
  {
    hide LowerName, SelfClosing, IsVoid, LoneAttrs;
    VoidLowered(name);
    WrittenAttributes(attrs, slash);
  }

  lemma BothParts(text: string, pre: string, c: Content, more: string)
    requires c.Both? && text == pre + Write(c) + more
    ensures text == pre + Write(c.first) + (Write(c.second) + more)
    ensures text == (pre + Write(c.first)) + Write(c.second) + more
    ensures pre + Write(c) == pre + Write(c.first) + Write(c.second)
  {
  }

  /** Well-written content is passed without closing anything around it. */
  lemma {:induction false} ContentPassed(
    text: string, pre: string, c: Content, more: string, sought: string, depth: int)
    requires text == pre + Write(c) + more && WellWritten(c) && depth >= 1
    ensures CloserIn(Tags(text, |pre|), sought, depth) == CloserIn(Tags(text, |pre + Write(c)|), sought, depth)
    decreases c
  {
    hide Tags, CloserIn, IsVoid, TagText, NamedAttributes;
    match c
    case Plain(s) =>
      TagsPassed(text, |pre|, |pre + s|);
    case Both(a, b) =>
      BothParts(text, pre, c, more);
      ContentPassed(text, pre, a, Write(b) + more, sought, depth);
      ContentPassed(text, pre + Write(a), b, more, sought, depth);
    case Element(name, attrs, inner, shut) =>
      ElementPassed(text, pre, c, more, sought, depth);
    case Lone(name, attrs, slash) =>
      LonePassed(text, pre, c, more, sought, depth);
  }

  lemma LonePassed(text: string, pre: string, c: Content, more: string, sought: string, depth: int)
    requires c.Lone? && text == pre + Write(c) + more && WellWritten(c) && depth >= 1
    ensures CloserIn(Tags(text, |pre|), sought, depth) == CloserIn(Tags(text, |pre + Write(c)|), sought, depth)
  {
    hide Quiet, LowerName, IsVoid, Nesting, Tags, CloserIn, LoneAttrs;
    var attrs := LoneAttrs(c.attrs, c.slash);
    WrittenAttributes(c.attrs, c.slash);
    ClosesOrPasses(text, pre, false, c.name, attrs, more, sought, depth);
    WrittenNesting(TagOf(pre, false, c.name, attrs), c.name, c.attrs, c.slash, sought);
  }

  lemma {:induction false} ElementPassed(
    text: string, pre: string, c: Content, more: string, sought: string, depth: int)
    requires c.Element? && text == pre + Write(c) + more && WellWritten(c) && depth >= 1
    ensures CloserIn(Tags(text, |pre|), sought, depth) == CloserIn(Tags(text, |pre + Write(c)|), sought, depth)
    decreases c, 0
  {
    hide Quiet, LowerName, IsVoid, Nesting, Tags, CloserIn, LoneAttrs, SameName, TagText;
    var start, inside, finish := ElementParts(text, pre, c, more);
    var attrs := LoneAttrs(c.attrs, false);
    WrittenAttributes(c.attrs, false);
    QuietPlain("");
    SameNameLowered(c.name, c.shut);
    ClosesOrPasses(text, pre, false, c.name, attrs, Write(c.inner) + finish, sought, depth);
    WrittenNesting(TagOf(pre, false, c.name, attrs), c.name, c.attrs, false, sought);
    var d := if sought == LowerName(c.name) then depth + 1 else depth;
    ContentPassed(text, start, c.inner, finish, sought, d);
    ClosesOrPasses(text, inside, true, c.shut, "", more, sought, d);
    WrittenNesting(TagOf(inside, true, c.shut, ""), c.shut, [], false, sought);
  }

  /** The text before the content, before the closing tag, and from the closing tag on. */
  lemma ElementParts(text: string, pre: string, c: Content, more: string)
    returns (start: string, inside: string, finish: string)
    requires c.Element? && text == pre + Write(c) + more
    ensures start == pre + TagText(false, c.name, LoneAttrs(c.attrs, false)) && inside == start + Write(c.inner)
    ensures finish == TagText(true, c.shut, "") + more
    ensures text == pre + TagText(false, c.name, LoneAttrs(c.attrs, false)) + (Write(c.inner) + finish)
    ensures text == start + Write(c.inner) + finish
    ensures text == inside + TagText(true, c.shut, "") + more
    ensures pre + Write(c) == inside + TagText(true, c.shut, "")
  {
    hide TagText, LoneAttrs;
    start := pre + TagText(false, c.name, LoneAttrs(c.attrs, false));
    inside := start + Write(c.inner);
    finish := TagText(true, c.shut, "") + more;
  }

  /** After an opening tag, the closer found behind any well-written content is the closing tag that
      follows it, whatever elements of the same name the content nests. */
  lemma CloserAsWritten(pre: string, inner: Content, name: string, shut: string, more: string)
    requires WellWritten(inner) && IsName(name) && IsName(shut) && SameName(name, shut)
    ensures var upToCloser := pre + Write(inner) + "</" + shut + ">";
      Closer(upToCloser + more, |pre|, LowerName(name)) == |upToCloser|
  {
    hide Quiet, LowerName, Nesting, Tags, CloserIn, SameName;
    var closer := TagText(true, shut, "");
    var text := pre + Write(inner) + closer + more;
    assert closer == "</" + shut + ">";
    assert pre + Write(inner) + "</" + shut + ">" == pre + Write(inner) + closer;
    QuietPlain("");
    SameNameLowered(name, shut);
    assert text == pre + Write(inner) + (closer + more);
    ContentPassed(text, pre, inner, closer + more, LowerName(name), 1);
    ClosesOrPasses(text, pre + Write(inner), true, shut, "", more, LowerName(name), 1);
    WrittenNesting(TagOf(pre + Write(inner), true, shut, ""), shut, [], false, LowerName(name));
  }

  // ----- What is left of the text -----

  /** What is written for the text from `scan` on. */
  ghost function From(text: string, scan: nat, lower: string -> string): string
    requires scan <= |text|
  {
    Rest(text, scan, scan, lower)
  }

  /** What was passed and not yet written comes first. */
  lemma Flush(text: string, emitted: nat, scan: nat, lower: string -> string)
    requires emitted <= scan <= |text|
    ensures Rest(text, emitted, scan, lower) == text[emitted..scan] + From(text, scan, lower)
  {
    RegionsOrdered(text, emitted, scan, lower);
    RegionsOrdered(text, scan, scan, lower);
    FlushKept(text, emitted, scan, Regions(text, scan, lower));
  }

  lemma FlushKept(text: string, emitted: nat, scan: nat, rs: seq<Region>)
    requires emitted <= scan && Ordered(text, scan, rs) && Ordered(text, emitted, rs)
    ensures Kept(text, emitted, rs) == text[emitted..scan] + Kept(text, scan, rs)
  {
    if rs == [] {
      assert text[emitted..] == text[emitted..scan] + text[scan..];
    } else {
      var lt := rs[0].tag.lt;
      var passed, after := text[emitted..scan], text[scan..lt];
      assert text[emitted..lt] == passed + after;
      var later := Kept(text, rs[0].hi, rs[1..]);
      hide *;
      Assoc(passed, after, later);
    }
  }

  lemma PlainShown(text: string, i: nat, j: nat, lower: string -> string)
    requires i <= j <= |text| && forall k :: i <= k < j ==> text[k] != '<'
    ensures From(text, i, lower) == text[i..j] + From(text, j, lower)
  {
    TextPassed(text, i, j);
    SameRegions(text, i, j, lower);
    Flush(text, i, j, lower);
    RegionsOrdered(text, i, i, lower);
    RegionsOrdered(text, i, j, lower);
  }

  lemma SameRegions(text: string, i: nat, j: nat, lower: string -> string)
    requires i <= j <= |text| && Find(text, '<', i) == Find(text, '<', j)
    ensures Regions(text, i, lower) == Regions(text, j, lower)
  {
    hide MarkFor, Hidden;
  }

  /** A visible opening tag stays. */
  lemma OpeningShown(
    text: string, pre: string, name: string, attrs: string, more: string, lower: string -> string)
    requires text == pre + TagText(false, name, attrs) + more
    requires IsName(name) && Quiet(attrs) && (attrs != "" ==> !IsTagNameChar(attrs[0]))
    requires !Hidden(lower, attrs)
    ensures From(text, |pre|, lower) ==
      TagText(false, name, attrs) + From(text, |pre + TagText(false, name, attrs)|, lower)
  {
    hide Quiet, LowerName, MarkFor, TagText, Hidden, Rest;
    TagExact(text, pre, false, name, attrs, more);
    FindExact(text, '<', |pre|, |pre|);
    var next := |pre + TagText(false, name, attrs)|;
    RestSkips(text, |pre|, |pre|, lower, |pre|, next);
    Flush(text, |pre|, next, lower);
    assert text[|pre|..next] == TagText(false, name, attrs);
  }

  /** A closing tag on its own is no opening tag, and stays. */
  lemma ClosingShown(text: string, pre: string, shut: string, more: string, lower: string -> string)
    requires text == pre + TagText(true, shut, "") + more && IsName(shut)
    ensures From(text, |pre|, lower) == TagText(true, shut, "") + From(text, |pre + TagText(true, shut, "")|, lower)
  {
    hide Rest;
    NamePlain(shut);
    var lt, next := |pre|, |pre + TagText(true, shut, "")|;
    assert text[lt] == '<' && text[lt + 1] == '/';
    FindExact(text, '<', lt, lt);
    RestSkips(text, lt, lt, lower, lt, lt + 1);
    Flush(text, lt, lt + 1, lower);
    forall k | lt + 1 <= k < next ensures text[k] != '<' {
      assert text[k] == TagText(true, shut, "")[k - lt];
    }
    PlainShown(text, lt + 1, next, lower);
    assert text[lt..next] == TagText(true, shut, "");
    assert text[lt..lt + 1] + text[lt + 1..next] == text[lt..next];
  }

  /** A hidden opening tag is removed up to the end of its element. */
  lemma HiddenGone(
    text: string, pre: string, name: string, attrs: string, more: string, lower: string -> string, hi: nat)
    requires text == pre + TagText(false, name, attrs) + more
    requires IsName(name) && Quiet(attrs) && (attrs != "" ==> !IsTagNameChar(attrs[0]))
    requires Hidden(lower, attrs) && hi == RegionEnd(text, TagOf(pre, false, name, attrs))
    ensures hi <= |text| && From(text, |pre|, lower) == From(text, hi, lower)
  {
    hide Quiet, LowerName, MarkFor, TagText, Hidden, Rest, RegionEnd;
    TagExact(text, pre, false, name, attrs, more);
    FindExact(text, '<', |pre|, |pre|);
    RestRemoves(text, |pre|, |pre|, lower, |pre|, hi, "");
    var out := "" + text[|pre|..|pre|];
    assert out == "" && "" + From(text, |pre|, lower) == From(text, |pre|, lower);
    assert out + From(text, hi, lower) == From(text, hi, lower);
  }

  /** Removing the hidden elements of a text that holds well-written content somewhere. */
  lemma {:induction false} ContentShown(
    text: string, pre: string, c: Content, more: string, lower: string -> string)
    requires text == pre + Write(c) + more && WellWritten(c) && LowerCase(lower, c)
    ensures From(text, |pre|, lower) == Shown(c) + From(text, |pre + Write(c)|, lower)
    decreases c
  {
    hide From, IsName, NamedAttributes, IsVoid, HasHiding, TagText, LoneAttrs, SameName;
    match c
    case Plain(s) =>
      PlainShown(text, |pre|, |pre + s|, lower);
      assert text[|pre|..|pre + s|] == s;
    case Both(a, b) =>
      BothParts(text, pre, c, more);
      ContentShown(text, pre, a, Write(b) + more, lower);
      ContentShown(text, pre + Write(a), b, more, lower);
    case Element(name, attrs, inner, shut) =>
      ElementShown(text, pre, c, more, lower);
    case Lone(name, attrs, slash) =>
      LoneShown(text, pre, c, more, lower);
  }

  lemma LoneShown(text: string, pre: string, c: Content, more: string, lower: string -> string)
    requires c.Lone? && text == pre + Write(c) + more && WellWritten(c) && LowerCase(lower, c)
    ensures From(text, |pre|, lower) == Shown(c) + From(text, |pre + Write(c)|, lower)
  {
    hide From, Quiet, LowerName, IsVoid, LoneAttrs, Hidden, SelfClosing, TagText;
    var attrs := LoneAttrs(c.attrs, c.slash);
    WrittenAttributes(c.attrs, c.slash);
    WrittenHidden(lower, c.attrs, c.slash);
    if HasHiding(c.attrs) {
      VoidLowered(c.name);
      HiddenGone(text, pre, c.name, attrs, more, lower, |pre + Write(c)|);
    } else {
      OpeningShown(text, pre, c.name, attrs, more, lower);
    }
  }

  lemma {:induction false} ElementShown(text: string, pre: string, c: Content, more: string, lower: string -> string)
    requires c.Element? && text == pre + Write(c) + more && WellWritten(c) && LowerCase(lower, c)
    ensures From(text, |pre|, lower) == Shown(c) + From(text, |pre + Write(c)|, lower)
    decreases c, 0
  {
    hide From, Quiet, LowerName, IsVoid, LoneAttrs, Hidden, SelfClosing, TagText, SameName, Closer;
    var start, inside, finish := ElementParts(text, pre, c, more);
    var attrs := LoneAttrs(c.attrs, false);
    WrittenAttributes(c.attrs, false);
    WrittenHidden(lower, c.attrs, false);
    if HasHiding(c.attrs) {
      VoidLowered(c.name);
      CloserAsWritten(start, c.inner, c.name, c.shut, more);
      ClosingText(inside, c.shut, more);
      HiddenGone(text, pre, c.name, attrs, Write(c.inner) + finish, lower, |pre + Write(c)|);
    } else {
      OpeningShown(text, pre, c.name, attrs, Write(c.inner) + finish, lower);
      ContentShown(text, start, c.inner, finish, lower);
      ClosingShown(text, inside, c.shut, more, lower);
    }
  }

  lemma ClosingText(inside: string, shut: string, more: string)
    ensures inside + "</" + shut + ">" == inside + TagText(true, shut, "")
  {
  }

  /** Removing hidden elements from well-written markup leaves exactly what its tree shows: hidden
      elements go with everything inside them, and nothing else goes. */
  lemma VisibleAsWritten(c: Content, lower: string -> string)
    requires WellWritten(c) && LowerCase(lower, c)
    ensures Visible(Write(c), lower) == Shown(c)
  {
    hide Write, Shown, WellWritten, LowerCase;
    var text := Write(c);
    assert text == "" + text + "";
    ContentShown(text, "", c, "", lower);
    assert |"" + text| == |text|;
    RestEnds(text, |text|, |text|, lower);
    assert Shown(c) + [] == Shown(c);
  }

  lemma NoTagsAtEnd(text: string, name: string)
    ensures CloserIn(Tags(text, |text|), name, 1) == -1
  {
    assert Tags(text, |text|) == [];
  }

  /** A hidden element that is never closed loses its opening tag only. */
  lemma UnclosedAsWritten(name: string, attrs: seq<Attribute>, c: Content, lower: string -> string)
    requires IsName(name) && !IsVoid(name) && NamedAttributes(attrs) && HasHiding(attrs)
    requires lower(LoneAttrs(attrs, false)) == LoneAttrs(attrs, false) && WellWritten(c) && LowerCase(lower, c)
    ensures Visible(TagText(false, name, LoneAttrs(attrs, false)) + Write(c), lower) == Shown(c)
  {
    hide Write, Shown, WellWritten, LowerCase, From, Quiet, LowerName, IsVoid, LoneAttrs, Hidden, SelfClosing, TagText;
    hide Tags, CloserIn, Rest;
    var open := TagText(false, name, LoneAttrs(attrs, false));
    var text := open + Write(c);
    assert text == "" + open + Write(c) && text == open + Write(c) + "" && "" + open == open;
    WrittenAttributes(attrs, false);
    WrittenHidden(lower, attrs, false);
    VoidLowered(name);
    ContentPassed(text, open, c, "", LowerName(name), 1);
    NoTagsAtEnd(text, LowerName(name));
    HiddenGone(text, "", name, LoneAttrs(attrs, false), Write(c), lower, |open|);
    ContentShown(text, open, c, "", lower);
    EndShown(text, lower);
    assert Shown(c) + "" == Shown(c);
  }

  lemma EndShown(text: string, lower: string -> string)
    ensures From(text, |text|, lower) == ""
    ensures Visible(text, lower) == From(text, 0, lower)
  {
    RestEnds(text, |text|, |text|, lower);
  }

  /** The code points that ECMAScript's `trimEnd` removes. */
  const JS_SPACES := {
    0x9, 0xA, 0xB, 0xC, 0xD, 0x20, 0xA0, 0x1680,
    0x2000, 0x2001, 0x2002, 0x2003, 0x2004, 0x2005, 0x2006, 0x2007, 0x2008, 0x2009, 0x200A,
    0x2028, 0x2029, 0x202F, 0x205F, 0x3000, 0xFEFF}

  /** What the last character other than such whitespace says: the tag closes itself exactly when it is
      a slash. */
  lemma {:induction false} SelfClosingSpaced(attrs: string, last: char, spaces: string)
    requires last as int !in JS_SPACES && forall i :: 0 <= i < |spaces| ==> spaces[i] as int in JS_SPACES
    ensures SelfClosing(attrs + [last] + spaces) <==> last == '/'
    ensures !SelfClosing(spaces)
  {
    var s := attrs + [last] + spaces;
    if spaces == "" {
      assert s[|s| - 1] == last;
    } else {
      var front := spaces[..|spaces| - 1];
      assert s[|s| - 1] == spaces[|spaces| - 1] && s[..|s| - 1] == attrs + [last] + front;
      SelfClosingSpaced(attrs, last, front);
    }
  }

  // ----- What hides -----

  predicate Blank(c: char) {
    c == ' ' || 9 <= c as int <= 13
  }

  predicate Blanks(s: string) {
    forall i :: 0 <= i < |s| ==> Blank(s[i])
  }

  lemma {:induction false} SqueezeJoin(a: string, b: string)
    ensures Squeeze(a + b) == Squeeze(a) + Squeeze(b)
  {
    if b == "" {
      assert a + b == a;
    } else {
      var front := b[..|b| - 1];
      assert (a + b)[..|a + b| - 1] == a + front;
      SqueezeJoin(a, front);
    }
  }

  /** Squeezing drops exactly the ASCII whitespace. */
  lemma {:induction false} Squeezed(s: string)
    ensures Blanks(s) ==> Squeeze(s) == ""
    ensures (forall i :: 0 <= i < |s| ==> !Blank(s[i])) ==> Squeeze(s) == s
  {
    if s != "" {
      Squeezed(s[..|s| - 1]);
    }
  }

  lemma SpacedProperty(before: string, property: string, w: string, w': string, value: string, after: string)
    requires Blanks(w) && Blanks(w')
    requires (forall i :: 0 <= i < |property| ==> !Blank(property[i]))
    requires (forall i :: 0 <= i < |value| ==> !Blank(value[i]))
    ensures Contains(Squeeze(before + property + w + ":" + w' + value + after), property + ":" + value)
  {
    SqueezeJoin(before + property + w + ":" + w' + value, after);
    SqueezeJoin(before + property + w + ":" + w', value);
    SqueezeJoin(before + property + w + ":", w');
    SqueezeJoin(before + property + w, ":");
    SqueezeJoin(before + property, w);
    SqueezeJoin(before, property);
    Squeezed(property);
    Squeezed(w);
    Squeezed(":");
    Squeezed(w');
    Squeezed(value);
    hide Squeeze, Contains;
    OccursInside(Squeeze(before), property, value, Squeeze(after));
  }

  lemma OccursInside(a: string, property: string, value: string, b: string)
    ensures Contains(a + property + "" + ":" + "" + value + b, property + ":" + value)
  {
    var s, word := a + property + "" + ":" + "" + value + b, property + ":" + value;
    assert s == a + word + b;
    assert OccursAt(s, word, |a|);
  }

  /** What hides an element: `aria-hidden="true"`, or a style that displays nothing or is hidden, with
      any whitespace around the colon and anything around the property. */
  lemma HidingForms(before: string, w: string, w': string, after: string)
    requires Blanks(w) && Blanks(w')
    ensures Hides(Attribute("aria-hidden", "true"))
    ensures Hides(Attribute("style", before + "display" + w + ":" + w' + "none" + after))
    ensures Hides(Attribute("style", before + "visibility" + w + ":" + w' + "hidden" + after))
  {
    hide Squeeze, Contains;
    SpacedProperty(before, "display", w, w', "none", after);
    SpacedProperty(before, "visibility", w, w', "hidden", after);
    assert "display" + ":" + "none" == "display:none";
    assert "visibility" + ":" + "hidden" == "visibility:hidden";
  }

  /** And what does not: any other attribute, any other value, a style without a property. */
  lemma HarmlessForms(a: Attribute)
    requires a.name in {"aria-hidden", "style"} ==>
      if a.name == "aria-hidden" then a.value != "true" else ':' !in a.value
    ensures !Hides(a)
  {
    if a.name == "style" {
      assert |"aria-hidden"| == 11;
      SqueezeMembers(a.value);
      var css := Squeeze(a.value);
      assert "display:none"[7] == ':' && "visibility:hidden"[10] == ':';
      forall i | 0 <= i <= |css| ensures !OccursAt(css, "display:none", i) && !OccursAt(css, "visibility:hidden", i) {
        assert i + 12 <= |css| ==> css[i..i + 12][7] == css[i + 7];
        assert i + 17 <= |css| ==> css[i..i + 17][10] == css[i + 10];
      }
    }
  }

  lemma {:induction false} SqueezeMembers(s: string)
    ensures forall c :: c in Squeeze(s) ==> c in s
  {
    if s != "" {
      SqueezeMembers(s[..|s| - 1]);
    }
  }

  /** What holds no letter, digits and hyphens among it, is skipped in front of an attribute name. */
  lemma {:induction false} JunkSkipped(s: string, i: nat, j: nat)
    requires i <= j <= |s| && forall k :: i <= k < j ==> !Letter(s[k])
    ensures ReadAttribute(s, i) == ReadAttribute(s, j)
    decreases j - i
  {
    if i < j {
      JunkSkipped(s, i + 1, j);
      assert Span(s, i, NotNameStart) == Span(s, i + 1, NotNameStart);
    }
  }

  // ----- Values as they can be written -----

  /** What stands before a value: whitespace, `=`, whitespace. */
  lemma ValueStart(s: string, before: string, w: string, w': string, rest: string)
    requires s == before + w + "=" + w' + rest && Blanks(w) && Blanks(w') && (rest != "" ==> !Blank(rest[0]))
    ensures Span(s, |before|, IsAsciiSpace) == |before + w| && s[|before + w|] == '='
    ensures Span(s, |before + w| + 1, IsAsciiSpace) == |before + w + "=" + w'|
    ensures s[|before + w + "=" + w'|..] == rest
  {
    var p, q := |before + w|, |before + w + "=" + w'|;
    forall k | |before| <= k < p ensures IsAsciiSpace(s[k]) {
      assert s[k] == w[k - |before|];
    }
    forall k | p + 1 <= k < q ensures IsAsciiSpace(s[k]) {
      assert s[k] == w'[k - p - 1];
    }
    assert q < |s| ==> s[q] == rest[0];
    SpanExact(s, |before|, p, IsAsciiSpace);
    SpanExact(s, p + 1, q, IsAsciiSpace);
  }

  /** A value in double or in single quotes, closed or up to the end. */
  lemma QuotedValue(before: string, w: string, w': string, q: char, value: string, tail: string)
    requires Blanks(w) && Blanks(w') && q in {'"', '\''} && q !in value
    ensures var start := before + w + "=" + w' + [q] + value;
      && ReadValue(start + [q] + tail, |before|) == (value, |start| + 1)
      && ReadValue(start, |before|) == (value, |start|)
  {
    var start := before + w + "=" + w' + [q] + value;
    ValueInQuotes(start + [q] + tail, before, w, w', q, value, [q] + tail);
    assert start == before + w + "=" + w' + [q] + value + "";
    ValueInQuotes(start, before, w, w', q, value, "");
  }

  lemma ValueInQuotes(s: string, before: string, w: string, w': string, q: char, value: string, rest: string)
    requires s == before + w + "=" + w' + [q] + value + rest
    requires Blanks(w) && Blanks(w') && q in {'"', '\''} && q !in value && (rest != "" ==> rest[0] == q)
    ensures var v := |before + w + "=" + w' + [q] + value|;
      ReadValue(s, |before|) == (value, if rest == "" then v else v + 1)
  {
    hide Find, Blanks;
    var v, end := QuotedParts(s, before + w + "=" + w', q, value, rest);
    ValueStart(s, before, w, w', [q] + value + rest) by {
      assert s == before + w + "=" + w' + ([q] + value + rest);
    }
  }

  lemma QuotedParts(s: string, start: string, q: char, value: string, rest: string) returns (v: nat, end: nat)
    requires s == start + [q] + value + rest && q !in value && (rest != "" ==> rest[0] == q)
    ensures v == |start| && end == |start + [q] + value| && v < end <= |s| && s[v] == q && s[v + 1..end] == value
    ensures Find(s, q, v + 1) == if rest == "" then -1 else end
    ensures rest == "" ==> s[v + 1..] == value
  {
    v, end := |start|, |start + [q] + value|;
    forall k | v + 1 <= k < end ensures s[k] != q {
      assert s[k] == value[k - v - 1];
    }
    if rest == "" {
      FindNothing(s, q, v + 1);
    } else {
      assert s[end] == q;
      FindExact(s, q, v + 1, end);
    }
  }

  lemma {:induction false} FindNothing(s: string, c: char, i: nat)
    requires i <= |s| && forall k :: i <= k < |s| ==> s[k] != c
    ensures Find(s, c, i) == -1
    decreases |s| - i
  {
    if i < |s| {
      FindNothing(s, c, i + 1);
    }
  }

  /** A value without quotes ends at the next whitespace. */
  lemma BareValue(before: string, w: string, w': string, value: string, tail: string)
    requires Blanks(w) && Blanks(w') && value != "" && value[0] !in {'"', '\''}
    requires (forall i :: 0 <= i < |value| ==> !Blank(value[i])) && (tail != "" ==> Blank(tail[0]))
    ensures var start := before + w + "=" + w' + value; ReadValue(start + tail, |before|) == (value, |start|)
  {
    var s := before + w + "=" + w' + value + tail;
    ValueStart(s, before, w, w', value + tail) by {
      assert s == before + w + "=" + w' + (value + tail);
    }
    var v := |before + w + "=" + w'|;
    var end := v + |value|;
    assert s[v] == value[0] && s[v..end] == value;
    forall k | v <= k < end ensures NotSpace(s[k]) {
      assert s[k] == value[k - v];
    }
    assert end < |s| ==> s[end] == tail[0];
    SpanExact(s, v, end, NotSpace);
  }

  /** A name without `=` has the empty value. */
  lemma NoValue(before: string, w: string, tail: string)
    requires Blanks(w) && (tail != "" ==> !Blank(tail[0]) && tail[0] != '=')
    ensures ReadValue(before + w + tail, |before|) == ("", |before + w|)
  {
    var s, p := before + w + tail, |before + w|;
    forall k | |before| <= k < p ensures IsAsciiSpace(s[k]) {
      assert s[k] == w[k - |before|];
    }
    assert p < |s| ==> s[p] == tail[0];
    SpanExact(s, |before|, p, IsAsciiSpace);
  }
}
