/** Removing hidden elements from the text that detectors scan. `lower` is Python's `str.lower`. */
module HiddenHtml {
  import opened Wrappers
  import opened Strings

  // ----- Characters -----

  predicate IsTagNameStart(c: char) {
    'a' <= c <= 'z' || 'A' <= c <= 'Z'
  }

  predicate IsTagNameChar(c: char) {
    IsTagNameStart(c) || '0' <= c <= '9' || c == '-'
  }

  predicate NotNameStart(c: char) {
    !IsTagNameStart(c)
  }

  predicate NotSpace(c: char) {
    !IsAsciiSpace(c)
  }

  /** The whitespace ECMAScript's `trimEnd` removes. */
  predicate IsJsSpace(c: char) {
    var n := c as int;
    0x09 <= n <= 0x0D || n == 0x20 || n == 0xA0 || n == 0x1680 || 0x2000 <= n <= 0x200A
    || n == 0x2028 || n == 0x2029 || n == 0x202F || n == 0x205F || n == 0x3000 || n == 0xFEFF
  }

  function LowerChar(c: char): char {
    if 'A' <= c <= 'Z' then (c as int + 32) as char else c
  }

  /** `lower()` of a tag name, which is ASCII. */
  function LowerName(s: string): string {
    seq(|s|, i requires 0 <= i < |s| => LowerChar(s[i]))
  }

  const VOID_ELEMENTS := [
    "area", "base", "br", "col", "embed", "hr", "img", "input",
    "link", "meta", "param", "source", "track", "wbr"]

  /** `attrs.rstrip(ws).endswith("/")` */
  predicate SelfClosing(attrs: string) {
    attrs != "" &&
    var last := attrs[|attrs| - 1];
    if IsJsSpace(last) then SelfClosing(attrs[..|attrs| - 1]) else last == '/'
  }

  // ----- The end of a tag -----

  /** The quotation mark that is open before index i, when attributes start at `start`. */
  function QuoteAt(text: string, start: nat, i: nat): Option<char>
    requires start <= i <= |text|
  {
    if i == start then None
    else
      var open, c := QuoteAt(text, start, i - 1), text[i - 1];
      if open.Some? then if c == open.value then None else open
      else if c == '"' || c == '\'' then Some(c) else None
  }

  /** An unquoted `>`. */
  predicate EndsTag(text: string, start: nat, i: nat)
    requires start <= i < |text|
  {
    text[i] == '>' && QuoteAt(text, start, i).None?
  }

  /** The first unquoted `>` from index i on, or -1. */
  function TagEndFrom(text: string, start: nat, i: nat): (r: int)
    requires start <= i <= |text|
    ensures r == -1 || i <= r < |text|
    decreases |text| - i
  {
    if i == |text| then -1 else if EndsTag(text, start, i) then i else TagEndFrom(text, start, i + 1)
  }

  function TagEnd(text: string, start: nat): (r: int)
    requires start <= |text|
    ensures r == -1 || start <= r < |text|
  {
    TagEndFrom(text, start, start)
  }

  lemma {:induction false} TagEndFirst(text: string, start: nat, i: nat)
    requires start <= i <= |text|
    ensures var r := TagEndFrom(text, start, i);
      && (r >= 0 ==> EndsTag(text, start, r))
      && forall k :: i <= k < (if r >= 0 then r else |text|) ==> !EndsTag(text, start, k)
    decreases |text| - i
  {
    if i < |text| && !EndsTag(text, start, i) {
      TagEndFirst(text, start, i + 1);
    }
  }

  /** `_find_tag_end` */
  method FindTagEnd(text: string, start: nat) returns (r: int)
    requires start <= |text|
    ensures r == TagEnd(text, start)
  {
    var quote: Option<char> := None;
    for i := start to |text|
      invariant quote == QuoteAt(text, start, i)
      invariant TagEndFrom(text, start, i) == TagEnd(text, start)
    {
      var c := text[i];
      if quote.Some? {
        if c == quote.value {
          quote := None;
        }
        continue;
      }
      if c == '"' || c == '\'' {
        quote := Some(c);
        continue;
      }
      if c == '>' {
        return i;
      }
    }
    r := -1;
  }

  // ----- Tags -----

  /** A complete tag: `<`, an optional `/`, a name, attributes, `>`. */
  datatype Tag = Tag(lt: nat, closing: bool, name: string, attrs: string, end: nat)

  ghost predicate IsTag(text: string, t: Tag) {
    var nameStart := t.lt + if t.closing then 2 else 1;
    && nameStart < |text| && text[t.lt] == '<' && (t.closing ==> text[t.lt + 1] == '/')
    && IsTagNameStart(text[nameStart])
    && var p := Span(text, nameStart, IsTagNameChar);
    && t.end == TagEnd(text, p)
    && t.name == LowerName(text[nameStart..p])
    && t.attrs == text[p..t.end]
  }

  /** What a `<` begins. */
  datatype Mark = NoName | Unterminated | Complete(tag: Tag)

  /** The tag at lt, read as a closing or as an opening one. */
  function MarkFor(text: string, lt: nat, closing: bool): (m: Mark)
    requires lt < |text| && text[lt] == '<' && (closing ==> lt + 1 < |text| && text[lt + 1] == '/')
    ensures m.Complete? ==> m.tag.lt == lt < m.tag.end < |text| && m.tag.closing == closing
  {
    var nameStart := lt + if closing then 2 else 1;
    if nameStart >= |text| || !IsTagNameStart(text[nameStart]) then NoName
    else
      var p := Span(text, nameStart, IsTagNameChar);
      var end := TagEnd(text, p);
      if end == -1 then Unterminated
      else Complete(Tag(lt, closing, LowerName(text[nameStart..p]), text[p..end], end))
  }

  method ReadMark(text: string, lt: nat, closing: bool) returns (m: Mark)
    requires lt < |text| && text[lt] == '<' && (closing ==> lt + 1 < |text| && text[lt + 1] == '/')
    ensures m == MarkFor(text, lt, closing)
  {
    var nameStart := lt + if closing then 2 else 1;
    if nameStart >= |text| || !IsTagNameStart(text[nameStart]) {
      return NoName;
    }
    var p := Skip(text, nameStart, IsTagNameChar);
    var end := FindTagEnd(text, p);
    if end == -1 {
      return Unterminated;
    }
    m := Complete(Tag(lt, closing, LowerName(text[nameStart..p]), text[p..end], end));
  }

  /** Opening or closing tag at a `<`. */
  function MarkAt(text: string, lt: nat): (m: Mark)
    requires lt < |text| && text[lt] == '<'
    ensures m.Complete? ==> m.tag.lt == lt < m.tag.end < |text|
  {
    MarkFor(text, lt, lt + 1 < |text| && text[lt + 1] == '/')
  }

  // ----- The matching closer -----

  /** The complete tags from `scan` on, up to the first unterminated one. */
  function Tags(text: string, scan: nat): seq<Tag>
    requires scan <= |text|
    decreases |text| - scan
  {
    var lt := Find(text, '<', scan);
    if lt == -1 then []
    else
      match MarkAt(text, lt)
      case NoName => Tags(text, lt + 1)
      case Unterminated => []
      case Complete(t) => [t] + Tags(text, t.end + 1)
  }

  lemma {:induction false} TagsInText(text: string, scan: nat)
    requires scan <= |text|
    ensures forall t :: t in Tags(text, scan) ==> scan <= t.lt < t.end < |text| && IsTag(text, t)
    decreases |text| - scan
  {
    hide IsTag, MarkFor;
    var lt := Find(text, '<', scan);
    TagsStep(text, scan, lt);
    if lt != -1 {
      match MarkAt(text, lt)
      case NoName => TagsInText(text, lt + 1);
      case Unterminated =>
      case Complete(t) =>
        MarkIsTag(text, lt, t.closing);
        TagsInText(text, t.end + 1);
    }
  }

  lemma MarkIsTag(text: string, lt: nat, closing: bool)
    requires lt < |text| && text[lt] == '<' && (closing ==> lt + 1 < |text| && text[lt + 1] == '/')
    requires MarkFor(text, lt, closing).Complete?
    ensures IsTag(text, MarkFor(text, lt, closing).tag)
  {
  }

  /** How a tag changes the nesting depth of elements called `name`. */
  function Nesting(t: Tag, name: string): int {
    if t.name != name then 0
    else if t.closing then -1
    else if !SelfClosing(t.attrs) && name !in VOID_ELEMENTS then 1
    else 0
  }

  /** The nesting depth after the first k tags. */
  function Depth(ts: seq<Tag>, name: string, depth: int, k: nat): int
    requires k <= |ts|
  {
    if k == 0 then depth else Depth(ts, name, depth, k - 1) + Nesting(ts[k - 1], name)
  }

  /** The index just past the closer that brings the depth down to zero, or -1. */
  function CloserIn(ts: seq<Tag>, name: string, depth: int): int {
    if ts == [] then -1
    else
      var d := depth + Nesting(ts[0], name);
      if d == 0 then ts[0].end + 1 else CloserIn(ts[1..], name, d)
  }

  function Closer(text: string, scan: nat, name: string): (r: int)
    requires scan <= |text|
    ensures r == -1 || scan < r <= |text|
  {
    TagsInText(text, scan);
    CloserBound(Tags(text, scan), name, 1);
    CloserIn(Tags(text, scan), name, 1)
  }

  lemma {:induction false} CloserBound(ts: seq<Tag>, name: string, depth: int)
    ensures var r := CloserIn(ts, name, depth); r == -1 || exists t :: t in ts && r == t.end + 1
  {
    if ts != [] && depth + Nesting(ts[0], name) != 0 {
      CloserBound(ts[1..], name, depth + Nesting(ts[0], name));
    }
  }

  ghost predicate StaysOpen(ts: seq<Tag>, name: string, depth: int, n: nat)
    requires n <= |ts|
  {
    forall j :: 0 <= j <= n ==> Depth(ts, name, depth, j) > 0
  }

  /** The k-th tag is the first to bring the depth to zero, so it is a closer called `name`. */
  ghost predicate ClosesAt(ts: seq<Tag>, name: string, depth: int, k: int, r: int) {
    && 0 <= k < |ts| && ts[k].closing && ts[k].name == name && r == ts[k].end + 1
    && Depth(ts, name, depth, k + 1) == 0 && StaysOpen(ts, name, depth, k)
  }

  ghost predicate IsCloser(ts: seq<Tag>, name: string, depth: int, r: int) {
    if r == -1 then StaysOpen(ts, name, depth, |ts|) else exists k :: ClosesAt(ts, name, depth, k, r)
  }

  /** The closer found is the first same-name tag at which the depth returns to zero; when none
      is found, the depth never does. */
  lemma {:induction false} CloserMeaning(ts: seq<Tag>, name: string, depth: int)
    requires depth >= 1
    ensures IsCloser(ts, name, depth, CloserIn(ts, name, depth))
  {
    if ts != [] {
      var t, rest := ts[0], ts[1..];
      var d := depth + Nesting(t, name);
      assert ts == [t] + rest;
      assert Depth(ts, name, depth, 0) == depth;
      if d == 0 {
        assert ClosesAt(ts, name, depth, 0, t.end + 1);
      } else {
        CloserMeaning(rest, name, d);
        CloserShift(t, rest, name, depth, CloserIn(rest, name, d));
      }
    }
  }

  lemma {:induction false} DepthShift(t: Tag, rest: seq<Tag>, name: string, depth: int, k: nat)
    requires k <= |rest|
    ensures Depth([t] + rest, name, depth, k + 1) == Depth(rest, name, depth + Nesting(t, name), k)
  {
    if k == 0 {
      assert Depth([t] + rest, name, depth, 0) == depth;
    } else {
      DepthShift(t, rest, name, depth, k - 1);
    }
  }

  lemma CloserShift(t: Tag, rest: seq<Tag>, name: string, depth: int, r: int)
    requires depth >= 1 && IsCloser(rest, name, depth + Nesting(t, name), r)
    ensures IsCloser([t] + rest, name, depth, r)
  {
    var ts, d := [t] + rest, depth + Nesting(t, name);
    assert Depth(ts, name, depth, 0) == depth;
    forall j | 0 <= j <= |rest| ensures Depth(ts, name, depth, j + 1) == Depth(rest, name, d, j) {
      DepthShift(t, rest, name, depth, j);
    }
    if r == -1 {
      forall j | 0 <= j <= |ts| ensures Depth(ts, name, depth, j) > 0 {
        assert j > 0 ==> Depth(rest, name, d, j - 1) > 0;
      }
    } else {
      var k :| ClosesAt(rest, name, d, k, r);
      forall j | 0 <= j <= k + 1 ensures Depth(ts, name, depth, j) > 0 {
        assert j > 0 ==> Depth(rest, name, d, j - 1) > 0;
      }
      assert ClosesAt(ts, name, depth, k + 1, r);
    }
  }

  /** What the next `<` contributes to the list of tags. */
  lemma TagsStep(text: string, scan: nat, lt: int)
    requires scan <= |text| && lt == Find(text, '<', scan)
    ensures lt == -1 ==> Tags(text, scan) == []
    ensures lt != -1 && MarkAt(text, lt).NoName? ==> Tags(text, scan) == Tags(text, lt + 1)
    ensures lt != -1 && MarkAt(text, lt).Unterminated? ==> Tags(text, scan) == []
    ensures lt != -1 && MarkAt(text, lt).Complete? ==>
              Tags(text, scan) == [MarkAt(text, lt).tag] + Tags(text, MarkAt(text, lt).tag.end + 1)
  {
  }

  lemma CloserCons(t: Tag, rest: seq<Tag>, name: string, depth: int)
    ensures var d := depth + Nesting(t, name);
      CloserIn([t] + rest, name, depth) == if d == 0 then t.end + 1 else CloserIn(rest, name, d)
  {
    assert ([t] + rest)[1..] == rest;
  }

  /** `_index_of_closing_tag` */
  method IndexOfClosingTag(text: string, start: nat, name: string) returns (r: int)
    requires start <= |text|
    ensures r == Closer(text, start, name)
  {
    hide Tags, MarkFor;
    var depth := 1;
    var scan := start;
    ghost var total := Closer(text, start, name);
    while scan < |text|
      invariant scan <= |text| && depth >= 1
      invariant CloserIn(Tags(text, scan), name, depth) == total
    {
      var lt := Find(text, '<', scan);
      TagsStep(text, scan, lt);
      if lt == -1 {
        return -1;
      }
      var mark := ReadMark(text, lt, lt + 1 < |text| && text[lt + 1] == '/');
      if mark.NoName? {
        scan := lt + 1;
        continue;
      }
      if mark.Unterminated? {
        return -1;
      }
      var tag := mark.tag;
      CloserCons(tag, Tags(text, tag.end + 1), name, depth);
      if tag.name == name {
        if tag.closing {
          depth := depth - 1;
          if depth == 0 {
            return tag.end + 1;
          }
        } else if !SelfClosing(tag.attrs) && name !in VOID_ELEMENTS {
          depth := depth + 1;
        }
      }
      scan := tag.end + 1;
    }
    TagsStep(text, scan, Find(text, '<', scan));
    r := -1;
  }

  // ----- Hiding attributes -----

  datatype Attribute = Attribute(name: string, value: string)

  /** One attribute read from index i on, and where reading resumes. */
  datatype Reading = NoMore | Read(attribute: Attribute, next: nat)

  function ReadAttribute(s: string, i: nat): (r: Reading)
    requires i <= |s|
    ensures r.Read? ==> i < r.next <= |s| && Contains(s, r.attribute.name)
  {
    var nameStart := Span(s, i, NotNameStart);
    if nameStart == |s| then NoMore
    else
      var p := Span(s, nameStart, IsTagNameChar);
      var name := s[nameStart..p];
      assert OccursAt(s, name, nameStart);
      var (value, next) := ReadValue(s, p);
      Read(Attribute(name, value), next)
  }

  /** The value after an attribute name that ends at p, and where reading resumes. */
  function ReadValue(s: string, p: nat): (r: (string, nat))
    requires p <= |s|
    ensures p <= r.1 <= |s|
  {
    var eq := Span(s, p, IsAsciiSpace);
    if eq == |s| || s[eq] != '=' then ("", eq)
    else
      var v := Span(s, eq + 1, IsAsciiSpace);
      if v < |s| && (s[v] == '"' || s[v] == '\'') then
        var end := Find(s, s[v], v + 1);
        if end == -1 then (s[v + 1..], |s|) else (s[v + 1..end], end + 1)
      else
        var end := Span(s, v, NotSpace);
        (s[v..end], end)
  }

  /** The attributes of a tag, in order. */
  function Attributes(s: string, i: nat): (attrs: seq<Attribute>)
    requires i <= |s|
    ensures forall a :: a in attrs ==> Contains(s, a.name)
    decreases |s| - i
  {
    var r := ReadAttribute(s, i);
    if r.NoMore? then [] else [r.attribute] + Attributes(s, r.next)
  }

  // ----- Reading what was written -----

  /** An attribute name, and a value that double quotes can hold. */
  predicate Writable(a: Attribute) {
    a.name != "" && IsTagNameStart(a.name[0]) && AllNameChars(a.name) && '"' !in a.value
  }

  predicate AllNameChars(s: string) {
    forall i :: 0 <= i < |s| ==> IsTagNameChar(s[i])
  }

  function WriteAttribute(a: Attribute): string {
    " " + a.name + "=\"" + a.value + "\""
  }

  function WriteAttributes(attrs: seq<Attribute>): string {
    if attrs == [] then "" else WriteAttribute(attrs[0]) + WriteAttributes(attrs[1..])
  }

  /** Attributes written with their values in double quotes are read back, whatever comes before and
      whatever without a letter comes behind. */
  lemma {:induction false} AttributesReadBack(s: string, before: string, attrs: seq<Attribute>, tail: string)
    requires s == before + WriteAttributes(attrs) + tail
    requires (forall a :: a in attrs ==> Writable(a)) && forall i :: 0 <= i < |tail| ==> NotNameStart(tail[i])
    ensures Attributes(s, |before|) == attrs
    decreases |attrs|
  {
    if attrs == [] {
      SpanExact(s, |before|, |s|, NotNameStart);
    } else {
      var a, rest := attrs[0], attrs[1..];
      var written, later := WriteAttribute(a), WriteAttributes(rest);
      assert WriteAttributes(attrs) == written + later;
      hide *;
      assert attrs == [a] + rest && a in attrs;
      Reassociate(s, before, written, later, tail);
      ReadBack(s, before, a, later + tail);
      AttributesReadBack(s, before + written, rest, tail);
      AttributesStep(s, |before|);
    }
  }

  lemma Reassociate(s: string, a: string, b: string, c: string, d: string)
    requires s == a + (b + c) + d
    ensures s == a + b + (c + d) && s == (a + b) + c + d
  {
  }

  /** So an element written with lower-case attributes is hidden exactly when one of them hides it. */
  lemma HiddenAsWritten(lower: string -> string, attrs: seq<Attribute>, tail: string)
    requires (forall a :: a in attrs ==> Writable(a)) && forall i :: 0 <= i < |tail| ==> NotNameStart(tail[i])
    requires lower(WriteAttributes(attrs) + tail) == WriteAttributes(attrs) + tail
    ensures Hidden(lower, WriteAttributes(attrs) + tail) <==> HasHiding(attrs)
  {
    hide Attributes, WriteAttributes, HasHiding, Writable, NotNameStart;
    var s := WriteAttributes(attrs) + tail;
    assert s == "" + WriteAttributes(attrs) + tail;
    AttributesReadBack(s, "", attrs, tail);
  }

  lemma AttributesStep(s: string, i: nat)
    requires i <= |s|
    ensures var r := ReadAttribute(s, i);
      Attributes(s, i) == if r.NoMore? then [] else [r.attribute] + Attributes(s, r.next)
  {
    hide ReadAttribute;
  }

  /** One written attribute is read back, and reading resumes behind it. */
  lemma ReadBack(s: string, before: string, a: Attribute, tail: string)
    requires Writable(a) && s == before + WriteAttribute(a) + tail
    ensures ReadAttribute(s, |before|) == Read(a, |before + WriteAttribute(a)|)
  {
    hide ReadValue;
    var n, p := |before| + 1, |before| + 1 + |a.name|;
    assert s[|before|] == ' ';
    assert s[n..p] == a.name;
    forall i | n <= i < p ensures IsTagNameChar(s[i]) {
      assert s[i] == s[n..p][i - n];
    }
    assert s[n] == a.name[0] && s[p] == '=';
    SpanExact(s, |before|, n, NotNameStart);
    SpanExact(s, n, p, IsTagNameChar);
    assert s == (before + " " + a.name) + "=\"" + a.value + "\"" + tail;
    ValueReadBack(before + " " + a.name, a.value, tail);
  }

  lemma ValueReadBack(before: string, value: string, tail: string)
    requires '"' !in value
    ensures ReadValue(before + "=\"" + value + "\"" + tail, |before|) == (value, |before| + |value| + 3)
  {
    var s := before + "=\"" + value + "\"" + tail;
    var p := |before|;
    var end := p + 2 + |value|;
    assert s[p] == '=' && s[p + 1] == '"' && s[end] == '"';
    SpanExact(s, p, p, IsAsciiSpace);
    SpanExact(s, p + 1, p + 1, IsAsciiSpace);
    assert s[p + 2..end] == value;
    forall i | p + 2 <= i < end ensures s[i] != '"' {
      assert s[i] == value[i - p - 2];
    }
    FindExact(s, '"', p + 2, end);
  }

  /** The value with its whitespace squeezed out. */
  function Squeeze(s: string): string {
    if s == "" then ""
    else Squeeze(s[..|s| - 1]) + if IsAsciiSpace(s[|s| - 1]) then "" else [s[|s| - 1]]
  }

  /** `aria-hidden="true"`, or a style that displays nothing. */
  predicate Hides(a: Attribute) {
    || (a.name == "aria-hidden" && a.value == "true")
    || (a.name == "style" && var css := Squeeze(a.value);
        Contains(css, "display:none") || Contains(css, "visibility:hidden"))
  }

  predicate HasHiding(attrs: seq<Attribute>) {
    exists i :: 0 <= i < |attrs| && Hides(attrs[i])
  }

  /** Some attribute hides the element. */
  predicate Hidden(lower: string -> string, attrs: string) {
    HasHiding(Attributes(lower(attrs), 0))
  }

  /** `_has_hidden_attribute`. The early return and the skipped values do not change the answer. */
  method HasHiddenAttribute(lower: string -> string, attrs: string) returns (hidden: bool)
    ensures hidden == Hidden(lower, attrs)
  {
    var s := lower(attrs);
    if !Contains(s, "aria-hidden") && !Contains(s, "style") {
      return false;
    }
    var i := 0;
    while i < |s|
      invariant i <= |s| && HasHiding(Attributes(s, i)) == HasHiding(Attributes(s, 0))
    {
      var reading := ScanAttribute(s, i);
      if reading.NoMore? {
        return false;
      }
      var rest := Attributes(s, reading.next);
      assert Attributes(s, i) == [reading.attribute] + rest;
      var a := reading.attribute;
      HidingStep(a, rest);
      i := reading.next;
      if a.name != "aria-hidden" && a.name != "style" {
        continue;
      }
      if a.name == "aria-hidden" && a.value == "true" {
        return true;
      }
      if a.name == "style" {
        var css := Squeeze(a.value);
        if Contains(css, "display:none") || Contains(css, "visibility:hidden") {
          return true;
        }
      }
    }
    return false;
  }

  lemma HidingStep(a: Attribute, rest: seq<Attribute>)
    ensures HasHiding([a] + rest) <==> Hides(a) || HasHiding(rest)
  {
    var all := [a] + rest;
    if HasHiding(all) {
      var i :| 0 <= i < |all| && Hides(all[i]);
      assert i > 0 ==> all[i] == rest[i - 1];
    }
    if HasHiding(rest) {
      var i :| 0 <= i < |rest| && Hides(rest[i]);
      assert all[i + 1] == rest[i];
    }
    assert all[0] == a;
  }

  /** The body of the attribute loop. */
  method ScanAttribute(s: string, start: nat) returns (r: Reading)
    requires start <= |s|
    ensures r == ReadAttribute(s, start)
  {
    var nameStart := Skip(s, start, NotNameStart);
    var i := Skip(s, nameStart, IsTagNameChar);
    if i == nameStart {
      return NoMore;
    }
    var name := s[nameStart..i];
    var value, next := ScanValue(s, i);
    r := Read(Attribute(name, value), next);
  }

  method ScanValue(s: string, p: nat) returns (value: string, next: nat)
    requires p <= |s|
    ensures (value, next) == ReadValue(s, p)
  {
    value := "";
    var i := Skip(s, p, IsAsciiSpace);
    if i < |s| && s[i] == '=' {
      i := Skip(s, i + 1, IsAsciiSpace);
      if i < |s| && (s[i] == '"' || s[i] == '\'') {
        var end := Find(s, s[i], i + 1);
        value := if end == -1 then s[i + 1..] else s[i + 1..end];
        i := if end == -1 then |s| else end + 1;
      } else {
        var valueStart := i;
        i := Skip(s, i, NotSpace);
        value := s[valueStart..i];
      }
    }
    next := i;
  }

  // ----- Removing hidden elements -----

  /** Where the removal of a hidden element stops. */
  function RegionEnd(text: string, t: Tag): (hi: nat)
    requires t.end < |text|
    ensures t.end < hi <= |text|
  {
    if SelfClosing(t.attrs) || t.name in VOID_ELEMENTS then t.end + 1
    else
      var close := Closer(text, t.end + 1, t.name);
      if close == -1 then t.end + 1 else close
  }

  /** A removed interval, from the `<` of a tag to `hi`. */
  datatype Region = Region(tag: Tag, hi: nat)

  /** The intervals removed from `scan` on. */
  function Regions(text: string, scan: nat, lower: string -> string): seq<Region>
    requires scan <= |text|
    decreases |text| - scan
  {
    var lt := Find(text, '<', scan);
    if lt == -1 then []
    else
      var m := MarkFor(text, lt, false);
      if !m.Complete? then Regions(text, lt + 1, lower)
      else if !Hidden(lower, m.tag.attrs) then Regions(text, m.tag.end + 1, lower)
      else
        var hi := RegionEnd(text, m.tag);
        [Region(m.tag, hi)] + Regions(text, hi, lower)
  }

  /** The intervals are non-empty, disjoint, in order and inside the text. */
  ghost predicate Ordered(text: string, from: nat, rs: seq<Region>)
    decreases |rs|
  {
    && from <= |text|
    && (rs != [] ==> from <= rs[0].tag.lt < rs[0].hi <= |text| && Ordered(text, rs[0].hi, rs[1..]))
  }

  /** The text from `from` on without the intervals. */
  ghost function Kept(text: string, from: nat, rs: seq<Region>): string
    requires Ordered(text, from, rs)
    decreases |rs|
  {
    if rs == [] then text[from..] else text[from..rs[0].tag.lt] + Kept(text, rs[0].hi, rs[1..])
  }

  lemma RegionsStep(text: string, scan: nat, lower: string -> string, lt: int)
    requires scan <= |text| && lt == Find(text, '<', scan)
    ensures lt == -1 ==> Regions(text, scan, lower) == []
    ensures lt != -1 ==>
      var m := MarkFor(text, lt, false);
      && (!m.Complete? ==> Regions(text, scan, lower) == Regions(text, lt + 1, lower))
      && (m.Complete? && !Hidden(lower, m.tag.attrs) ==>
            Regions(text, scan, lower) == Regions(text, m.tag.end + 1, lower))
      && (m.Complete? && Hidden(lower, m.tag.attrs) ==>
            Regions(text, scan, lower) ==
            [Region(m.tag, RegionEnd(text, m.tag))] + Regions(text, RegionEnd(text, m.tag), lower))
  {
  }

  lemma {:induction false} RegionsOrdered(text: string, from: nat, scan: nat, lower: string -> string)
    requires from <= scan <= |text|
    ensures Ordered(text, from, Regions(text, scan, lower))
    decreases |text| - scan
  {
    var lt := Find(text, '<', scan);
    RegionsStep(text, scan, lower, lt);
    if lt != -1 {
      var m := MarkFor(text, lt, false);
      if !m.Complete? {
        RegionsOrdered(text, from, lt + 1, lower);
      } else if !Hidden(lower, m.tag.attrs) {
        RegionsOrdered(text, from, m.tag.end + 1, lower);
      } else {
        var hi := RegionEnd(text, m.tag);
        RegionsOrdered(text, hi, hi, lower);
        assert Regions(text, scan, lower)[1..] == Regions(text, hi, lower);
      }
    }
  }

  /** What is still to be written when everything before `emitted` was and `scan` is next. */
  ghost function Rest(text: string, emitted: nat, scan: nat, lower: string -> string): string
    requires emitted <= scan <= |text|
  {
    RegionsOrdered(text, emitted, scan, lower);
    Kept(text, emitted, Regions(text, scan, lower))
  }

  /** The text without its hidden elements. */
  ghost function Visible(text: string, lower: string -> string): string {
    Rest(text, 0, 0, lower)
  }

  /** No `<` is left. */
  lemma RestEnds(text: string, emitted: nat, scan: nat, lower: string -> string)
    requires emitted <= scan <= |text| && Find(text, '<', scan) == -1
    ensures Rest(text, emitted, scan, lower) == text[emitted..]
  {
    RegionsStep(text, scan, lower, -1);
  }

  /** The next `<` begins no tag, or a visible one. */
  lemma RestSkips(text: string, emitted: nat, scan: nat, lower: string -> string, lt: nat, next: nat)
    requires emitted <= scan <= |text| && lt == Find(text, '<', scan)
    requires var m := MarkFor(text, lt, false);
      if m.Complete? then !Hidden(lower, m.tag.attrs) && next == m.tag.end + 1 else next == lt + 1
    ensures Rest(text, emitted, scan, lower) == Rest(text, emitted, next, lower)
  {
    hide Regions, MarkFor, Hidden;
    RegionsStep(text, scan, lower, lt);
  }

  /** The next `<` begins a hidden element. */
  lemma RestRemoves(text: string, emitted: nat, scan: nat, lower: string -> string, lt: nat, hi: nat, out: string)
    requires emitted <= scan <= |text| && lt == Find(text, '<', scan)
    requires var m := MarkFor(text, lt, false);
      m.Complete? && Hidden(lower, m.tag.attrs) && hi == RegionEnd(text, m.tag)
    ensures out + Rest(text, emitted, scan, lower) == (out + text[emitted..lt]) + Rest(text, hi, hi, lower)
  {
    RegionsStep(text, scan, lower, lt);
    RegionsOrdered(text, emitted, scan, lower);
    RegionsOrdered(text, hi, hi, lower);
    assert Regions(text, scan, lower)[1..] == Regions(text, hi, lower);
    Assoc(out, text[emitted..lt], Rest(text, hi, hi, lower));
  }

  /** `strip_hidden_html` */
  method StripHiddenHtml(lower: string -> string, text: string) returns (visible: string)
    ensures visible == Visible(text, lower)
  {
    hide Rest;
    if '<' !in text {
      RestEnds(text, 0, 0, lower);
      return text;
    }
    var out: string := "";
    var changed := false;
    var emitted: nat, scan: nat := 0, 0;
    ghost var total := Visible(text, lower);
    while scan < |text|
      invariant emitted <= scan <= |text| && (!changed ==> emitted == 0 && out == "")
      invariant out + Rest(text, emitted, scan, lower) == total
    {
      var lt := Find(text, '<', scan);
      if lt == -1 {
        break;
      }
      var mark := ReadMark(text, lt, false);
      if !mark.Complete? {
        RestSkips(text, emitted, scan, lower, lt, lt + 1);
        scan := lt + 1;
        continue;
      }
      var tag := mark.tag;
      var hidden := HasHiddenAttribute(lower, tag.attrs);
      if !hidden {
        RestSkips(text, emitted, scan, lower, lt, tag.end + 1);
        scan := tag.end + 1;
        continue;
      }
      var regionEnd := FindRegionEnd(text, tag);
      RestRemoves(text, emitted, scan, lower, lt, regionEnd, out);
      out, changed := out + text[emitted..lt], true;
      emitted := regionEnd;
      scan := regionEnd;
    }
    RestEnds(text, emitted, scan, lower);
    if !changed {
      return text;
    }
    visible := out + text[emitted..];
  }

  lemma Assoc(a: string, b: string, c: string)
    ensures a + (b + c) == (a + b) + c
  {
  }

  /** The choice of `region_end`. */
  method FindRegionEnd(text: string, tag: Tag) returns (regionEnd: nat)
    requires tag.end < |text|
    ensures regionEnd == RegionEnd(text, tag)
  {
    if SelfClosing(tag.attrs) || tag.name in VOID_ELEMENTS {
      regionEnd := tag.end + 1;
    } else {
      var close := IndexOfClosingTag(text, tag.end + 1, tag.name);
      regionEnd := if close == -1 then tag.end + 1 else close;
    }
  }

  // ----- What is removed -----

  /** A region is a hidden opening tag with the content up to its matching closer; a void,
      self-closing or unterminated element loses its own tag only. */
  ghost predicate HiddenElement(text: string, lower: string -> string, r: Region) {
    var t := r.tag;
    && IsTag(text, t) && t.end < |text| && !t.closing && Hidden(lower, t.attrs)
    && if SelfClosing(t.attrs) || t.name in VOID_ELEMENTS then r.hi == t.end + 1
       else
         var ts := Tags(text, t.end + 1);
         if StaysOpen(ts, t.name, 1, |ts|) then r.hi == t.end + 1
         else exists k :: ClosesAt(ts, t.name, 1, k, r.hi)
  }

  lemma RegionEndMeaning(text: string, lower: string -> string, t: Tag)
    requires IsTag(text, t) && t.end < |text| && !t.closing && Hidden(lower, t.attrs)
    ensures HiddenElement(text, lower, Region(t, RegionEnd(text, t)))
  {
    hide IsTag, Hidden, SelfClosing, Tags, Depth, CloserIn;
    var ts := Tags(text, t.end + 1);
    CloserMeaning(ts, t.name, 1);
    if Closer(text, t.end + 1, t.name) != -1 {
      var k :| ClosesAt(ts, t.name, 1, k, Closer(text, t.end + 1, t.name));
      assert Depth(ts, t.name, 1, k + 1) == 0;
    }
  }

  /** Every interval removed is a hidden element. */
  lemma {:induction false} OnlyHiddenRemoved(text: string, scan: nat, lower: string -> string)
    requires scan <= |text|
    ensures forall r :: r in Regions(text, scan, lower) ==> HiddenElement(text, lower, r)
    decreases |text| - scan
  {
    hide Regions, MarkFor, Hidden, HiddenElement, RegionEnd, IsTag;
    var lt := Find(text, '<', scan);
    RegionsStep(text, scan, lower, lt);
    if lt != -1 {
      var m := MarkFor(text, lt, false);
      if !m.Complete? {
        OnlyHiddenRemoved(text, lt + 1, lower);
      } else if !Hidden(lower, m.tag.attrs) {
        OnlyHiddenRemoved(text, m.tag.end + 1, lower);
      } else {
        MarkIsTag(text, lt, false);
        RegionEndMeaning(text, lower, m.tag);
        OnlyHiddenRemoved(text, RegionEnd(text, m.tag), lower);
      }
    }
  }

  /** A complete opening tag at x. */
  predicate OpensAt(text: string, x: int) {
    0 <= x < |text| && text[x] == '<' && MarkFor(text, x, false).Complete?
  }

  ghost predicate Removed(rs: seq<Region>, x: int) {
    exists i :: 0 <= i < |rs| && rs[i].tag.lt <= x < rs[i].hi
  }

  /** x lies inside the text of a visible tag that starts before it. */
  ghost predicate InsideVisibleTag(text: string, lower: string -> string, x: int) {
    exists y :: OpensAt(text, y) && y < x && VisibleTagSpans(text, lower, y, x)
  }

  ghost predicate VisibleTagSpans(text: string, lower: string -> string, y: int, x: int)
    requires OpensAt(text, y)
  {
    var t := MarkFor(text, y, false).tag;
    x <= t.end && !Hidden(lower, t.attrs)
  }

  /** Every hidden opening tag is removed, except where it is only part of a visible tag's own
      text. */
  lemma {:induction false} EveryHiddenRemoved(text: string, scan: nat, lower: string -> string, x: int)
    requires scan <= x && OpensAt(text, x) && Hidden(lower, MarkFor(text, x, false).tag.attrs)
    ensures Removed(Regions(text, scan, lower), x) || InsideVisibleTag(text, lower, x)
    decreases |text| - scan
  {
    hide MarkFor, Hidden, Regions, RegionEnd;
    var lt := Find(text, '<', scan);
    RegionsStep(text, scan, lower, lt);
    FindFirst(text, '<', scan);
    var m := MarkFor(text, lt, false);
    if !m.Complete? {
      EveryHiddenRemoved(text, lt + 1, lower, x);
    } else if !Hidden(lower, m.tag.attrs) {
      if x <= m.tag.end {
        assert VisibleTagSpans(text, lower, lt, x);
      } else {
        EveryHiddenRemoved(text, m.tag.end + 1, lower, x);
      }
    } else {
      var hi := RegionEnd(text, m.tag);
      if x >= hi {
        EveryHiddenRemoved(text, hi, lower, x);
      }
      RemovedCons(Region(m.tag, hi), Regions(text, hi, lower), x);
    }
  }

  lemma RemovedCons(r: Region, rest: seq<Region>, x: int)
    ensures Removed([r] + rest, x) <==> r.tag.lt <= x < r.hi || Removed(rest, x)
  {
    var rs := [r] + rest;
    assert rs[0] == r;
    if Removed(rest, x) {
      var i :| 0 <= i < |rest| && rest[i].tag.lt <= x < rest[i].hi;
      assert rs[i + 1] == rest[i];
    }
    if Removed(rs, x) {
      var i :| 0 <= i < |rs| && rs[i].tag.lt <= x < rs[i].hi;
      assert i > 0 ==> rs[i] == rest[i - 1];
    }
  }

  /** Nothing is added, so the result is no longer than the text. */
  lemma {:induction false} KeptShrinks(text: string, from: nat, rs: seq<Region>)
    requires Ordered(text, from, rs)
    ensures |Kept(text, from, rs)| <= |text| - from
    ensures rs != [] ==> |Kept(text, from, rs)| < |text| - from
    ensures forall c :: c in Kept(text, from, rs) ==> c in text
    decreases |rs|
  {
    if rs != [] {
      KeptShrinks(text, rs[0].hi, rs[1..]);
    }
  }
}
