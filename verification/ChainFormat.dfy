/** The byte strings that are hashed and the text that is signed, for chain formats 1 to 5.
    Hashed text is represented by its UTF-8 bytes; SHA-256 is the parameter `hash`. */
module ChainFormat {
  import opened Wrappers
  import opened Strings

  const U64: int := 0x1_0000_0000_0000_0000

  /** Byte strings whose length fits the 8-byte length prefix: all that a runtime can hold. */
  type Bytes = s: seq<byte> | |s| < U64

  type Digest = Bytes -> string

  // ----- Framing -----

  /** The low k base-256 digits of n, most significant first. */
  function BigEndian(n: nat, k: nat): (s: seq<byte>)
    ensures |s| == k
  {
    if k == 0 then [] else BigEndian(n / 256, k - 1) + [n % 256]
  }

  /** `struct.pack(">Q", n)` */
  function U64be(n: nat): (s: seq<byte>)
    requires n < U64
    ensures |s| == 8
  {
    BigEndian(n, 8)
  }

  function Power256(k: nat): nat {
    if k == 0 then 1 else 256 * Power256(k - 1)
  }

  lemma {:induction false} BigEndianInjective(m: nat, n: nat, k: nat)
    requires m < Power256(k) && n < Power256(k) && BigEndian(m, k) == BigEndian(n, k)
    ensures m == n
  {
    if k > 0 {
      var a, b := BigEndian(m / 256, k - 1), BigEndian(n / 256, k - 1);
      assert BigEndian(m, k) == a + [m % 256] && BigEndian(n, k) == b + [n % 256];
      assert (a + [m % 256])[..k - 1] == a && (b + [n % 256])[..k - 1] == b;
      assert (a + [m % 256])[k - 1] == m % 256 && (b + [n % 256])[k - 1] == n % 256;
      BigEndianInjective(m / 256, n / 256, k - 1);
    }
  }

  lemma U64beInjective(m: nat, n: nat)
    requires m < U64 && n < U64 && U64be(m) == U64be(n)
    ensures m == n
  {
    assert Power256(2) == 0x1_0000 && Power256(4) == 0x1_0000_0000 && Power256(6) == 0x1_0000_0000_0000;
    assert Power256(8) == U64;
    BigEndianInjective(m, n, 8);
  }

  function Sized(raw: Bytes): seq<byte> {
    U64be(|raw|) + raw
  }

  /** A length prefix says where the field ends. */
  lemma SizedPrefix(v: Bytes, w: Bytes, a: seq<byte>, b: seq<byte>)
    requires Sized(v) + a == Sized(w) + b
    ensures v == w && a == b
  {
    var m, n := U64be(|v|), U64be(|w|);
    assert Sized(v) + a == m + (v + a) && Sized(w) + b == n + (w + b);
    Cancel(m, v + a, n, w + b);
    U64beInjective(|v|, |w|);
    Cancel(v, a, w, b);
  }

  predicate AsciiText(s: string) {
    forall i :: 0 <= i < |s| ==> s[i] as int < 128
  }

  function Ascii(s: string): (b: seq<byte>)
    requires AsciiText(s)
    ensures |b| == |s| && forall i :: 0 <= i < |s| ==> b[i] == s[i] as int
  {
    seq(|s|, i requires 0 <= i < |s| => s[i] as int)
  }

  // ----- Content -----

  const CONTENT_TAG := "obsvr:content/2"

  function ContentPreimage(fmt: int, prompt: Bytes, response: Bytes): seq<byte> {
    if fmt == 1 then prompt + response
    else Ascii(CONTENT_TAG) + [0] + Sized(prompt) + Sized(response)
  }

  lemma ContentShape(fmt: int, p: Bytes, r: Bytes)
    requires fmt != 1
    ensures ContentPreimage(fmt, p, r) == (Ascii(CONTENT_TAG) + [0]) + (Sized(p) + Sized(r))
  {
    hide Sized;
  }

  /** From format 2 on, the content preimage says where the prompt ends. */
  lemma ContentPreimageInjective(fmt: int, fmt': int, p: Bytes, r: Bytes, p': Bytes, r': Bytes)
    requires fmt != 1 && fmt' != 1
    ensures ContentPreimage(fmt, p, r) == ContentPreimage(fmt', p', r') <==> p == p' && r == r'
  {
    hide ContentPreimage, Sized;
    ContentShape(fmt, p, r);
    ContentShape(fmt', p', r');
    if ContentPreimage(fmt, p, r) == ContentPreimage(fmt', p', r') {
      var tag := Ascii(CONTENT_TAG) + [0];
      Cancel(tag, Sized(p) + Sized(r), tag, Sized(p') + Sized(r'));
      SizedPrefix(p, p', Sized(r), Sized(r'));
      assert Sized(r) + [] == Sized(r) && Sized(r') + [] == Sized(r');
      SizedPrefix(r, r', [], []);
    }
  }

  /** Format 1 does not: text can move from the response into the prompt. */
  lemma LegacyContentCollides()
    ensures var a, ab, b, bc: Bytes := Ascii("A"), Ascii("AB"), Ascii("C"), Ascii("BC");
      ContentPreimage(1, ab, b) == ContentPreimage(1, a, bc) && (ab, b) != (a, bc)
  {
    assert Ascii("AB") + Ascii("C") == Ascii("ABC");
    assert Ascii("A") + Ascii("BC") == Ascii("ABC");
    assert |Ascii("A")| != |Ascii("AB")|;
  }

  // ----- Decision fields -----

  const FIELDS_V3 := [
    "action_taken", "action_reason", "reason_code", "rule_id", "policy_version", "model", "provider", "user_id"]
  const FIELDS_V4 := FIELDS_V3 + ["operation", "source", "event_type"]
  const FIELDS_V5 := FIELDS_V4 + ["source_lineage_hash"]

  /** A dictionary of decision fields; a key can be absent or hold None. */
  type Fields = map<string, Option<Bytes>>

  function Get(fields: Fields, key: string): Option<Bytes> {
    if key in fields then fields[key] else None
  }

  function Order(fmt: int): seq<string> {
    if fmt >= 5 then FIELDS_V5 else if fmt >= 4 then FIELDS_V4 else FIELDS_V3
  }

  function DecisionTag(fmt: int): (tag: string)
    ensures |tag| == 16 && AsciiText(tag)
    ensures tag[..15] == "obsvr:decision/"
  {
    if fmt >= 5 then "obsvr:decision/5" else if fmt >= 4 then "obsvr:decision/4" else "obsvr:decision/3"
  }

  /** One field: a presence byte, the length, the value. */
  function Frame(value: Option<Bytes>): seq<byte> {
    Presence(value) + Sized(GetOr(value, []))
  }

  function Presence(value: Option<Bytes>): (s: seq<byte>)
    ensures |s| == 1
  {
    if value.Some? then [1] else [0]
  }

  function Frames(fields: Fields, order: seq<string>): seq<byte> {
    if order == [] then [] else Frame(Get(fields, order[0])) + Frames(fields, order[1..])
  }

  function DecisionPreimage(fields: Fields, fmt: int): seq<byte> {
    Ascii(DecisionTag(fmt)) + [0] + Frames(fields, Order(fmt))
  }

  ghost predicate AgreeOn(f: Fields, g: Fields, keys: seq<string>) {
    forall k :: k in keys ==> Get(f, k) == Get(g, k)
  }

  lemma FramePrefix(v: Option<Bytes>, w: Option<Bytes>, a: seq<byte>, b: seq<byte>)
    requires Frame(v) + a == Frame(w) + b
    ensures v == w && a == b
  {
    hide Sized;
    var x, y := GetOr(v, []), GetOr(w, []);
    var p, q := Presence(v), Presence(w);
    assert Frame(v) + a == p + (Sized(x) + a) && Frame(w) + b == q + (Sized(y) + b);
    Cancel(p, Sized(x) + a, q, Sized(y) + b);
    SizedPrefix(x, y, a, b);
    assert p[0] == q[0];
  }

  lemma {:induction false} FramesInjective(f: Fields, g: Fields, order: seq<string>)
    ensures Frames(f, order) == Frames(g, order) <==> AgreeOn(f, g, order)
  {
    if order != [] {
      var k, rest := order[0], order[1..];
      FramesInjective(f, g, rest);
      assert AgreeOn(f, g, order) <==> Get(f, k) == Get(g, k) && AgreeOn(f, g, rest) by {
        assert order == [k] + rest;
      }
      if Frames(f, order) == Frames(g, order) {
        FramePrefix(Get(f, k), Get(g, k), Frames(f, rest), Frames(g, rest));
      }
    }
  }

  /** The decision preimage determines which signed fields are present and what they hold. */
  lemma DecisionPreimageInjective(f: Fields, g: Fields, fmt: int)
    ensures DecisionPreimage(f, fmt) == DecisionPreimage(g, fmt) <==> AgreeOn(f, g, Order(fmt))
  {
    var x, y := DecisionPreimage(f, fmt), DecisionPreimage(g, fmt);
    assert x[17..] == Frames(f, Order(fmt)) && y[17..] == Frames(g, Order(fmt));
    assert x[..17] == y[..17];
    assert x == x[..17] + x[17..] && y == y[..17] + y[17..];
    FramesInjective(f, g, Order(fmt));
  }

  /** No preimage serves two purposes: decision preimages of two formats, or of a format and a
      content preimage, differ in a byte of their tags. */
  lemma PreimagesSeparate(f: Fields, g: Fields, fmt: int, fmt': int, p: Bytes, r: Bytes)
    requires 3 <= fmt < fmt' <= 5
    ensures DecisionPreimage(f, fmt) != DecisionPreimage(g, fmt')
    ensures forall c :: c != 1 ==> ContentPreimage(c, p, r) != DecisionPreimage(f, fmt)
    ensures forall c :: c != 1 ==> ContentPreimage(c, p, r) != DecisionPreimage(g, fmt')
  {
    hide DecisionPreimage, ContentPreimage;
    DecisionBytes(f, fmt);
    DecisionBytes(g, fmt');
    forall c | c != 1 ensures |ContentPreimage(c, p, r)| > 6 && ContentPreimage(c, p, r)[6] == 'c' as int {
      ContentByte(c, p, r);
    }
  }

  /** The letter and the digit of a decision tag. */
  lemma DecisionBytes(f: Fields, fmt: int)
    requires 3 <= fmt <= 5
    ensures var x := DecisionPreimage(f, fmt); |x| > 15 && x[6] == 'd' as int && x[15] == '0' as int + fmt
  {
    hide Frames;
    assert DecisionTag(fmt)[6] == DecisionTag(fmt)[..15][6];
    assert DecisionTag(fmt)[15] as int == '0' as int + fmt;
  }

  lemma ContentByte(fmt: int, p: Bytes, r: Bytes)
    requires fmt != 1
    ensures var x := ContentPreimage(fmt, p, r); |x| > 6 && x[6] == 'c' as int
  {
    hide Sized;
  }

  // ----- The byte layout, by position -----

  /** The number with these base-256 digits, most significant first. */
  function Value256(s: seq<byte>): nat {
    if s == [] then 0 else 256 * Value256(s[..|s| - 1]) + s[|s| - 1]
  }

  lemma {:induction false} BigEndianValue(n: nat, k: nat)
    requires n < Power256(k)
    ensures Value256(BigEndian(n, k)) == n
  {
    if k > 0 {
      BigEndianValue(n / 256, k - 1);
      var s := BigEndian(n, k);
      assert s[..k - 1] == BigEndian(n / 256, k - 1) && s[k - 1] == n % 256;
    }
  }

  lemma U64beValue(n: nat)
    requires n < U64
    ensures Value256(U64be(n)) == n
  {
    assert Power256(2) == 0x1_0000 && Power256(4) == 0x1_0000_0000 && Power256(6) == 0x1_0000_0000_0000;
    assert Power256(8) == U64;
    BigEndianValue(n, 8);
  }

  /** The bytes start with the characters of an ASCII text and a zero byte. */
  predicate Tagged(x: seq<byte>, text: string) {
    && |x| > |text| && x[|text|] == 0
    && forall i :: 0 <= i < |text| ==> x[i] == text[i] as int
  }

  /** The decision fields of a format in the order they are hashed. */
  function Published(fmt: int): seq<string> {
    if fmt < 4 then
      ["action_taken", "action_reason", "reason_code", "rule_id", "policy_version", "model", "provider", "user_id"]
    else if fmt == 4 then
      ["action_taken", "action_reason", "reason_code", "rule_id", "policy_version", "model", "provider", "user_id",
       "operation", "source", "event_type"]
    else
      ["action_taken", "action_reason", "reason_code", "rule_id", "policy_version", "model", "provider", "user_id",
       "operation", "source", "event_type", "source_lineage_hash"]
  }

  predicate Present(f: Fields, key: string) {
    key in f && f[key].Some?
  }

  function Held(f: Fields, key: string): seq<byte> {
    if Present(f, key) then f[key].value else []
  }

  /** Where the i-th field begins: after the tag and its zero byte, and nine bytes and the value of
      every earlier field. */
  function Offset(f: Fields, names: seq<string>, i: nat): nat
    requires i <= |names|
  {
    if i == 0 then 17 else Offset(f, names, i - 1) + 9 + |Held(f, names[i - 1])|
  }

  lemma {:induction false} FramesConcat(f: Fields, a: seq<string>, b: seq<string>)
    ensures Frames(f, a + b) == Frames(f, a) + Frames(f, b)
  {
    hide Frame;
    if a == [] {
      assert a + b == b;
    } else {
      assert (a + b)[0] == a[0] && (a + b)[1..] == a[1..] + b;
      FramesConcat(f, a[1..], b);
      FrameFirst(Frame(Get(f, a[0])), Frames(f, a[1..]), Frames(f, b));
    }
  }

  lemma FrameFirst(frame: seq<byte>, x: seq<byte>, y: seq<byte>)
    ensures frame + (x + y) == (frame + x) + y
  {
  }

  lemma FramesOne(f: Fields, key: string)
    ensures Frames(f, [key]) == Frame(Get(f, key))
  {
    hide Frame;
    assert [key][1..] == [];
    assert Frame(Get(f, key)) + [] == Frame(Get(f, key));
  }

  lemma FrameParts(f: Fields, key: string)
    ensures var x, held := Frame(Get(f, key)), Held(f, key);
      && |held| < U64 && |x| == 9 + |held|
      && x[0] == (if Present(f, key) then 1 else 0)
      && x[1..9] == U64be(|held|) && x[9..] == held
  {
  }

  lemma {:induction false} OffsetIs(f: Fields, names: seq<string>, i: nat)
    requires i <= |names|
    ensures Offset(f, names, i) == 17 + |Frames(f, names[..i])|
  {
    if i == 0 {
      assert names[..0] == [];
    } else {
      OffsetIs(f, names, i - 1);
      assert names[..i] == names[..i - 1] + [names[i - 1]];
      FramesConcat(f, names[..i - 1], [names[i - 1]]);
      FramesOne(f, names[i - 1]);
      FrameParts(f, names[i - 1]);
    }
  }

  /** The tag, and the length of the whole. */
  lemma DecisionHeader(f: Fields, fmt: int)
    ensures var x := DecisionPreimage(f, fmt);
      && |x| == Offset(f, Published(fmt), |Published(fmt)|)
      && (fmt < 4 ==> Tagged(x, "obsvr:decision/3"))
      && (fmt == 4 ==> Tagged(x, "obsvr:decision/4"))
      && (fmt > 4 ==> Tagged(x, "obsvr:decision/5"))
  {
    hide Frames;
    var names := Published(fmt);
    assert names == Order(fmt) && names[..|names|] == names;
    OffsetIs(f, names, |names|);
  }

  /** Field by field: a byte that is 1 exactly when the field is present, eight bytes that hold the
      length of its value, most significant first, and the value. */
  lemma DecisionLayout(f: Fields, fmt: int, i: nat)
    requires i < |Published(fmt)|
    ensures var x, names := DecisionPreimage(f, fmt), Published(fmt);
      var at, held := Offset(f, names, i), Held(f, names[i]);
      && at + 9 + |held| <= |x|
      && x[at] == (if Present(f, names[i]) then 1 else 0)
      && Value256(x[at + 1..at + 9]) == |held|
      && x[at + 9..at + 9 + |held|] == held
  {
    hide Offset, Frames, Frame, Published, Order, Held, Present, Value256, U64be;
    var names := Published(fmt);
    var k, before, after := names[i], names[..i], names[i + 1..];
    assert names == Order(fmt) by {
      PublishedIsOrder(fmt);
    }
    assert names == before + ([k] + after);
    FramesConcat(f, before, [k] + after);
    FramesConcat(f, [k], after);
    FramesOne(f, k);
    OffsetIs(f, names, i);
    FrameParts(f, k);
    U64beValue(|Held(f, k)|);
    var head := Ascii(DecisionTag(fmt)) + [0] + Frames(f, before);
    FrameInside(DecisionPreimage(f, fmt), head, Frame(Get(f, k)), Frames(f, after), Held(f, k));
  }

  lemma PublishedIsOrder(fmt: int)
    ensures Published(fmt) == Order(fmt)
  {
  }

  lemma FrameInside(x: seq<byte>, head: seq<byte>, frame: seq<byte>, rest: seq<byte>, held: seq<byte>)
    requires x == head + (frame + rest) && |frame| == 9 + |held| && frame[9..] == held
    ensures |head| + 9 + |held| <= |x| && x[|head|] == frame[0]
    ensures x[|head| + 1..|head| + 9] == frame[1..9]
    ensures x[|head| + 9..|head| + 9 + |held|] == held
  {
  }

  /** The content preimage: the two texts, each after eight bytes that hold its length; format 1 has
      neither tag nor lengths. */
  lemma ContentLayout(fmt: int, p: Bytes, r: Bytes)
    ensures var x := ContentPreimage(fmt, p, r);
      if fmt == 1 then x == p + r
      else
        && |x| == 32 + |p| + |r| && Tagged(x, "obsvr:content/2")
        && Value256(x[16..24]) == |p| && x[24..24 + |p|] == p
        && Value256(x[24 + |p|..32 + |p|]) == |r| && x[32 + |p|..] == r
  {
    hide Value256, U64be;
    U64beValue(|p|);
    U64beValue(|r|);
    if fmt != 1 {
      var head := Ascii(CONTENT_TAG) + [0];
      ContentShape(fmt, p, r);
      assert Tagged(head + (Sized(p) + Sized(r)), "obsvr:content/2");
      SizedInside(head, p, r);
    }
  }

  lemma SizedInside(head: seq<byte>, p: Bytes, r: Bytes)
    requires |head| == 16
    ensures var x := head + (Sized(p) + Sized(r));
      && |x| == 32 + |p| + |r|
      && x[16..24] == U64be(|p|) && x[24..24 + |p|] == p
      && x[24 + |p|..32 + |p|] == U64be(|r|) && x[32 + |p|..] == r
  {
    var a, b := U64be(|p|), U64be(|r|);
    var x := head + (Sized(p) + Sized(r));
    hide U64be;
    assert x == head + a + p + b + r;
  }

  /** `decision_hash`: the fields are fed to the hash one by one. */
  method DecisionHash(hash: Digest, fields: Option<Fields>, fmt: int) returns (digest: string)
    requires |DecisionPreimage(GetOr(fields, map[]), fmt)| < U64
    ensures digest == hash(DecisionPreimage(GetOr(fields, map[]), fmt))
  {
    var src := GetOr(fields, map[]);
    var order := Order(fmt);
    var fed := Ascii(DecisionTag(fmt));
    fed := fed + [0];
    for i := 0 to |order|
      invariant fed + Frames(src, order[i..]) == DecisionPreimage(src, fmt)
    {
      var value := Get(src, order[i]);
      FramesStep(fed, src, order, i);
      fed := fed + Presence(value);
      var raw := GetOr(value, []);
      fed := fed + U64be(|raw|);
      fed := fed + raw;
    }
    assert fed + [] == fed;
    digest := hash(fed);
  }

  lemma FramesStep(fed: seq<byte>, src: Fields, order: seq<string>, i: nat)
    requires i < |order|
    ensures var value := Get(src, order[i]);
      fed + Frames(src, order[i..]) ==
      fed + Presence(value) + U64be(|GetOr(value, [])|) + GetOr(value, []) + Frames(src, order[i + 1..])
  {
    hide Sized;
    assert order[i..][1..] == order[i + 1..];
    var value := Get(src, order[i]);
    FrameAssoc(fed, Presence(value), GetOr(value, []), Frames(src, order[i + 1..]));
  }

  lemma FrameAssoc(fed: seq<byte>, presence: seq<byte>, raw: Bytes, rest: seq<byte>)
    ensures fed + ((presence + Sized(raw)) + rest) == fed + presence + U64be(|raw|) + raw + rest
  {
  }

  /** `decision_fields_of`: exactly the keys of the format, each with the event's value. */
  method DecisionFieldsOf(event: Fields, fmt: int) returns (out: Fields)
    ensures out.Keys == set k | k in Order(fmt)
    ensures AgreeOn(out, event, Order(fmt))
  {
    var order := Order(fmt);
    out := map[];
    for i := 0 to |order|
      invariant out.Keys == set k | k in order[..i]
      invariant AgreeOn(out, event, order[..i])
    {
      out := out[order[i] := Get(event, order[i])];
      assert order[..i + 1] == order[..i] + [order[i]];
    }
    assert order[..|order|] == order;
  }

  lemma OrdersNest(fmt: int, fmt': int)
    requires fmt <= fmt'
    ensures forall k :: k in Order(fmt) ==> k in Order(fmt')
  {
    assert forall k :: k in FIELDS_V3 ==> k in FIELDS_V4;
    assert forall k :: k in FIELDS_V4 ==> k in FIELDS_V5;
  }

  /** Reading the fields under a newer format than the one hashed changes nothing, so one reader
      serves every format. */
  lemma OneReader(event: Fields, read: Fields, fmt: int, newer: int)
    requires fmt <= newer && AgreeOn(read, event, Order(newer))
    ensures DecisionPreimage(read, fmt) == DecisionPreimage(event, fmt)
  {
    OrdersNest(fmt, newer);
    DecisionPreimageInjective(read, event, fmt);
  }

  // ----- The signed payload -----

  function Digit(d: nat): char
    requires d < 10
  {
    ['0', '1', '2', '3', '4', '5', '6', '7', '8', '9'][d]
  }

  function Natural(n: nat): (s: string)
    ensures |s| > 0 && forall c :: c in s ==> '0' <= c <= '9'
  {
    if n < 10 then [Digit(n)] else Natural(n / 10) + [Digit(n % 10)]
  }

  /** `str(n)` */
  function Decimal(n: int): string {
    if n < 0 then ['-'] + Natural(-n) else Natural(n)
  }

  function DigitValue(c: char): int {
    c as int - '0' as int
  }

  function ReadNatural(s: string): int {
    if s == [] then 0 else 10 * ReadNatural(s[..|s| - 1]) + DigitValue(s[|s| - 1])
  }

  lemma {:induction false} ReadNaturalInverts(n: nat)
    ensures ReadNatural(Natural(n)) == n
  {
    if n < 10 {
      assert DigitValue(Digit(n)) == n;
      assert ReadNatural([Digit(n)]) == 10 * ReadNatural([]) + n by {
        assert [Digit(n)][..0] == [];
      }
    } else {
      ReadNaturalInverts(n / 10);
      var s := Natural(n / 10) + [Digit(n % 10)];
      assert s[..|s| - 1] == Natural(n / 10);
      assert DigitValue(Digit(n % 10)) == n % 10;
    }
  }

  lemma {:induction false} NoLeadingZero(n: nat)
    requires n > 0
    ensures Natural(n)[0] != '0'
  {
    if n >= 10 {
      NoLeadingZero(n / 10);
    }
  }

  /** Decimal text reads back, starts with `-` exactly below zero, and has no leading zero. */
  lemma DecimalReads(n: int)
    ensures n >= 0 ==> ReadNatural(Decimal(n)) == n
    ensures n > 0 ==> Decimal(n)[0] != '0'
    ensures n < 0 ==> Decimal(n) == "-" + Decimal(-n)
  {
    if n >= 0 {
      ReadNaturalInverts(n);
    }
    if n > 0 {
      NoLeadingZero(n);
    }
  }

  lemma DecimalInjective(m: int, n: int)
    requires Decimal(m) == Decimal(n)
    ensures m == n
  {
    var a, b := if m < 0 then -m else m, if n < 0 then -n else n;
    ReadNaturalInverts(a);
    ReadNaturalInverts(b);
    assert Natural(a)[0] in Natural(a) && Natural(b)[0] in Natural(b);
    assert m < 0 ==> Decimal(m)[0] == '-' && Decimal(m)[1..] == Natural(a);
    assert n < 0 ==> Decimal(n)[0] == '-' && Decimal(n)[1..] == Natural(b);
  }

  predicate Plain(s: string) {
    '|' !in s
  }

  lemma PlainDecimal(n: int)
    ensures Plain(Decimal(n))
  {
  }

  /** What one event contributes to its signature. */
  datatype Signed = Signed(
    format: int,
    session: string,
    seqNo: int,
    timestamp: int,
    prompt: Bytes,
    response: Bytes,
    prev: Option<string>,
    decision: Fields)

  predicate Hashable(s: Signed) {
    |ContentPreimage(s.format, s.prompt, s.response)| < U64 && |DecisionPreimage(s.decision, s.format)| < U64
  }

  function ContentHash(hash: Digest, s: Signed): string
    requires Hashable(s)
  {
    hash(ContentPreimage(s.format, s.prompt, s.response))
  }

  function DecisionDigest(hash: Digest, s: Signed): string
    requires Hashable(s)
  {
    hash(DecisionPreimage(s.decision, s.format))
  }

  function Prev(s: Signed): string {
    GetOr(s.prev, "")
  }

  function Lead(s: Signed): seq<string> {
    if s.format != 1 then [Decimal(s.format)] else []
  }

  function ChainedFields(hash: Digest, s: Signed): (f: seq<string>)
    requires Hashable(s)
    ensures f != []
  {
    Lead(s) + [s.session, Decimal(s.seqNo), Decimal(s.timestamp), ContentHash(hash, s)]
  }

  /** The fields in the order they are joined. */
  function PayloadFields(hash: Digest, s: Signed): seq<string>
    requires Hashable(s)
  {
    if s.format >= 3 then ChainedFields(hash, s) + [DecisionDigest(hash, s)] + [Prev(s)]
    else ChainedFields(hash, s) + [Prev(s)]
  }

  function Payload(hash: Digest, s: Signed): string
    requires Hashable(s)
  {
    Join(PayloadFields(hash, s), "|")
  }

  /** `signature_payload`: the list is appended to and, from format 2 on, led by the format. */
  method SignaturePayload(hash: Digest, s: Signed) returns (payload: string)
    requires Hashable(s)
    ensures payload == Payload(hash, s)
  {
    var fields := [s.session, Decimal(s.seqNo), Decimal(s.timestamp), ContentHash(hash, s)];
    ghost var base := fields;
    if s.format >= 3 {
      var digest := DecisionHash(hash, Some(s.decision), s.format);
      fields := fields + [digest];
    }
    fields := fields + [Prev(s)];
    LeadAssoc(Lead(s), base, DecisionDigest(hash, s), Prev(s));
    if s.format != 1 {
      fields := [Decimal(s.format)] + fields;
    }
    payload := Join(fields, "|");
  }

  lemma LeadAssoc(lead: seq<string>, base: seq<string>, digest: string, prev: string)
    ensures lead + (base + [digest] + [prev]) == lead + base + [digest] + [prev]
    ensures lead + (base + [prev]) == lead + base + [prev]
    ensures [] + base == base
  {
  }

  // ----- The payload determines its parts -----

  /** Everything before the content hash. */
  function Head(s: Signed): string {
    (if s.format != 1 then Decimal(s.format) + "|" else "") + s.session
  }

  function Chained(hash: Digest, s: Signed): string
    requires Hashable(s)
  {
    Head(s) + "|" + Decimal(s.seqNo) + "|" + Decimal(s.timestamp) + "|" + ContentHash(hash, s)
  }

  lemma JoinStep(front: seq<string>, last: string)
    requires front != []
    ensures Join(front + [last], "|") == Join(front, "|") + "|" + last
  {
    assert (front + [last])[..|front|] == front;
  }

  lemma ChainedShape(hash: Digest, s: Signed)
    requires Hashable(s)
    ensures Join(ChainedFields(hash, s), "|") == Chained(hash, s)
  {
    hide Decimal, ContentHash, Join;
    var lead := Lead(s) + [s.session];
    if s.format != 1 {
      JoinOne(Decimal(s.format));
      JoinStep(Lead(s), s.session);
    } else {
      JoinOne(s.session);
      assert lead == [s.session];
      assert "" + s.session == s.session;
    }
    JoinThree(lead, Decimal(s.seqNo), Decimal(s.timestamp), ContentHash(hash, s));
    assert ChainedFields(hash, s) == lead + [Decimal(s.seqNo), Decimal(s.timestamp), ContentHash(hash, s)];
  }

  lemma JoinOne(x: string)
    ensures Join([x], "|") == x
  {
  }

  lemma JoinThree(lead: seq<string>, x: string, y: string, z: string)
    requires lead != []
    ensures Join(lead + [x, y, z], "|") == Join(lead, "|") + "|" + x + "|" + y + "|" + z
  {
    hide Join;
    JoinStep(lead, x);
    JoinStep(lead + [x], y);
    JoinStep(lead + [x] + [y], z);
    assert lead + [x] + [y] + [z] == lead + [x, y, z];
  }

  lemma PayloadShape(hash: Digest, s: Signed)
    requires Hashable(s)
    ensures Payload(hash, s) ==
            (if s.format >= 3 then Chained(hash, s) + "|" + DecisionDigest(hash, s) else Chained(hash, s))
            + "|" + Prev(s)
  {
    var c := ChainedFields(hash, s);
    ChainedShape(hash, s);
    if s.format >= 3 {
      JoinStep(c, DecisionDigest(hash, s));
      JoinStep(c + [DecisionDigest(hash, s)], Prev(s));
    } else {
      JoinStep(c, Prev(s));
    }
  }

  /** The signed text, with its hashes over the two preimages. */
  lemma PayloadText(hash: Digest, s: Signed)
    requires Hashable(s)
    ensures var numbers := "|" + Decimal(s.seqNo) + "|" + Decimal(s.timestamp);
      var content := "|" + hash(ContentPreimage(s.format, s.prompt, s.response));
      var link := "|" + match s.prev { case None => "" case Some(p) => p };
      if s.format == 1 then Payload(hash, s) == s.session + numbers + content + link
      else if s.format < 3 then
        Payload(hash, s) == Decimal(s.format) + "|" + s.session + numbers + content + link
      else
        Payload(hash, s) == Decimal(s.format) + "|" + s.session + numbers + content
                            + ("|" + hash(DecisionPreimage(s.decision, s.format))) + link
  {
    hide Payload, Decimal, ContentPreimage, DecisionPreimage;
    PayloadShape(hash, s);
    var head := Head(s);
    assert head == if s.format == 1 then s.session else Decimal(s.format) + "|" + s.session by {
      assert "" + s.session == s.session;
    }
    hide Head;
    TextInOrder(head, Decimal(s.seqNo), Decimal(s.timestamp), ContentHash(hash, s), DecisionDigest(hash, s), Prev(s));
  }

  lemma TextInOrder(head: string, n: string, t: string, content: string, decision: string, prev: string)
    ensures var numbers := "|" + n + "|" + t;
      && head + "|" + n + "|" + t + "|" + content + "|" + prev
         == head + numbers + ("|" + content) + ("|" + prev)
      && head + "|" + n + "|" + t + "|" + content + "|" + decision + "|" + prev
         == head + numbers + ("|" + content) + ("|" + decision) + ("|" + prev)
  {
    var bar := "|";
    assert head + bar + n + bar + t == head + (bar + n + bar + t);
    Append(head + (bar + n + bar + t), bar, content);
    Append(head + (bar + n + bar + t) + (bar + content), bar, prev);
    Append(head + (bar + n + bar + t) + (bar + content), bar, decision);
    Append(head + (bar + n + bar + t) + (bar + content) + (bar + decision), bar, prev);
  }

  lemma Append(x: string, bar: string, y: string)
    ensures x + bar + y == x + (bar + y)
  {
  }

  /** No predecessor signs like an empty one. */
  lemma NoPredecessor(hash: Digest, s: Signed)
    requires Hashable(s)
    ensures Payload(hash, s.(prev := None)) == Payload(hash, s.(prev := Some("")))
  {
    hide Payload, Decimal, ContentPreimage, DecisionPreimage;
    PayloadText(hash, s.(prev := None));
    PayloadText(hash, s.(prev := Some("")));
  }

  /** Splitting at the last bar. */
  lemma LastBar(x: string, a: string, y: string, b: string)
    requires x + "|" + a == y + "|" + b && Plain(a) && Plain(b)
    ensures x == y && a == b
  {
    LastMark(x, a, y, b, '|');
  }

  /** Hash outputs hold no bar; hexadecimal text does not. */
  ghost predicate PlainOutputs(hash: Digest) {
    forall b :: Plain(hash(b))
  }

  predicate Supported(s: Signed) {
    1 <= s.format <= 5
  }

  ghost predicate SameParts(hash: Digest, s: Signed, t: Signed)
    requires Hashable(s) && Hashable(t)
  {
    && s.format == t.format && s.session == t.session
    && s.seqNo == t.seqNo && s.timestamp == t.timestamp
    && ContentHash(hash, s) == ContentHash(hash, t)
    && (s.format >= 3 ==> DecisionDigest(hash, s) == DecisionDigest(hash, t))
    && Prev(s) == Prev(t)
  }

  /** A format 1 event whose session id holds the head of another format's payload, so that its own
      fields stand where the other's later fields are. */
  ghost predicate Poses(hash: Digest, legacy: Signed, other: Signed)
    requires Hashable(legacy) && Hashable(other)
  {
    && legacy.format == 1 && other.format != 1 && Prev(legacy) == Prev(other)
    && if other.format == 2 then
         && legacy.session == Head(other)
         && legacy.seqNo == other.seqNo && legacy.timestamp == other.timestamp
         && ContentHash(hash, legacy) == ContentHash(hash, other)
       else
         && legacy.session == Head(other) + "|" + Decimal(other.seqNo)
         && legacy.seqNo == other.timestamp && Decimal(legacy.timestamp) == ContentHash(hash, other)
         && ContentHash(hash, legacy) == DecisionDigest(hash, other)
  }

  /** Payloads are equal exactly when their parts are, or when one event poses as the other. */
  lemma PayloadDetermines(hash: Digest, s: Signed, t: Signed)
    requires PlainOutputs(hash) && Hashable(s) && Hashable(t)
    requires Supported(s) && Supported(t) && Plain(Prev(s)) && Plain(Prev(t))
    ensures Payload(hash, s) == Payload(hash, t) <==>
            SameParts(hash, s, t) || Poses(hash, s, t) || Poses(hash, t, s)
  {
    hide Payload, PayloadFields, Chained, Decimal, ContentHash, DecisionDigest, Plain;
    PayloadShape(hash, s);
    PayloadShape(hash, t);
    if s.format >= 3 && t.format < 3 {
      MixedPayloads(hash, s, t);
    } else if t.format >= 3 && s.format < 3 {
      MixedPayloads(hash, t, s);
    } else {
      AlikePayloads(hash, s, t);
    }
  }

  /** Both payloads carry a decision hash, or neither does. */
  lemma AlikePayloads(hash: Digest, s: Signed, t: Signed)
    requires PlainOutputs(hash) && Hashable(s) && Hashable(t)
    requires Supported(s) && Supported(t) && Plain(Prev(s)) && Plain(Prev(t))
    requires s.format >= 3 <==> t.format >= 3
    ensures Payload(hash, s) == Payload(hash, t) <==>
            SameParts(hash, s, t) || Poses(hash, s, t) || Poses(hash, t, s)
  {
    hide Payload, PayloadFields, Chained, Decimal, ContentHash, DecisionDigest, Plain, Head;
    PayloadShape(hash, s);
    PayloadShape(hash, t);
    ChainedDetermines(hash, s, t);
    if Payload(hash, s) == Payload(hash, t) {
      if s.format >= 3 {
        PlainHash(hash, s);
        PlainHash(hash, t);
        LastBar(Chained(hash, s) + "|" + DecisionDigest(hash, s), Prev(s),
                Chained(hash, t) + "|" + DecisionDigest(hash, t), Prev(t));
        LastBar(Chained(hash, s), DecisionDigest(hash, s), Chained(hash, t), DecisionDigest(hash, t));
      } else {
        LastBar(Chained(hash, s), Prev(s), Chained(hash, t), Prev(t));
      }
    }
  }

  /** Only s carries a decision hash. */
  lemma MixedPayloads(hash: Digest, s: Signed, t: Signed)
    requires PlainOutputs(hash) && Hashable(s) && Hashable(t)
    requires Supported(s) && Supported(t) && Plain(Prev(s)) && Plain(Prev(t))
    requires t.format < 3 <= s.format
    ensures Payload(hash, s) == Payload(hash, t) <==> Poses(hash, t, s)
  {
    hide Payload, PayloadFields, Chained, Decimal, ContentHash, DecisionDigest, Plain, Head;
    PayloadShape(hash, s);
    PayloadShape(hash, t);
    LongerChained(hash, s, t);
    if Payload(hash, s) == Payload(hash, t) {
      LastBar(Chained(hash, s) + "|" + DecisionDigest(hash, s), Prev(s), Chained(hash, t), Prev(t));
    }
  }

  /** The parts before the link agree, and so do the heads. */
  ghost predicate SameChained(hash: Digest, s: Signed, t: Signed)
    requires Hashable(s) && Hashable(t)
  {
    && Head(s) == Head(t) && s.seqNo == t.seqNo && s.timestamp == t.timestamp
    && ContentHash(hash, s) == ContentHash(hash, t)
  }

  lemma ChainedDetermines(hash: Digest, s: Signed, t: Signed)
    requires PlainOutputs(hash) && Hashable(s) && Hashable(t) && Supported(s) && Supported(t)
    ensures Chained(hash, s) == Chained(hash, t) <==> SameChained(hash, s, t)
    ensures Head(s) == Head(t) <==>
      || (s.format == t.format && s.session == t.session)
      || (s.format == 1 && t.format != 1 && s.session == Head(t))
      || (t.format == 1 && s.format != 1 && t.session == Head(s))
  {
    if Chained(hash, s) == Chained(hash, t) {
      ChainedSplits(hash, s, t);
    }
    HeadDetermines(s, t);
  }

  lemma ChainedSplits(hash: Digest, s: Signed, t: Signed)
    requires PlainOutputs(hash) && Hashable(s) && Hashable(t)
    requires Chained(hash, s) == Chained(hash, t)
    ensures SameChained(hash, s, t)
  {
    hide Decimal, Head, ContentHash;
    var a, b := Head(s) + "|" + Decimal(s.seqNo), Head(t) + "|" + Decimal(t.seqNo);
    PlainDecimal(s.seqNo);
    PlainDecimal(t.seqNo);
    PlainDecimal(s.timestamp);
    PlainDecimal(t.timestamp);
    PlainHash(hash, s);
    PlainHash(hash, t);
    LastBar(a + "|" + Decimal(s.timestamp), ContentHash(hash, s), b + "|" + Decimal(t.timestamp), ContentHash(hash, t));
    LastBar(a, Decimal(s.timestamp), b, Decimal(t.timestamp));
    LastBar(Head(s), Decimal(s.seqNo), Head(t), Decimal(t.seqNo));
    DecimalInjective(s.seqNo, t.seqNo);
    DecimalInjective(s.timestamp, t.timestamp);
  }

  lemma PlainHash(hash: Digest, s: Signed)
    requires PlainOutputs(hash) && Hashable(s)
    ensures Plain(ContentHash(hash, s)) && Plain(DecisionDigest(hash, s))
  {
  }

  /** A payload of format 3 or later has one part more than an earlier one, so every later part of
      the shorter payload stands one place further on. */
  lemma LongerChained(hash: Digest, s: Signed, t: Signed)
    requires PlainOutputs(hash) && Hashable(s) && Hashable(t)
    requires Supported(s) && Supported(t) && t.format < 3 <= s.format
    ensures Chained(hash, s) + "|" + DecisionDigest(hash, s) == Chained(hash, t) <==>
      && t.format == 1 && t.session == Head(s) + "|" + Decimal(s.seqNo)
      && t.seqNo == s.timestamp && Decimal(t.timestamp) == ContentHash(hash, s)
      && ContentHash(hash, t) == DecisionDigest(hash, s)
  {
    hide Decimal, Head, ContentHash, DecisionDigest;
    LaterHead(s, t, Decimal(s.seqNo));
    if Chained(hash, s) + "|" + DecisionDigest(hash, s) == Chained(hash, t) {
      LongerSplits(hash, s, t);
    }
  }

  lemma LongerSplits(hash: Digest, s: Signed, t: Signed)
    requires PlainOutputs(hash) && Hashable(s) && Hashable(t)
    requires Chained(hash, s) + "|" + DecisionDigest(hash, s) == Chained(hash, t)
    ensures Head(t) == Head(s) + "|" + Decimal(s.seqNo)
    ensures t.seqNo == s.timestamp && Decimal(t.timestamp) == ContentHash(hash, s)
    ensures ContentHash(hash, t) == DecisionDigest(hash, s)
  {
    hide Decimal, Head, ContentHash, DecisionDigest;
    var a, b := Head(s) + "|" + Decimal(s.seqNo), Head(t) + "|" + Decimal(t.seqNo);
    PlainDecimal(s.timestamp);
    PlainDecimal(t.seqNo);
    PlainDecimal(t.timestamp);
    PlainHash(hash, s);
    PlainHash(hash, t);
    LastBar(Chained(hash, s), DecisionDigest(hash, s), b + "|" + Decimal(t.timestamp), ContentHash(hash, t));
    LastBar(a + "|" + Decimal(s.timestamp), ContentHash(hash, s), b, Decimal(t.timestamp));
    LastBar(a, Decimal(s.timestamp), Head(t), Decimal(t.seqNo));
    DecimalInjective(s.timestamp, t.seqNo);
  }

  /** Format numbers are one digit, so the first character of a head shows the format. */
  lemma HeadShape(s: Signed)
    requires Supported(s)
    ensures s.format == 1 ==> Head(s) == s.session
    ensures s.format != 1 ==> Head(s) == [Digit(s.format)] + "|" + s.session && Head(s)[0] == Digit(s.format)
  {
    assert s.format != 1 ==> Decimal(s.format) == [Digit(s.format)];
    assert "" + s.session == s.session;
  }

  lemma HeadDetermines(s: Signed, t: Signed)
    requires Supported(s) && Supported(t)
    ensures Head(s) == Head(t) <==>
      || (s.format == t.format && s.session == t.session)
      || (s.format == 1 && t.format != 1 && s.session == Head(t))
      || (t.format == 1 && s.format != 1 && t.session == Head(s))
  {
    hide Head, Decimal;
    HeadShape(s);
    HeadShape(t);
    if s.format != 1 && t.format != 1 && Head(s) == Head(t) {
      Cancel([Digit(s.format)] + "|", s.session, [Digit(t.format)] + "|", t.session);
    }
  }

  lemma LaterHead(s: Signed, t: Signed, number: string)
    requires Supported(s) && Supported(t) && t.format < 3 <= s.format
    ensures Head(s) + "|" + number == Head(t) <==> t.format == 1 && t.session == Head(s) + "|" + number
  {
    hide Head, Decimal;
    HeadShape(s);
    HeadShape(t);
    assert (Head(s) + "|" + number)[0] == Head(s)[0];
  }

  /** The format 1 event that poses as a format 2 event: its prompt is the tagged content, its session
      id the format 2 head. */
  function Posed(s: Signed): Signed
    requires Hashable(s) && s.format == 2
  {
    Signed(1, "2|" + s.session, s.seqNo, s.timestamp, ContentPreimage(2, s.prompt, s.response), [], s.prev, s.decision)
  }

  predicate AsciiBytes(b: seq<byte>) {
    forall i :: 0 <= i < |b| ==> b[i] < 128
  }

  /** The posed prompt is ASCII text exactly when the texts and the bytes of their lengths are. */
  lemma PosedText(s: Signed)
    requires Hashable(s) && s.format == 2
    ensures AsciiBytes(Posed(s).prompt) <==>
      && AsciiBytes(s.prompt) && AsciiBytes(s.response)
      && AsciiBytes(U64be(|s.prompt|)) && AsciiBytes(U64be(|s.response|))
  {
    hide U64be;
    var tag := Ascii(CONTENT_TAG) + [0];
    assert Posed(s).prompt == tag + U64be(|s.prompt|) + s.prompt + U64be(|s.response|) + s.response by {
      ContentShape(2, s.prompt, s.response);
    }
    assert AsciiBytes(tag);
    AsciiJoin(tag, U64be(|s.prompt|));
    AsciiJoin(tag + U64be(|s.prompt|), s.prompt);
    AsciiJoin(tag + U64be(|s.prompt|) + s.prompt, U64be(|s.response|));
    AsciiJoin(tag + U64be(|s.prompt|) + s.prompt + U64be(|s.response|), s.response);
  }

  lemma AsciiJoin(a: seq<byte>, b: seq<byte>)
    ensures AsciiBytes(a + b) <==> AsciiBytes(a) && AsciiBytes(b)
  {
    if AsciiBytes(a + b) {
      forall i | 0 <= i < |a| ensures a[i] < 128 {
        assert (a + b)[i] == a[i];
      }
      forall i | 0 <= i < |b| ensures b[i] < 128 {
        assert (a + b)[|a| + i] == b[i];
      }
    }
  }

  lemma PosedPreimages(s: Signed)
    requires Hashable(s) && s.format == 2
    ensures var t := Posed(s);
      Hashable(t) && ContentPreimage(t.format, t.prompt, t.response) == ContentPreimage(s.format, s.prompt, s.response)
  {
    hide Frames, Sized;
    assert ContentPreimage(1, Posed(s).prompt, []) == Posed(s).prompt;
    assert DecisionPreimage(s.decision, 1) == DecisionPreimage(s.decision, 2);
  }

  /** On byte strings, every format 2 payload is also the payload of a format 1 event, whatever the
      hash. */
  lemma PosedCollides(hash: Digest, s: Signed)
    requires Hashable(s) && s.format == 2
    ensures Hashable(Posed(s)) && Payload(hash, Posed(s)) == Payload(hash, s)
  {
    PosedPreimages(s);
    PosedHead(s);
    hide Decimal, DecisionPreimage, ContentPreimage, Payload, Head;
    PayloadShape(hash, s);
    PayloadShape(hash, Posed(s));
  }

  lemma PosedHead(s: Signed)
    requires Hashable(s) && s.format == 2
    ensures Head(Posed(s)) == Head(s)
  {
    hide Head, Decimal, ContentPreimage, DecisionPreimage;
    HeadShape(s);
    HeadShape(Posed(s));
    var two := [Digit(2)] + "|";
    assert two == "2|";
  }

  lemma {:induction false} NoFrames(order: seq<string>)
    ensures |Frames(map[], order)| == 9 * |order|
  {
    if order != [] {
      NoFrames(order[1..]);
    }
  }

  lemma NoFieldsFit()
    ensures |DecisionPreimage(map[], 1)| < U64
  {
    NoFrames(Order(1));
  }

  /** A payload of format 3 or later is also a format 1 payload exactly when its content hash is the
      decimal text of a number, since a timestamp then stands in its place. */
  lemma PosedLater(hash: Digest, s: Signed)
    requires PlainOutputs(hash) && Hashable(s) && 3 <= s.format <= 5 && Plain(Prev(s))
    ensures (exists t: Signed :: Hashable(t) && t.format == 1 && Plain(Prev(t)) && Payload(hash, t) == Payload(hash, s))
      <==> exists n :: Decimal(n) == ContentHash(hash, s)
  {
    hide Payload, Decimal, ContentHash, DecisionDigest, DecisionPreimage, Poses;
    forall t: Signed | Hashable(t) && t.format == 1 && Plain(Prev(t))
      ensures Payload(hash, t) == Payload(hash, s) <==> Poses(hash, t, s)
    {
      MixedPayloads(hash, s, t);
    }
    forall n | Decimal(n) == ContentHash(hash, s)
      ensures exists t: Signed :: Hashable(t) && t.format == 1 && Plain(Prev(t)) && Poses(hash, t, s)
    {
      var t := LaterPose(hash, s, n);
    }
    forall t: Signed | Hashable(t) && Poses(hash, t, s) ensures Decimal(t.timestamp) == ContentHash(hash, s) {
      PoseTimestamp(hash, t, s);
    }
  }

  lemma PoseTimestamp(hash: Digest, t: Signed, s: Signed)
    requires Hashable(t) && Hashable(s) && s.format >= 3 && Poses(hash, t, s)
    ensures Decimal(t.timestamp) == ContentHash(hash, s)
  {
  }

  lemma LaterPose(hash: Digest, s: Signed, n: int) returns (t: Signed)
    requires Hashable(s) && s.format >= 3 && Decimal(n) == ContentHash(hash, s)
    ensures Hashable(t) && t.format == 1 && Prev(t) == Prev(s) && Poses(hash, t, s)
  {
    NoFieldsFit();
    hide Decimal, DecisionPreimage, Head;
    var prompt: Bytes := DecisionPreimage(s.decision, s.format);
    t := Signed(1, Head(s) + "|" + Decimal(s.seqNo), s.timestamp, n, prompt, [], s.prev, map[]);
    assert prompt + [] == prompt;
  }

  ghost predicate Injective(hash: Digest) {
    forall a, b :: hash(a) == hash(b) ==> a == b
  }

  /** With an injective hash and a bar-free session id on format 1, a payload of format 3 or
      later commits to the whole event: session, position, time, content, link and every signed
      decision field. */
  lemma PayloadCommits(hash: Digest, s: Signed, t: Signed)
    requires PlainOutputs(hash) && Injective(hash) && Hashable(s) && Hashable(t)
    requires Supported(s) && Supported(t) && Plain(Prev(s)) && Plain(Prev(t))
    requires s.format == 1 ==> Plain(s.session)
    requires t.format == 1 ==> Plain(t.session)
    ensures Payload(hash, s) == Payload(hash, t) <==>
            && s.format == t.format && s.session == t.session && s.seqNo == t.seqNo && s.timestamp == t.timestamp
            && (if s.format == 1 then s.prompt + s.response == t.prompt + t.response
                else s.prompt == t.prompt && s.response == t.response)
            && (s.format >= 3 ==> AgreeOn(s.decision, t.decision, Order(s.format)))
            && Prev(s) == Prev(t)
  {
    PayloadDetermines(hash, s, t);
    PosesNeedsBar(hash, s, t);
    PosesNeedsBar(hash, t, s);
    CommittedParts(hash, s, t);
  }

  lemma CommittedParts(hash: Digest, s: Signed, t: Signed)
    requires Injective(hash) && Hashable(s) && Hashable(t)
    ensures SameParts(hash, s, t) <==>
            && s.format == t.format && s.session == t.session && s.seqNo == t.seqNo && s.timestamp == t.timestamp
            && (if s.format == 1 then s.prompt + s.response == t.prompt + t.response
                else s.prompt == t.prompt && s.response == t.response)
            && (s.format >= 3 ==> AgreeOn(s.decision, t.decision, Order(s.format)))
            && Prev(s) == Prev(t)
  {
    if s.format == t.format {
      hide DecisionPreimage, AgreeOn, Order;
      DecisionPreimageInjective(s.decision, t.decision, s.format);
      if s.format != 1 {
        ContentPreimageInjective(s.format, t.format, s.prompt, s.response, t.prompt, t.response);
      }
    }
  }

  lemma PosesNeedsBar(hash: Digest, s: Signed, t: Signed)
    requires Hashable(s) && Hashable(t) && Supported(t)
    requires s.format == 1 ==> Plain(s.session)
    ensures !Poses(hash, s, t)
  {
    hide Decimal;
    if t.format != 1 {
      HeadShape(t);
      assert Head(t)[1] == '|' && Head(t)[1] in Head(t);
    }
  }
}
