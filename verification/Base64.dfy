/** The hand-written base64 decoder against the encoding of RFC 4648. */
module Base64 {
  import opened Wrappers
  import opened Strings

  type sextet = n: int | 0 <= n < 64

  // ----- Alphabets (RFC 4648, sections 4 and 5) -----

  function AlphabetChar(v: sextet, url: bool): char {
    if v < 26 then ('A' as int + v) as char
    else if v < 52 then ('a' as int + (v - 26)) as char
    else if v < 62 then ('0' as int + (v - 52)) as char
    else if v == 62 then (if url then '-' else '+')
    else (if url then '_' else '/')
  }

  /** `_B64_STD` and `_B64_URL`: A-Z, a-z, 0-9 and two symbols, in order of value. */
  function Alphabet(url: bool): string {
    seq(64, v requires 0 <= v < 64 => AlphabetChar(v, url))
  }

  lemma FindInverts(v: sextet, url: bool)
    ensures Find(Alphabet(url), AlphabetChar(v, url), 0) == v
  {
    var c := AlphabetChar(v, url);
    var r := Find(Alphabet(url), c, 0);
    FindFirst(Alphabet(url), c, 0);
    assert Alphabet(url)[v] == c;
    assert r >= 0 && AlphabetChar(r, url) == c;
  }

  // ----- Encoding (RFC 4648, section 4; padding as in section 3.2) -----

  function Encode(b: seq<byte>): seq<sextet> {
    if b == [] then []
    else if |b| == 1 then [b[0] / 4, b[0] % 4 * 16]
    else if |b| == 2 then [b[0] / 4, b[0] % 4 * 16 + b[1] / 16, b[1] % 16 * 4]
    else [b[0] / 4, b[0] % 4 * 16 + b[1] / 16, b[1] % 16 * 4 + b[2] / 64, b[2] % 64] + Encode(b[3..])
  }

  function Padding(n: nat): string {
    if n % 4 == 2 then "==" else if n % 4 == 3 then "=" else ""
  }

  function Spell(vals: seq<sextet>, url: bool): string {
    seq(|vals|, i requires 0 <= i < |vals| => AlphabetChar(vals[i], url))
  }

  function EncodeText(b: seq<byte>, url: bool, padded: bool): string {
    Spell(Encode(b), url) + if padded then Padding(|Encode(b)|) else ""
  }

  /** Both alphabets, spelled out. */
  lemma Alphabets()
    ensures Alphabet(false) == "ABCDEFGHIJKLMNOPQRSTUVWXYZ" + "abcdefghijklmnopqrstuvwxyz" + "0123456789" + "+/"
    ensures Alphabet(true) == "ABCDEFGHIJKLMNOPQRSTUVWXYZ" + "abcdefghijklmnopqrstuvwxyz" + "0123456789" + "-_"
  {
    var upper, lower, digits := "ABCDEFGHIJKLMNOPQRSTUVWXYZ", "abcdefghijklmnopqrstuvwxyz", "0123456789";
    assert forall i :: 0 <= i < 26 ==> upper[i] as int == 'A' as int + i && lower[i] as int == 'a' as int + i;
    assert forall i :: 0 <= i < 10 ==> digits[i] as int == '0' as int + i;
    AlphabetOf(upper, lower, digits, "+/", false);
    AlphabetOf(upper, lower, digits, "-_", true);
  }

  lemma AlphabetOf(upper: string, lower: string, digits: string, symbols: string, url: bool)
    requires |upper| == |lower| == 26 && |digits| == 10 && symbols == if url then "-_" else "+/"
    requires forall i :: 0 <= i < 26 ==> upper[i] as int == 'A' as int + i && lower[i] as int == 'a' as int + i
    requires forall i :: 0 <= i < 10 ==> digits[i] as int == '0' as int + i
    ensures Alphabet(url) == upper + lower + digits + symbols
  {
    var all := upper + lower + digits + symbols;
    forall v | 0 <= v < 64 ensures all[v] == AlphabetChar(v, url) {
      assert all[v] == if v < 26 then upper[v] else if v < 52 then lower[v - 26]
                       else if v < 62 then digits[v - 52] else symbols[v - 62];
    }
  }

  /** The test vectors of RFC 4648, section 10. */
  lemma TestVectors()
    ensures EncodeText([], false, true) == ""
    ensures EncodeText([0x66], false, true) == "Zg=="
    ensures EncodeText([0x66, 0x6F], false, true) == "Zm8="
    ensures EncodeText([0x66, 0x6F, 0x6F], false, true) == "Zm9v"
    ensures EncodeText([0x66, 0x6F, 0x6F, 0x62], false, true) == "Zm9vYg=="
    ensures EncodeText([0x66, 0x6F, 0x6F, 0x62, 0x61], false, true) == "Zm9vYmE="
    ensures EncodeText([0x66, 0x6F, 0x6F, 0x62, 0x61, 0x72], false, true) == "Zm9vYmFy"
  {
    hide *;
    OneByte();
    TwoBytes();
    ThreeBytes();
    FourBytes();
    FiveBytes();
    SixBytes();
  }

  lemma OneByte()
    ensures EncodeText([], false, true) == "" && EncodeText([0x66], false, true) == "Zg=="
  {
    assert Encode([0x66]) == [25, 32];
  }

  lemma TwoBytes()
    ensures EncodeText([0x66, 0x6F], false, true) == "Zm8="
  {
    assert Encode([0x66, 0x6F]) == [25, 38, 60];
  }

  lemma ThreeBytes()
    ensures EncodeText([0x66, 0x6F, 0x6F], false, true) == "Zm9v"
  {
    assert [0x66, 0x6F, 0x6F][3..] == [];
    assert Encode([0x66, 0x6F, 0x6F]) == [25, 38, 61, 47];
  }

  lemma FourBytes()
    ensures EncodeText([0x66, 0x6F, 0x6F, 0x62], false, true) == "Zm9vYg=="
  {
    assert [0x66, 0x6F, 0x6F, 0x62][3..] == [0x62];
    assert Encode([0x66, 0x6F, 0x6F, 0x62]) == [25, 38, 61, 47, 24, 32];
  }

  lemma FiveBytes()
    ensures EncodeText([0x66, 0x6F, 0x6F, 0x62, 0x61], false, true) == "Zm9vYmE="
  {
    assert [0x66, 0x6F, 0x6F, 0x62, 0x61][3..] == [0x62, 0x61];
    assert Encode([0x66, 0x6F, 0x6F, 0x62, 0x61]) == [25, 38, 61, 47, 24, 38, 4];
  }

  lemma SixBytes()
    ensures EncodeText([0x66, 0x6F, 0x6F, 0x62, 0x61, 0x72], false, true) == "Zm9vYmFy"
  {
    assert [0x66, 0x6F, 0x6F, 0x62, 0x61, 0x72][3..] == [0x62, 0x61, 0x72];
    assert Encode([0x62, 0x61, 0x72]) == [24, 38, 5, 50] + Encode([0x62, 0x61, 0x72][3..]);
    assert Encode([0x66, 0x6F, 0x6F, 0x62, 0x61, 0x72]) == [25, 38, 61, 47, 24, 38, 5, 50];
  }

  // ----- Decoding -----

  function PadCount(tok: string): (n: nat)
    ensures n <= 2 && n <= |tok|
  {
    if |tok| == 0 || tok[|tok| - 1] != '=' then 0
    else if |tok| == 1 || tok[|tok| - 2] != '=' then 1
    else 2
  }

  /** The data characters of a token, when its length and padding suit the variant. */
  function DataOf(tok: string, padded: bool): Option<string> {
    if padded then
      if tok == "" || |tok| % 4 != 0 then None
      else
        var data := tok[..|tok| - PadCount(tok)];
        if '=' in data then None else Some(data)
    else if '=' in tok || |tok| % 4 == 1 then None
    else Some(tok)
  }

  function ValuesOf(data: string, alphabet: string): (vals: Option<seq<sextet>>)
    requires |alphabet| <= 64
    ensures vals.Some? ==> |vals.value| == |data|
  {
    if data == "" then Some([])
    else
      var front := ValuesOf(data[..|data| - 1], alphabet);
      var v := Find(alphabet, data[|data| - 1], 0);
      if front.None? || v == -1 then None else Some(front.value + [v])
  }

  /** Four six-bit values side by side. */
  function Pack(a: int, b: int, c: int, d: int): int {
    a * 0x40000 + b * 0x1000 + c * 0x40 + d
  }

  function Triple(a: sextet, b: sextet, c: sextet, d: sextet): seq<byte> {
    var n := Pack(a, b, c, d);
    [n / 0x10000 % 256, n / 0x100 % 256, n % 256]
  }

  function Bits(vals: seq<sextet>): seq<byte> {
    if |vals| < 2 then []
    else if |vals| == 2 then Triple(vals[0], vals[1], 0, 0)[..1]
    else if |vals| == 3 then Triple(vals[0], vals[1], vals[2], 0)[..2]
    else Triple(vals[0], vals[1], vals[2], vals[3]) + Bits(vals[4..])
  }

  function Decoded(tok: string, alphabet: string, padded: bool): Option<seq<byte>>
    requires |alphabet| <= 64
  {
    var data :- DataOf(tok, padded);
    if |data| % 4 == 1 then None
    else
      var vals :- ValuesOf(data, alphabet);
      Some(Bits(vals))
  }

  /** `_b64_decode_variant`. Shifts and masks of six-bit values are written as arithmetic. */
  method DecodeVariant(tok: string, alphabet: string, padded: bool) returns (out: Option<seq<byte>>)
    requires |alphabet| <= 64
    ensures out == Decoded(tok, alphabet, padded)
  {
    var data := tok;
    if padded {
      if tok == "" || |tok| % 4 != 0 {
        return None;
      }
      var pad := 0;
      while pad < 2 && tok[|tok| - 1 - pad] == '='
        invariant 0 <= pad <= 2
        invariant pad > 0 ==> tok[|tok| - 1] == '='
        invariant pad > 1 ==> tok[|tok| - 2] == '='
      {
        pad := pad + 1;
      }
      data := tok[..|tok| - pad];
      if '=' in data {
        return None;
      }
    } else {
      if '=' in tok {
        return None;
      }
      if |tok| % 4 == 1 {
        return None;
      }
    }
    if |data| % 4 == 1 {
      return None;
    }
    var vals: seq<sextet> := [];
    for i := 0 to |data|
      invariant ValuesOf(data[..i], alphabet) == Some(vals)
    {
      assert data[..i + 1][..i] == data[..i];
      var v := Find(alphabet, data[i], 0);
      if v == -1 {
        UnknownChar(data, alphabet, i);
        return None;
      }
      vals := vals + [v];
    }
    assert data[..|data|] == data;
    var bytes := Assemble(vals);
    out := Some(bytes);
  }

  lemma {:induction false} UnknownChar(data: string, alphabet: string, i: nat)
    requires |alphabet| <= 64 && i < |data| && Find(alphabet, data[i], 0) == -1
    ensures ValuesOf(data, alphabet).None?
    decreases |data|
  {
    if i < |data| - 1 {
      UnknownChar(data[..|data| - 1], alphabet, i);
    }
  }

  /** The second half of `_b64_decode_variant`: groups of four, then the remainder. */
  method Assemble(vals: seq<sextet>) returns (out: seq<byte>)
    requires |vals| % 4 != 1
    ensures out == Bits(vals)
  {
    hide Bits, Pack, Triple;
    out := [];
    var i := 0;
    while i + 4 <= |vals|
      invariant 0 <= i <= |vals| && i % 4 == 0
      invariant out + Bits(vals[i..]) == Bits(vals)
    {
      GroupStep(out, vals, i);
      TripleBytes(vals[i], vals[i + 1], vals[i + 2], vals[i + 3]);
      var n := Pack(vals[i], vals[i + 1], vals[i + 2], vals[i + 3]);
      out := out + [n / 0x10000 % 256, n / 0x100 % 256, n % 256];
      i := i + 4;
    }
    LastGroup(vals[i..]);
    var rem := |vals| - i;
    if rem == 2 {
      TripleBytes(vals[i], vals[i + 1], 0, 0);
      var n := Pack(vals[i], vals[i + 1], 0, 0);
      out := out + [n / 0x10000 % 256];
    } else if rem == 3 {
      TripleBytes(vals[i], vals[i + 1], vals[i + 2], 0);
      var n := Pack(vals[i], vals[i + 1], vals[i + 2], 0);
      out := out + [n / 0x10000 % 256, n / 0x100 % 256];
    }
  }

  lemma TripleBytes(a: sextet, b: sextet, c: sextet, d: sextet)
    ensures var n, t := Pack(a, b, c, d), Triple(a, b, c, d);
      && t == [n / 0x10000 % 256, n / 0x100 % 256, n % 256]
      && t[..1] == [n / 0x10000 % 256] && t[..2] == [n / 0x10000 % 256, n / 0x100 % 256]
  {
    hide Pack;
  }

  lemma LastGroup(vals: seq<sextet>)
    ensures |vals| < 2 ==> Bits(vals) == []
    ensures |vals| == 2 ==> Bits(vals) == Triple(vals[0], vals[1], 0, 0)[..1]
    ensures |vals| == 3 ==> Bits(vals) == Triple(vals[0], vals[1], vals[2], 0)[..2]
  {
    hide Triple;
  }

  lemma GroupStep(out: seq<byte>, vals: seq<sextet>, i: nat)
    requires i + 4 <= |vals|
    ensures out + Bits(vals[i..]) ==
            (out + Triple(vals[i], vals[i + 1], vals[i + 2], vals[i + 3])) + Bits(vals[i + 4..])
  {
    hide Triple;
    var group := Triple(vals[i], vals[i + 1], vals[i + 2], vals[i + 3]);
    assert vals[i..][4..] == vals[i + 4..];
    assert out + (group + Bits(vals[i + 4..])) == (out + group) + Bits(vals[i + 4..]);
  }

  // ----- Decoding inverts encoding -----

  lemma {:induction false} EncodeLength(b: seq<byte>)
    ensures |Encode(b)| == (4 * |b| + 2) / 3
    ensures |Encode(b)| % 4 != 1 && (|Encode(b)| == 0 <==> b == [])
  {
    if |b| >= 3 {
      EncodeLength(b[3..]);
    }
  }

  lemma BytesOf(n: int, x: byte, y: byte, z: byte)
    requires n == x * 0x10000 + y * 0x100 + z
    ensures n / 0x10000 % 256 == x && n / 0x100 % 256 == y && n % 256 == z
  {
    assert n / 0x100 == x * 0x100 + y;
    assert n / 0x10000 == x;
  }

  lemma SextetsOf(x: byte, y: byte, z: byte)
    ensures Pack(x / 4, x % 4 * 16 + y / 16, y % 16 * 4 + z / 64, z % 64)
            == x * 0x10000 + y * 0x100 + z
  {
    assert x == x / 4 * 4 + x % 4;
    assert y == y / 16 * 16 + y % 16;
    assert z == z / 64 * 64 + z % 64;
  }

  lemma GroupInverts(x: byte, y: byte, z: byte)
    ensures Triple(x / 4, x % 4 * 16 + y / 16, y % 16 * 4 + z / 64, z % 64) == [x, y, z]
  {
    SextetsOf(x, y, z);
    BytesOf(x * 0x10000 + y * 0x100 + z, x, y, z);
  }

  lemma {:induction false} BitsInvertEncode(b: seq<byte>)
    ensures Bits(Encode(b)) == b
  {
    if |b| == 1 {
      GroupInverts(b[0], 0, 0);
    } else if |b| == 2 {
      GroupInverts(b[0], b[1], 0);
    } else if |b| >= 3 {
      GroupInverts(b[0], b[1], b[2]);
      BitsInvertEncode(b[3..]);
      var first := [b[0] / 4, b[0] % 4 * 16 + b[1] / 16, b[1] % 16 * 4 + b[2] / 64, b[2] % 64];
      assert (first + Encode(b[3..]))[4..] == Encode(b[3..]);
      assert [b[0], b[1], b[2]] + b[3..] == b;
    }
  }

  lemma {:induction false} ValuesInvertSpell(vals: seq<sextet>, url: bool)
    ensures ValuesOf(Spell(vals, url), Alphabet(url)) == Some(vals)
  {
    if vals != [] {
      var front, last := vals[..|vals| - 1], vals[|vals| - 1];
      ValuesInvertSpell(front, url);
      FindInverts(last, url);
      assert Spell(vals, url)[..|vals| - 1] == Spell(front, url);
      assert front + [last] == vals;
    }
  }

  lemma PadCountExact(data: string, pad: string)
    requires pad == "" || pad == "=" || pad == "=="
    requires data == "" ==> pad == ""
    requires '=' !in data
    ensures PadCount(data + pad) == |pad|
  {
    if data != "" {
      assert data[|data| - 1] in data;
      assert (data + pad)[|data| - 1] == data[|data| - 1];
    }
  }

  lemma SpellHasNoPad(vals: seq<sextet>, url: bool)
    ensures '=' !in Spell(vals, url)
  {
  }

  lemma PaddedToken(data: string, pad: string)
    requires '=' !in data && |data| % 4 != 1 && pad == Padding(|data|)
    ensures DataOf(data + pad, true) == if data == "" then None else Some(data)
  {
    PadCountExact(data, pad);
    assert (data + pad)[..|data|] == data;
    assert |data + pad| % 4 == 0;
  }

  /** The data characters of an encoded text are exactly the spelled values, except that the
      padded variants refuse the empty token. */
  lemma DataOfEncoded(b: seq<byte>, url: bool, padded: bool)
    ensures DataOf(EncodeText(b, url, padded), padded) ==
            if padded && b == [] then None else Some(Spell(Encode(b), url))
  {
    var data := Spell(Encode(b), url);
    EncodeLength(b);
    SpellHasNoPad(Encode(b), url);
    if padded {
      PaddedToken(data, Padding(|data|));
    } else {
      assert data + "" == data;
    }
  }

  /** Each of the four variants decodes the canonical encoding of a byte string back to it, with
      one exception: the padded variants refuse the empty text, which encodes no bytes. */
  lemma RoundTrip(b: seq<byte>, url: bool, padded: bool)
    ensures Decoded(EncodeText(b, url, padded), Alphabet(url), padded) ==
            if padded && b == [] then None else Some(b)
  {
    DataOfEncoded(b, url, padded);
    EncodeLength(b);
    ValuesInvertSpell(Encode(b), url);
    BitsInvertEncode(b);
  }

  lemma {:induction false} BitsLength(vals: seq<sextet>)
    ensures |Bits(vals)| == 3 * |vals| / 4
  {
    if |vals| >= 4 {
      BitsLength(vals[4..]);
    }
  }

  /** A success on k data characters yields floor(3k/4) bytes, whatever the alphabet. */
  lemma DecodedLength(tok: string, alphabet: string, padded: bool)
    requires |alphabet| <= 64 && Decoded(tok, alphabet, padded).Some?
    ensures DataOf(tok, padded).Some?
    ensures |Decoded(tok, alphabet, padded).value| == 3 * |DataOf(tok, padded).value| / 4
    ensures |DataOf(tok, padded).value| == if padded then |tok| - PadCount(tok) else |tok|
  {
    BitsLength(ValuesOf(DataOf(tok, padded).value, alphabet).value);
  }
}
