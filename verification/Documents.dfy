/** JSON documents and the field validators that the two profile versions share. */
module Documents {
  import opened Wrappers
  import opened CodePoints
  import opened Strings

  /** Field names the profiles know, and any other. */
  datatype Key =
    | Schema | ProfileVersion | IntentScopes | IntentId | AllowedActions | AllowedTargets | AllowedTargetHashes
    | AllowedRequestedScopes | AllowedDataClassifications | DenyAfterOutcomes | MaxPriorActions
    | Kind | Name | ArgumentsHash | Target | TargetHash | AttemptId | ParentAttemptId | RemediationRetryHash
    | DataClassifications | RequestedScopes | Sequence | Outcome | ReceiptHash
    | AgentId | ActiveIntents | AgentRole | Role | PrivilegeScope | CurrentAction | Agent | Action
    | RunId | SessionId | ThreadId | PriorActions | Principal | Execution | Governance
    | PrincipalId | TenantHash | Roles | Environment | AutonomyLevel | ConsequenceLevel
    | IntegrationId | IntegrationVersion | CoverageClaimHash | ActivePackHashes | ApprovalState | QuotaState
    | ActionTaken | ApprovalRequired | ApprovalRequestId | ApprovalActionHash | ApprovalExpiresAtMs
    | ModifiedArgumentsHash
    | Unsupported(text: string)

  type Fields = map<Key, Json>

  datatype Json =
    | Null
    | Bool(b: bool)
    | Int(n: int)
    | OtherNumber
    | Str(s: string)
    | List(items: seq<Json>)
    | Obj(fields: Fields)

  /** `d.get(key)` */
  function At(f: Fields, k: Key): Json {
    if k in f then f[k] else Null
  }

  /** Version 1 accepts texts and lists of any size; version 2 bounds them. */
  datatype Profile = V1 | V2

  const IDENTIFIER_MAX: nat := 256
  const SET_MAX: nat := 64
  const TARGET_MAX: nat := 1024
  const CONTEXT_MAX: nat := 65536
  const PRIOR_MAX: nat := 256
  const MAX_SAFE: int := 9007199254740991

  /** What `str.strip` removes. */
  predicate IsPythonSpace(c: char) {
    var n := c as int;
    || IsAsciiSpace(c) || 0x1C <= n <= 0x1F || n == 0x85 || n == 0xA0 || n == 0x1680 || 0x2000 <= n <= 0x200A
    || n == 0x2028 || n == 0x2029 || n == 0x202F || n == 0x205F || n == 0x3000
  }

  predicate AllIn(s: string, p: char -> bool) {
    forall i :: 0 <= i < |s| ==> p(s[i])
  }

  function Utf8Length(s: string): nat {
    if s == "" then 0
    else
      var n := s[|s| - 1] as int;
      Utf8Length(s[..|s| - 1]) + if n < 0x80 then 1 else if n < 0x800 then 2 else if n < 0x10000 then 3 else 4
  }

  predicate IsText(p: Profile, s: string, max: nat) {
    if p == V1 then !AllIn(s, IsPythonSpace) else !AllIn(s, IsAsciiSpace) && Utf8Length(s) <= max
  }

  function Text(p: Profile, j: Json, max: nat := IDENTIFIER_MAX): Option<string> {
    if j.Str? && IsText(p, j.s, max) then Some(j.s) else None
  }

  /** `d[key]` when the key is there, nothing when it is not; the outer None is a failure. */
  function OptionalText(p: Profile, f: Fields, k: Key): Option<Option<string>> {
    if k !in f then Some(None)
    else
      var t :- Text(p, f[k]);
      Some(Some(t))
  }

  predicate IsHex(c: char) {
    '0' <= c <= '9' || 'a' <= c <= 'f'
  }

  predicate IsHash(s: string) {
    |s| == 64 && AllIn(s, IsHex)
  }

  function Hash(j: Json): Option<string> {
    if j.Str? && IsHash(j.s) then Some(j.s) else None
  }

  function SafeInt(j: Json): Option<int> {
    if j.Int? && 0 <= j.n <= MAX_SAFE then Some(j.n) else None
  }

  /** A list the profile accepts. */
  predicate IsList(p: Profile, j: Json) {
    j.List? && (p == V2 ==> |j.items| <= SET_MAX)
  }

  function TextOf(j: Json): string {
    if j.Str? then j.s else ""
  }

  predicate AllTexts(p: Profile, items: seq<Json>) {
    forall x :: x in items ==> x.Str? && IsText(p, x.s, IDENTIFIER_MAX)
  }

  /** What the items of a list stand for, whatever their order and however often repeated. */
  function Image<U(==)>(items: seq<Json>, read: Json -> U): set<U> {
    set x | x in items :: read(x)
  }

  /** The set a list of texts stands for. */
  function TextSet(p: Profile, j: Json): Option<set<string>> {
    if IsList(p, j) && AllTexts(p, j.items) then Some(Image(j.items, TextOf)) else None
  }

  // ----- Writing documents -----

  /** The object whose fields `at` gives, among the listed keys. */
  function Build(keys: set<Key>, at: Key -> Option<Json>): Fields {
    map k | k in keys && at(k).Some? :: at(k).value
  }

  lemma BuildField(keys: set<Key>, at: Key -> Option<Json>, k: Key)
    ensures Field(Build(keys, at), k) == if k in keys then at(k) else None
    ensures Build(keys, at).Keys <= keys
  {
  }

  function Texted(t: Option<string>): Option<Json> {
    if t.Some? then Some(Str(t.value)) else None
  }

  function Field(f: Fields, k: Key): Option<Json> {
    if k in f then Some(f[k]) else None
  }

  /** A set written out in a given order. */
  function WriteList<U>(r: seq<U>, write: U -> Json): Json {
    List(seq(|r|, i requires 0 <= i < |r| => write(r[i])))
  }

  function WriteTexts(s: set<string>): Json {
    WriteList(SortedList(s), (x: string) => Str(x))
  }

  /** Reading back a written set. */
  lemma WriteListReads<U(!new)>(r: seq<U>, s: set<U>, le: (U, U) -> bool, write: U -> Json, read: Json -> U)
    requires Lists(r, s, le) && forall u :: u in s ==> read(write(u)) == u
    ensures |WriteList(r, write).items| == |s|
    ensures Image(WriteList(r, write).items, read) == s
    ensures forall x :: x in WriteList(r, write).items ==> exists u :: u in s && x == write(u)
  {
    ListSize(r, s, le);
    var items := WriteList(r, write).items;
    forall x | x in items ensures exists u :: u in s && x == write(u) {
      var i :| 0 <= i < |r| && items[i] == x;
      assert r[i] in r;
    }
    forall u | u in s ensures u in Image(items, read) {
      var i :| 0 <= i < |r| && r[i] == u;
      assert items[i] in items;
    }
  }

  predicate TextsOk(p: Profile, s: set<string>) {
    (p == V2 ==> |s| <= SET_MAX) && forall x :: x in s ==> IsText(p, x, IDENTIFIER_MAX)
  }

  /** A set of texts written out in order is read back as the same set. */
  lemma TextSetRebuilds(p: Profile, s: set<string>)
    requires TextsOk(p, s)
    ensures TextSet(p, WriteTexts(s)) == Some(s)
  {
    hide IsText;
    WriteListReads(SortedList(s), s, AtMost, (x: string) => Str(x), TextOf);
  }

  lemma {:induction false} ImageSize<U>(items: seq<Json>, read: Json -> U)
    ensures |Image(items, read)| <= |items|
  {
    if items == [] {
      assert Image(items, read) == {};
    } else {
      var front, last := items[..|items| - 1], items[|items| - 1];
      assert items == front + [last];
      ImageSize(front, read);
      assert Image(items, read) == Image(front, read) + {read(last)};
    }
  }

  lemma TextSetOk(p: Profile, j: Json)
    ensures TextSet(p, j).Some? ==> TextsOk(p, TextSet(p, j).value)
  {
    if TextSet(p, j).Some? {
      ImageSize(j.items, TextOf);
    }
  }

  lemma SameImage<U>(a: seq<Json>, b: seq<Json>, read: Json -> U)
    requires forall x :: x in a <==> x in b
    ensures Image(a, read) == Image(b, read)
  {
  }

  /** Lists with the same items stand for the same set, or are both refused, as long as neither is too
      long. */
  lemma OrderFree(p: Profile, a: Json, b: Json)
    requires IsList(p, a) && IsList(p, b) && forall x :: x in a.items <==> x in b.items
    ensures TextSet(p, a) == TextSet(p, b)
  {
    hide IsText;
    SameImage(a.items, b.items, TextOf);
    assert AllTexts(p, a.items) <==> AllTexts(p, b.items);
  }

  /** Repetition counts towards the length, so a list can be too long for a set that is not. */
  lemma RepeatsCount(s: string)
    requires IsText(V2, s, IDENTIFIER_MAX)
    ensures TextSet(V2, List([Str(s)])) == Some({s})
    ensures TextSet(V2, List(seq(SET_MAX + 1, _ => Str(s)))) == None
  {
    hide IsText;
    assert Str(s) in [Str(s)];
    assert Image([Str(s)], TextOf) == {TextOf(Str(s))};
  }

  // ----- The bounds in numbers -----

  function Letters(n: nat): string {
    seq(n, i => 'a')
  }

  function Nulls(n: nat): seq<Json> {
    seq(n, i => Null)
  }

  lemma {:induction false} LettersLength(n: nat)
    ensures Utf8Length(Letters(n)) == n
  {
    if n > 0 {
      LettersLength(n - 1);
      assert Letters(n)[..n - 1] == Letters(n - 1);
    }
  }

  /** How many letters a text, how many items a list and how large a number may be. */
  lemma BoundsInNumbers(n: nat)
    ensures Text(V1, Str(Letters(n))).Some? <==> 1 <= n
    ensures Text(V2, Str(Letters(n))).Some? <==> 1 <= n <= 256
    ensures IsText(V2, Letters(n), TARGET_MAX) <==> 1 <= n <= 1024
    ensures IsList(V1, List(Nulls(n)))
    ensures IsList(V2, List(Nulls(n))) <==> n <= 64
    ensures SafeInt(Int(n)).Some? <==> n <= 0x1F_FFFF_FFFF_FFFF
    ensures SafeInt(Int(-1 - n)).None?
  {
    LettersLength(n);
    assert n > 0 ==> Letters(n)[0] == 'a';
  }

  /** The UTF-8 length is the sum over the characters: one byte up to U+007F, two up to U+07FF, three up
      to U+FFFF, four beyond. */
  lemma {:induction false} Utf8LengthJoin(a: string, b: string)
    ensures Utf8Length(a + b) == Utf8Length(a) + Utf8Length(b)
  {
    if b == "" {
      assert a + b == a;
    } else {
      var front := b[..|b| - 1];
      assert (a + b)[..|a + b| - 1] == a + front;
      Utf8LengthJoin(a, front);
    }
  }

  lemma Utf8LengthOne(c: char)
    ensures 1 <= Utf8Length([c]) <= 4
    ensures Utf8Length([c]) == 1 <==> c as int <= 0x7F
    ensures Utf8Length([c]) <= 2 <==> c as int <= 0x7FF
    ensures Utf8Length([c]) <= 3 <==> c as int <= 0xFFFF
  {
    assert [c][..0] == "";
  }
}
