/** Intent policies: what a policy document means, and the canonical document it is built into.
    Version 1 keeps targets as they are; version 2 keeps their hashes. */
module IntentPolicy {
  import opened Wrappers
  import opened CodePoints
  import opened Documents

  const OUTCOMES := {"ALLOW", "DENY", "MODIFY", "STEP_UP", "DEFER"}

  datatype Pair = Pair(kind: string, name: string)

  /** What one intent scope says, free of order and repetition. */
  datatype Meaning = Meaning(
    id: string,
    actions: set<Pair>,
    targets: set<string>,
    requestedScopes: set<string>,
    dataClassifications: set<string>,
    denyAfter: Option<set<string>>,
    maxPriorActions: Option<int>)

  /** Intent scopes by id. */
  type Policy = map<string, Meaning>

  function PolicySchema(p: Profile): Json {
    Str(if p == V1 then "obsvr-intent-policy-v1" else "obsvr-intent-policy-v2")
  }

  function PolicyVersion(p: Profile): Json {
    Str(if p == V1 then "1.0" else "2.0")
  }

  // ----- Reading -----

  predicate IsPair(p: Profile, j: Json) {
    && j.Obj? && j.fields.Keys <= {Kind, Name}
    && Text(p, At(j.fields, Kind)).Some? && Text(p, At(j.fields, Name)).Some?
  }

  function PairOf(j: Json): Pair {
    if j.Obj? then Pair(TextOf(At(j.fields, Kind)), TextOf(At(j.fields, Name))) else Pair("", "")
  }

  /** `_normalized_actions`, `_action_set` */
  function PairSet(p: Profile, j: Json): Option<set<Pair>> {
    if IsList(p, j) && forall x :: x in j.items ==> IsPair(p, x) then Some(Image(j.items, PairOf)) else None
  }

  function Hashed(hash: string -> string, targets: set<string>): set<string> {
    set t | t in targets :: hash(t)
  }

  predicate AllTargets(items: seq<Json>) {
    forall x :: x in items ==> x.Str? && IsText(V2, x.s, TARGET_MAX)
  }

  predicate AllHashes(items: seq<Json>) {
    forall x :: x in items ==> x.Str? && IsHash(x.s)
  }

  /** Version 2 takes raw targets or hashed ones, not both. */
  function TargetSet(p: Profile, hash: string -> string, f: Fields): Option<set<string>> {
    if p == V1 then TextSet(V1, At(f, AllowedTargets))
    else if AllowedTargets in f <==> AllowedTargetHashes in f then None
    else if AllowedTargets in f then
      var raw := f[AllowedTargets];
      if IsList(V2, raw) && AllTargets(raw.items) then Some(Hashed(hash, Image(raw.items, TextOf))) else None
    else
      var hashes := f[AllowedTargetHashes];
      if IsList(V2, hashes) && AllHashes(hashes.items) then Some(Image(hashes.items, TextOf)) else None
  }

  /** `deny_after_outcomes`, when present. */
  function OutcomeSet(p: Profile, f: Fields): Option<Option<set<string>>> {
    if DenyAfterOutcomes !in f then Some(None)
    else
      var s :- TextSet(p, f[DenyAfterOutcomes]);
      if s <= OUTCOMES then Some(Some(s)) else None
  }

  function Maximum(f: Fields): Option<Option<int>> {
    if MaxPriorActions !in f then Some(None)
    else
      var n :- SafeInt(f[MaxPriorActions]);
      Some(Some(n))
  }

  function ScopeKeys(p: Profile): set<Key> {
    {IntentId, AllowedActions, AllowedTargets, AllowedRequestedScopes, AllowedDataClassifications,
     DenyAfterOutcomes, MaxPriorActions} + if p == V2 then {AllowedTargetHashes} else {}
  }

  /** `_intent_scope` */
  function ReadScope(p: Profile, hash: string -> string, j: Json): Option<Meaning> {
    if !j.Obj? || !(j.fields.Keys <= ScopeKeys(p)) then None
    else
      var f := j.fields;
      var targets :- TargetSet(p, hash, f);
      var id :- Text(p, At(f, IntentId));
      var actions :- PairSet(p, At(f, AllowedActions));
      var requested :- TextSet(p, At(f, AllowedRequestedScopes));
      var classes :- TextSet(p, At(f, AllowedDataClassifications));
      var deny :- OutcomeSet(p, f);
      var maximum :- Maximum(f);
      Some(Meaning(id, actions, targets, requested, classes, deny, maximum))
  }

  /** The scopes of a policy; no id may appear twice. */
  function ReadScopes(p: Profile, hash: string -> string, items: seq<Json>): Option<Policy> {
    if items == [] then Some(map[])
    else
      var front :- ReadScopes(p, hash, items[..|items| - 1]);
      var scope :- ReadScope(p, hash, items[|items| - 1]);
      if scope.id in front then None else Some(front[scope.id := scope])
  }

  /** What a policy document means, when it is valid. */
  function ReadPolicy(p: Profile, hash: string -> string, j: Json): Option<Policy> {
    if !j.Obj? || !(j.fields.Keys <= {Schema, ProfileVersion, IntentScopes}) then None
    else if At(j.fields, Schema) != PolicySchema(p) || At(j.fields, ProfileVersion) != PolicyVersion(p) then None
    else if !IsList(p, At(j.fields, IntentScopes)) then None
    else ReadScopes(p, hash, j.fields[IntentScopes].items)
  }

  // ----- Writing -----

  predicate PairAtMost(a: Pair, b: Pair) {
    if a.kind != b.kind then AtMost(a.kind, b.kind) else AtMost(a.name, b.name)
  }

  lemma PairOrder()
    ensures TotalOrder(PairAtMost)
  {
    hide AtMost;
    CodePointOrder();
  }

  function SortedPairs(s: set<Pair>): (r: seq<Pair>)
    ensures Lists(r, s, PairAtMost)
  {
    PairOrder();
    SortedBy(s, PairAtMost)
  }

  /** Written pairs are in the order of their kinds, and those of one kind in the order of their names. */
  lemma PairsByKind(s: set<Pair>, i: nat, j: nat)
    requires i < j < |SortedPairs(s)|
    ensures var a, b := SortedPairs(s)[i], SortedPairs(s)[j];
      AtMost(a.kind, b.kind) && (a.kind == b.kind ==> a.name != b.name && AtMost(a.name, b.name))
  {
    hide AtMost;
    var r := SortedPairs(s);
    assert PairAtMost(r[i], r[j]) && r[i] != r[j];
    CodePointOrder();
  }

  function WritePair(a: Pair): Json {
    Obj(map[Kind := Str(a.kind), Name := Str(a.name)])
  }

  function TargetKey(p: Profile): Key {
    if p == V1 then AllowedTargets else AllowedTargetHashes
  }

  function WriteScope(p: Profile, m: Meaning): Json {
    Obj(map[
      IntentId := Str(m.id),
      AllowedActions := WriteList(SortedPairs(m.actions), WritePair),
      TargetKey(p) := WriteTexts(m.targets),
      AllowedRequestedScopes := WriteTexts(m.requestedScopes),
      AllowedDataClassifications := WriteTexts(m.dataClassifications)]
      + (if m.denyAfter.Some? then map[DenyAfterOutcomes := WriteTexts(m.denyAfter.value)] else map[])
      + (if m.maxPriorActions.Some? then map[MaxPriorActions := Int(m.maxPriorActions.value)] else map[]))
  }

  function WriteScopes(p: Profile, policy: Policy, ids: seq<string>): seq<Json>
    requires forall id :: id in ids ==> id in policy
  {
    if ids == [] then []
    else
      assert ids[|ids| - 1] in ids;
      WriteScopes(p, policy, ids[..|ids| - 1]) + [WriteScope(p, policy[ids[|ids| - 1]])]
  }

  function WritePolicy(p: Profile, policy: Policy): Json {
    Obj(map[
      Schema := PolicySchema(p),
      ProfileVersion := PolicyVersion(p),
      IntentScopes := List(WriteScopes(p, policy, SortedList(policy.Keys)))])
  }

  /** `build_intent_policy`, `build_intent_policy_v2`: the canonical document. */
  function BuildPolicy(p: Profile, hash: string -> string, j: Json): Option<Json> {
    var policy :- ReadPolicy(p, hash, j);
    Some(WritePolicy(p, policy))
  }

  // ----- Canonical documents read back as what was written -----

  ghost predicate HexHash(hash: string -> string) {
    forall s :: IsHash(hash(s))
  }

  ghost predicate PairsOk(p: Profile, s: set<Pair>) {
    && (p == V2 ==> |s| <= SET_MAX)
    && forall a :: a in s ==> IsText(p, a.kind, IDENTIFIER_MAX) && IsText(p, a.name, IDENTIFIER_MAX)
  }

  ghost predicate TargetsOk(p: Profile, s: set<string>) {
    if p == V1 then TextsOk(V1, s) else |s| <= SET_MAX && forall t :: t in s ==> IsHash(t)
  }

  ghost predicate MeaningOk(p: Profile, m: Meaning) {
    && IsText(p, m.id, IDENTIFIER_MAX) && PairsOk(p, m.actions) && TargetsOk(p, m.targets)
    && TextsOk(p, m.requestedScopes) && TextsOk(p, m.dataClassifications)
    && (m.denyAfter.Some? ==> TextsOk(p, m.denyAfter.value) && m.denyAfter.value <= OUTCOMES)
    && (m.maxPriorActions.Some? ==> 0 <= m.maxPriorActions.value <= MAX_SAFE)
  }

  ghost predicate PolicyOk(p: Profile, policy: Policy) {
    && (p == V2 ==> |policy| <= SET_MAX)
    && forall id :: id in policy ==> policy[id].id == id && MeaningOk(p, policy[id])
  }

  lemma PairSetOk(p: Profile, j: Json)
    ensures PairSet(p, j).Some? ==> PairsOk(p, PairSet(p, j).value)
  {
    hide IsText;
    if PairSet(p, j).Some? {
      ImageSize(j.items, PairOf);
    }
  }

  lemma {:induction false} HashedSize(hash: string -> string, s: set<string>)
    ensures |Hashed(hash, s)| <= |s|
  {
    if s == {} {
      assert Hashed(hash, s) == {};
    } else {
      var t :| t in s;
      HashedSize(hash, s - {t});
      assert s == (s - {t}) + {t};
      assert Hashed(hash, s) == Hashed(hash, s - {t}) + {hash(t)};
    }
  }

  lemma TargetSetOk(p: Profile, hash: string -> string, f: Fields)
    requires HexHash(hash) && TargetSet(p, hash, f).Some?
    ensures TargetsOk(p, TargetSet(p, hash, f).value)
  {
    hide IsHash, IsText;
    if p == V1 {
      TextSetOk(V1, At(f, AllowedTargets));
    } else if AllowedTargets in f {
      var raw := Image(f[AllowedTargets].items, TextOf);
      ImageSize(f[AllowedTargets].items, TextOf);
      HashedSize(hash, raw);
    } else {
      ImageSize(f[AllowedTargetHashes].items, TextOf);
    }
  }

  lemma ReadScopeOk(p: Profile, hash: string -> string, j: Json)
    requires HexHash(hash) && ReadScope(p, hash, j).Some?
    ensures MeaningOk(p, ReadScope(p, hash, j).value)
  {
    hide IsText, PairsOk, PairSet, TargetSet, TargetsOk, TextSet, TextsOk, ScopeKeys, HexHash;
    var f := j.fields;
    TargetSetOk(p, hash, f);
    PairSetOk(p, At(f, AllowedActions));
    TextSetOk(p, At(f, AllowedRequestedScopes));
    TextSetOk(p, At(f, AllowedDataClassifications));
    if DenyAfterOutcomes in f {
      TextSetOk(p, f[DenyAfterOutcomes]);
    }
  }

  lemma {:induction false} ReadScopesOk(p: Profile, hash: string -> string, items: seq<Json>)
    requires HexHash(hash) && ReadScopes(p, hash, items).Some?
    ensures var policy := ReadScopes(p, hash, items).value;
      |policy| == |items| && forall id :: id in policy ==> policy[id].id == id && MeaningOk(p, policy[id])
  {
    hide MeaningOk, ReadScope, HexHash;
    if items != [] {
      ReadScopesOk(p, hash, items[..|items| - 1]);
      ReadScopeOk(p, hash, items[|items| - 1]);
      var front, scope := ReadScopes(p, hash, items[..|items| - 1]).value, ReadScope(p, hash, items[|items| - 1]).value;
      assert front[scope.id := scope].Keys == front.Keys + {scope.id};
      assert |front| == |front.Keys|;
    }
  }

  lemma ReadPolicyOk(p: Profile, hash: string -> string, j: Json)
    requires HexHash(hash) && ReadPolicy(p, hash, j).Some?
    ensures PolicyOk(p, ReadPolicy(p, hash, j).value)
  {
    hide MeaningOk, HexHash, PolicySchema, PolicyVersion;
    ReadScopesOk(p, hash, j.fields[IntentScopes].items);
  }

  lemma PairSetRebuilds(p: Profile, s: set<Pair>)
    requires PairsOk(p, s)
    ensures PairSet(p, WriteList(SortedPairs(s), WritePair)) == Some(s)
  {
    hide IsText, PairAtMost;
    WriteListReads(SortedPairs(s), s, PairAtMost, WritePair, PairOf);
    forall x | x in WriteList(SortedPairs(s), WritePair).items ensures IsPair(p, x) {
      var a :| a in s && x == WritePair(a);
    }
  }

  lemma TargetsRebuild(p: Profile, hash: string -> string, f: Fields, s: set<string>)
    requires TargetsOk(p, s) && TargetKey(p) in f && f[TargetKey(p)] == WriteTexts(s)
    requires p == V2 ==> AllowedTargets !in f
    ensures TargetSet(p, hash, f) == Some(s)
  {
    hide IsText, IsHash;
    if p == V1 {
      TextSetRebuilds(V1, s);
    } else {
      WriteListReads(SortedList(s), s, AtMost, (x: string) => Str(x), TextOf);
    }
  }

  lemma ScopeRebuilds(p: Profile, hash: string -> string, m: Meaning)
    requires MeaningOk(p, m)
    ensures ReadScope(p, hash, WriteScope(p, m)) == Some(m)
  {
    hide IsText, PairsOk, PairSet, TargetSet, TargetsOk, TextSet, TextsOk, WriteTexts, WriteList, SortedPairs;
    var f := WriteScope(p, m).fields;
    TargetsRebuild(p, hash, f, m.targets);
    PairSetRebuilds(p, m.actions);
    TextSetRebuilds(p, m.requestedScopes);
    TextSetRebuilds(p, m.dataClassifications);
    if m.denyAfter.Some? {
      TextSetRebuilds(p, m.denyAfter.value);
    }
    assert f.Keys <= ScopeKeys(p);
  }

  /** The part of a policy with the given ids. */
  ghost function Part(policy: Policy, ids: seq<string>): Policy {
    map id | id in ids && id in policy :: policy[id]
  }

  lemma {:induction false} ScopesRebuild(p: Profile, hash: string -> string, policy: Policy, ids: seq<string>)
    requires forall id :: id in ids ==> id in policy
    requires forall id :: id in policy ==> policy[id].id == id && MeaningOk(p, policy[id])
    requires forall i, j :: 0 <= i < j < |ids| ==> ids[i] != ids[j]
    ensures ReadScopes(p, hash, WriteScopes(p, policy, ids)) == Some(Part(policy, ids))
    ensures |WriteScopes(p, policy, ids)| == |ids|
  {
    hide MeaningOk, ReadScope, WriteScope;
    if ids == [] {
      assert Part(policy, ids) == map[];
    } else {
      var front, last := ids[..|ids| - 1], ids[|ids| - 1];
      assert ids == front + [last] && last !in front;
      ScopesRebuild(p, hash, policy, front);
      ScopeRebuilds(p, hash, policy[last]);
      var docs := WriteScopes(p, policy, front);
      assert (docs + [WriteScope(p, policy[last])])[..|docs|] == docs;
      assert Part(policy, ids) == Part(policy, front)[last := policy[last]];
    }
  }

  /** A canonical document means what it was written from. */
  lemma PolicyRebuilds(p: Profile, hash: string -> string, policy: Policy)
    requires PolicyOk(p, policy)
    ensures ReadPolicy(p, hash, WritePolicy(p, policy)) == Some(policy)
  {
    hide MeaningOk, PolicySchema, PolicyVersion, ReadScopes, WriteScopes;
    var ids := SortedList(policy.Keys);
    ListSize(ids, policy.Keys, AtMost);
    assert |policy| == |policy.Keys|;
    ScopesRebuild(p, hash, policy, ids);
    assert Part(policy, ids) == policy;
  }

  /** Building is idempotent: a built policy is its own canonical form. */
  lemma BuildIdempotent(p: Profile, hash: string -> string, j: Json)
    requires HexHash(hash) && BuildPolicy(p, hash, j).Some?
    ensures BuildPolicy(p, hash, BuildPolicy(p, hash, j).value) == BuildPolicy(p, hash, j)
  {
    hide ReadPolicy, WritePolicy, HexHash, PolicyOk;
    ReadPolicyOk(p, hash, j);
    PolicyRebuilds(p, hash, ReadPolicy(p, hash, j).value);
  }

  /** Two valid documents build to the same one exactly when they are read alike. */
  lemma BuildCanonical(p: Profile, hash: string -> string, a: Json, b: Json)
    requires HexHash(hash) && BuildPolicy(p, hash, a).Some? && BuildPolicy(p, hash, b).Some?
    ensures BuildPolicy(p, hash, a) == BuildPolicy(p, hash, b) <==> ReadPolicy(p, hash, a) == ReadPolicy(p, hash, b)
  {
    hide ReadPolicy, WritePolicy, HexHash, PolicyOk;
    ReadPolicyOk(p, hash, a);
    ReadPolicyOk(p, hash, b);
    PolicyRebuilds(p, hash, ReadPolicy(p, hash, a).value);
    PolicyRebuilds(p, hash, ReadPolicy(p, hash, b).value);
  }

  /** A list of scopes that is read means its scopes by id. */
  lemma {:induction false} ScopesMeaning(p: Profile, hash: string -> string, items: seq<Json>, policy: Policy)
    requires ReadScopes(p, hash, items) == Some(policy)
    ensures forall id, m :: id in policy && policy[id] == m <==>
      exists i :: 0 <= i < |items| && ReadScope(p, hash, items[i]) == Some(m) && m.id == id
  {
    hide ReadScope;
    if items != [] {
      var front, last := items[..|items| - 1], items[|items| - 1];
      assert items == front + [last];
      var rest := ReadScopes(p, hash, front).value;
      ScopesMeaning(p, hash, front, rest);
      var scope := ReadScope(p, hash, last).value;
      forall id, m | id in policy && policy[id] == m
        ensures exists i :: 0 <= i < |items| && ReadScope(p, hash, items[i]) == Some(m) && m.id == id
      {
        if id == scope.id {
          assert items[|items| - 1] == last;
        } else {
          var i :| 0 <= i < |front| && ReadScope(p, hash, front[i]) == Some(m) && m.id == id;
          assert items[i] == front[i];
        }
      }
      forall id, m | exists i :: 0 <= i < |items| && ReadScope(p, hash, items[i]) == Some(m) && m.id == id
        ensures id in policy && policy[id] == m
      {
        var i :| 0 <= i < |items| && ReadScope(p, hash, items[i]) == Some(m) && m.id == id;
        if i < |front| {
          assert items[i] == front[i];
          assert id in rest && rest[id] == m;
        }
      }
    }
  }
}
