/** Intent decisions in terms of the documents as given: which field, holding which text, leads to
    which outcome. */
module IntentVerdicts {
  import opened Wrappers
  import opened Documents
  import opened IntentPolicy
  import opened ActionContext
  import opened IntentAlignment

  /** The decision of either version. */
  function Evaluate(p: Profile, c: Context, b: Base, policy: Policy): Decision
    requires c.agent.intents != {}
  {
    if p == V1 then EvaluateV1(c, b, policy) else EvaluateV2(c, b, policy)
  }

  lemma SameStages(c: Context, b: Base, policy: Policy)
    requires c.agent.intents != {}
    requires b.approvalRequired ==> b.taken == Blocked
    ensures EvaluateV2(c, b, policy) == EvaluateV1(c, b, policy)
  {
    hide CodePoints.SortedList, IsHash, MissingApprovals, Proves;
    OneIntent(c.agent.intents);
    var id := CodePoints.SortedList(c.agent.intents)[0];
    if id in policy {
      SameAction(c.action, policy[id].actions);
    }
  }

  // ----- The base result -----

  /** The document holds this text under `action_taken`. */
  predicate Says(f: Fields, text: string) {
    ActionTaken in f && f[ActionTaken] == Str(text)
  }

  predicate ApprovalAsked(f: Fields) {
    ApprovalRequired in f && f[ApprovalRequired] == Bool(true)
  }

  /** 64 lower-case hexadecimal digits, other than the hash of the arguments as asked for. */
  predicate OtherHash(f: Fields, argumentsHash: string) {
    && ModifiedArgumentsHash in f && f[ModifiedArgumentsHash].Str?
    && var s := f[ModifiedArgumentsHash].s;
      && |s| == 64 && s != argumentsHash
      && forall i :: 0 <= i < 64 ==> s[i] in "0123456789abcdef"
  }

  lemma TakenAsGiven(p: Profile, j: Json)
    requires ReadBase(p, j).Some?
    ensures j.Obj?
    ensures var b, f := ReadBase(p, j).value, j.fields;
      && (b.taken == Allowed <==> Says(f, "allowed")) && (b.taken == Blocked <==> Says(f, "blocked"))
      && (b.taken == Redacted <==> Says(f, "redacted")) && (b.taken == NotEvaluated <==> Says(f, "not_evaluated"))
      && (b.taken == HookError <==> Says(f, "hook_error")) && (b.taken == HookTimeout <==> Says(f, "hook_timeout"))
      && (b.approvalRequired <==> ApprovalAsked(f)) && (b.approvalRequired ==> b.taken == Blocked)
  {
    hide IsText, IsHash;
    assert |"allowed"| == 7 && |"blocked"| == 7 && |"redacted"| == 8;
    assert |"not_evaluated"| == 13 && |"hook_error"| == 10 && |"hook_timeout"| == 12;
    assert "allowed"[0] != "blocked"[0];
  }

  predicate SaysKnown(f: Fields) {
    || Says(f, "allowed") || Says(f, "blocked") || Says(f, "redacted")
    || Says(f, "not_evaluated") || Says(f, "hook_error") || Says(f, "hook_timeout")
  }

  predicate ApprovalBound(f: Fields) {
    ApprovalRequestId in f || ApprovalActionHash in f || ApprovalExpiresAtMs in f
  }

  /** Exactly which base results are accepted. */
  lemma BaseAccepted(p: Profile, j: Json)
    ensures ReadBase(p, j).Some? <==>
      && j.Obj? && j.fields.Keys <= {ActionTaken, ApprovalRequired, ApprovalRequestId, ApprovalActionHash,
                                     ApprovalExpiresAtMs, ModifiedArgumentsHash}
      && var f := j.fields;
        && SaysKnown(f) && (ApprovalRequired in f ==> f[ApprovalRequired].Bool?)
        && (ApprovalAsked(f) ==> Says(f, "blocked")) && (ApprovalBound(f) ==> ApprovalAsked(f))
        && (ModifiedArgumentsHash in f ==> f[ModifiedArgumentsHash].Str? && Says(f, "redacted"))
        && (ApprovalRequestId in f ==> Text(p, f[ApprovalRequestId]).Some?)
        && (ApprovalActionHash in f ==> Hash(f[ApprovalActionHash]).Some?)
        && (ApprovalExpiresAtMs in f ==> SafeInt(f[ApprovalExpiresAtMs]).Some?)
  {
    hide ReadTaken, Says, SaysKnown, Text, Hash, SafeInt;
    if j.Obj? {
      TextsRead(j.fields);
    }
  }

  lemma TextsRead(f: Fields)
    ensures var t := ReadTaken(At(f, ActionTaken));
      && (t.Some? <==> SaysKnown(f))
      && (t == Some(Blocked) <==> Says(f, "blocked")) && (t == Some(Redacted) <==> Says(f, "redacted"))
  {
    assert |"allowed"| == 7 && |"blocked"| == 7 && |"redacted"| == 8;
    assert "allowed"[0] != "blocked"[0];
  }

  lemma ApprovalsAsGiven(p: Profile, j: Json, argumentsHash: string)
    requires ReadBase(p, j).Some?
    ensures j.Obj?
    ensures var b, f := ReadBase(p, j).value, j.fields;
      && (MissingApprovals(b) == {} <==> {ApprovalRequestId, ApprovalActionHash, ApprovalExpiresAtMs} <= f.Keys)
      && ("approval_request_id" in MissingApprovals(b) <==> ApprovalRequestId !in f)
      && ("approval_action_hash" in MissingApprovals(b) <==> ApprovalActionHash !in f)
      && ("approval_expires_at_ms" in MissingApprovals(b) <==> ApprovalExpiresAtMs !in f)
      && MissingApprovals(b) <= {"approval_request_id", "approval_action_hash", "approval_expires_at_ms"}
      && (Proves(b, argumentsHash) <==> OtherHash(f, argumentsHash))
  {
    hide IsText;
    var b, f := ReadBase(p, j).value, j.fields;
    MissingTexts(b);
    assert b.requestId.None? <==> ApprovalRequestId !in f;
    assert b.actionHash.None? <==> ApprovalActionHash !in f;
    assert b.expiresAt.None? <==> ApprovalExpiresAtMs !in f;
    if ModifiedArgumentsHash in f {
      HexDigits(b.modifiedHash.value);
    }
  }

  lemma MissingTexts(b: Base)
    ensures MissingApprovals(b) == {} <==> b.requestId.Some? && b.actionHash.Some? && b.expiresAt.Some?
    ensures "approval_request_id" in MissingApprovals(b) <==> b.requestId.None?
    ensures "approval_action_hash" in MissingApprovals(b) <==> b.actionHash.None?
    ensures "approval_expires_at_ms" in MissingApprovals(b) <==> b.expiresAt.None?
    ensures MissingApprovals(b) <= {"approval_request_id", "approval_action_hash", "approval_expires_at_ms"}
  {
    assert |"approval_request_id"| == 19 && |"approval_action_hash"| == 20 && |"approval_expires_at_ms"| == 22;
    assert b.requestId.None? ==> "approval_request_id" in MissingApprovals(b);
    assert b.actionHash.None? ==> "approval_action_hash" in MissingApprovals(b);
    assert b.expiresAt.None? ==> "approval_expires_at_ms" in MissingApprovals(b);
  }

  lemma HexDigits(s: string)
    ensures IsHash(s) <==> |s| == 64 && forall i :: 0 <= i < 64 ==> s[i] in "0123456789abcdef"
  {
    forall c: char ensures IsHex(c) <==> c in "0123456789abcdef" {
      HexDigit(c);
    }
  }

  lemma HexDigit(c: char)
    ensures IsHex(c) <==> c in "0123456789abcdef"
  {
    var digits := "0123456789abcdef";
    assert forall i :: 0 <= i < 10 ==> digits[i] as int == '0' as int + i;
    assert forall i :: 10 <= i < 16 ==> digits[i] as int == 'a' as int + i - 10;
    if '0' <= c <= '9' {
      assert digits[c as int - '0' as int] == c;
    }
    if 'a' <= c <= 'f' {
      assert digits[c as int - 'a' as int + 10] == c;
    }
  }

  /** For either version, every base result it accepts, and every context and policy: what the outcome
      is, in terms of the base result as given. */
  lemma OutcomeAsGiven(p: Profile, c: Context, base: Json, policy: Policy)
    requires c.agent.intents != {} && ReadBase(p, base).Some?
    ensures base.Obj?
    ensures var d, f := Evaluate(p, c, ReadBase(p, base).value, policy), base.fields;
      && (d.Allow? <==> Says(f, "allowed") && WithinIntent(c, policy))
      && (d.Modify? <==> Says(f, "redacted") && OtherHash(f, c.action.argumentsHash) && WithinIntent(c, policy))
      && (d.StepUp? <==>
            && Says(f, "blocked") && ApprovalAsked(f)
            && {ApprovalRequestId, ApprovalActionHash, ApprovalExpiresAtMs} <= f.Keys && WithinIntent(c, policy))
      && (d == Deny(BaseBlocked) <==> Says(f, "blocked") && !ApprovalAsked(f))
      && (d == Defer(BaseHookError, ["policy_evaluation"]) <==> Says(f, "hook_error"))
      && (d == Defer(BaseHookTimeout, ["policy_evaluation"]) <==> Says(f, "hook_timeout"))
      && (d == Defer(BaseNotEvaluated, ["policy_evaluation"]) <==> Says(f, "not_evaluated"))
  {
    hide ReadBase, WithinIntent, EvaluateV1, EvaluateV2, MissingApprovals, Proves, OtherHash, Says, ApprovalAsked;
    var b := ReadBase(p, base).value;
    TakenAsGiven(p, base);
    ApprovalsAsGiven(p, base, c.action.argumentsHash);
    SameStages(c, b, policy);
    AllowMeans(c, b, policy);
    BaseOutcomes(c, b, policy);
  }

  lemma BaseOutcomes(c: Context, b: Base, policy: Policy)
    requires c.agent.intents != {}
    ensures var d := EvaluateV1(c, b, policy);
      && (d == Deny(BaseBlocked) <==> b.taken == Blocked && !b.approvalRequired)
      && (d == Defer(BaseHookError, ["policy_evaluation"]) <==> b.taken == HookError)
      && (d == Defer(BaseHookTimeout, ["policy_evaluation"]) <==> b.taken == HookTimeout)
      && (d == Defer(BaseNotEvaluated, ["policy_evaluation"]) <==> b.taken == NotEvaluated)
  {
    hide CodePoints.SortedList, IsHash, MissingApprovals, Proves;
    OneIntent(c.agent.intents);
  }

  // ----- The context and the policy -----

  /** What a list under a key holds; nothing when there is no list. */
  function Items(f: Fields, k: Key): seq<Json> {
    if k in f && f[k].List? then f[k].items else []
  }

  function Parts(j: Json): Fields {
    if j.Obj? then j.fields else map[]
  }

  /** What stands for the action's target: in version 1 its text, in version 2 the hash of its text or
      the hash that was given. */
  function TargetToken(p: Profile, hash: string -> string, action: Fields): Option<string> {
    if Target in action then Some(if p == V1 then TextOf(action[Target]) else hash(TextOf(action[Target])))
    else if p == V2 && TargetHash in action then Some(TextOf(action[TargetHash]))
    else None
  }

  ghost predicate TokenAllowed(p: Profile, hash: string -> string, scope: Fields, token: string) {
    || (exists x :: x in Items(scope, AllowedTargets) && (if p == V1 then TextOf(x) else hash(TextOf(x))) == token)
    || (p == V2 && exists x :: x in Items(scope, AllowedTargetHashes) && TextOf(x) == token)
  }

  ghost predicate TargetAdmitted(p: Profile, hash: string -> string, action: Fields, scope: Fields) {
    var token := TargetToken(p, hash, action);
    if token.Some? then TokenAllowed(p, hash, scope, token.value)
    else Items(scope, AllowedTargets) == [] && (p == V2 ==> Items(scope, AllowedTargetHashes) == [])
  }

  predicate SameNames(a: Fields, b: Fields) {
    At(a, Kind) == At(b, Kind) && At(a, Name) == At(b, Name)
  }

  ghost predicate ActionListed(action: Fields, scope: Fields) {
    exists a :: a in Items(scope, AllowedActions) && SameNames(Parts(a), action)
  }

  ghost predicate Among(xs: seq<Json>, ys: seq<Json>) {
    forall x :: x in xs ==> x in ys
  }

  predicate NoMoreThan(n: nat, j: Json) {
    j.Int? && n <= j.n
  }

  /** One scope of the policy as given admits the action of the input as given. */
  ghost predicate Admits(p: Profile, hash: string -> string, input: Fields, scope: Fields) {
    var action := Parts(At(input, CurrentAction));
    && (forall x :: x in Items(input, ActiveIntents) ==> x == At(scope, IntentId))
    && ActionListed(action, scope)
    && TargetAdmitted(p, hash, action, scope)
    && Among(Items(action, RequestedScopes), Items(scope, AllowedRequestedScopes))
    && Among(Items(action, RequestedScopes), Items(input, PrivilegeScope))
    && Among(Items(action, DataClassifications), Items(scope, AllowedDataClassifications))
    && (forall r :: r in Items(input, PriorActions) ==> At(Parts(r), Outcome) !in Items(scope, DenyAfterOutcomes))
    && (MaxPriorActions in scope ==> NoMoreThan(|Items(input, PriorActions)|, scope[MaxPriorActions]))
  }

  /** A set of texts is what a list of them holds. */
  ghost predicate Holds(items: seq<Json>, s: set<string>) {
    && (forall t :: t in s <==> Str(t) in items)
    && (forall x :: x in items ==> x.Str?)
  }

  lemma TextSetHolds(p: Profile, f: Fields, k: Key)
    requires TextSet(p, At(f, k)).Some?
    ensures Holds(Items(f, k), TextSet(p, At(f, k)).value)
  {
    hide IsText;
    ImageHolds(At(f, k).items);
  }

  lemma ImageHolds(items: seq<Json>)
    requires forall x :: x in items ==> x.Str?
    ensures Holds(items, Image(items, TextOf))
  {
    forall t ensures t in Image(items, TextOf) <==> Str(t) in items {
      if Str(t) in items {
        assert TextOf(Str(t)) == t;
      }
    }
  }

  lemma AmongSets(xs: seq<Json>, ys: seq<Json>, a: set<string>, b: set<string>)
    requires Holds(xs, a) && Holds(ys, b)
    ensures Among(xs, ys) <==> a <= b
  {
    if a <= b {
      forall x | x in xs ensures x in ys {
        assert x == Str(x.s) && x.s in a;
      }
    }
    if Among(xs, ys) {
      forall t | t in a ensures t in b {
        assert Str(t) in xs;
      }
    }
  }

  // ----- Reading a scope -----

  lemma ScopeAsGiven(p: Profile, hash: string -> string, j: Json)
    requires ReadScope(p, hash, j).Some?
    ensures j.Obj?
    ensures var m, f := ReadScope(p, hash, j).value, j.fields;
      && At(f, IntentId) == Str(m.id)
      && Holds(Items(f, AllowedRequestedScopes), m.requestedScopes)
      && Holds(Items(f, AllowedDataClassifications), m.dataClassifications)
      && Holds(Items(f, DenyAfterOutcomes), GetOr(m.denyAfter, {}))
      && (MaxPriorActions !in f ==> m.maxPriorActions.None?)
      && (MaxPriorActions in f ==> m.maxPriorActions.Some? && f[MaxPriorActions] == Int(m.maxPriorActions.value))
  {
    hide IsText, PairSet, TargetSet, TextSet, Holds, Items;
    var f := j.fields;
    TextSetHolds(p, f, AllowedRequestedScopes);
    TextSetHolds(p, f, AllowedDataClassifications);
    if DenyAfterOutcomes in f {
      TextSetHolds(p, f, DenyAfterOutcomes);
    } else {
      NothingHeld(f, DenyAfterOutcomes);
    }
  }

  lemma NothingHeld(f: Fields, k: Key)
    requires k !in f
    ensures Holds(Items(f, k), {})
  {
  }

  lemma ScopeActions(p: Profile, hash: string -> string, j: Json, action: Fields, kind: string, name: string)
    requires ReadScope(p, hash, j).Some? && At(action, Kind) == Str(kind) && At(action, Name) == Str(name)
    ensures j.Obj?
    ensures ActionListed(action, j.fields) <==> Pair(kind, name) in ReadScope(p, hash, j).value.actions
  {
    hide IsText, TargetSet, TextSet, OutcomeSet, Maximum;
    var f := j.fields;
    PairsListed(p, At(f, AllowedActions), kind, name);
    assert Items(f, AllowedActions) == At(f, AllowedActions).items;
  }

  lemma PairsListed(p: Profile, j: Json, kind: string, name: string)
    requires PairSet(p, j).Some?
    ensures j.List?
    ensures Pair(kind, name) in PairSet(p, j).value <==>
      exists a :: a in j.items && At(Parts(a), Kind) == Str(kind) && At(Parts(a), Name) == Str(name)
  {
    hide IsText;
    forall a | a in j.items
      ensures PairOf(a) == Pair(kind, name) <==> At(Parts(a), Kind) == Str(kind) && At(Parts(a), Name) == Str(name)
    {
      assert IsPair(p, a);
    }
  }

  lemma ScopeTargets(p: Profile, hash: string -> string, j: Json, token: string)
    requires ReadScope(p, hash, j).Some?
    ensures j.Obj?
    ensures var m, f := ReadScope(p, hash, j).value, j.fields;
      && (TokenAllowed(p, hash, f, token) <==> token in m.targets)
      && (m.targets == {} <==> Items(f, AllowedTargets) == [] && (p == V2 ==> Items(f, AllowedTargetHashes) == []))
  {
    hide IsText, PairSet, TextSet, OutcomeSet, Maximum;
    TokensRead(p, hash, j.fields, token);
  }

  lemma TokensRead(p: Profile, hash: string -> string, f: Fields, token: string)
    requires TargetSet(p, hash, f).Some?
    ensures var targets := TargetSet(p, hash, f).value;
      && (TokenAllowed(p, hash, f, token) <==> token in targets)
      && (targets == {} <==> Items(f, AllowedTargets) == [] && (p == V2 ==> Items(f, AllowedTargetHashes) == []))
  {
    hide IsText, IsHash;
    var k := if AllowedTargets in f then AllowedTargets else AllowedTargetHashes;
    var items := Items(f, k);
    assert items != [] ==> items[0] in items && TextOf(items[0]) in Image(items, TextOf);
    assert items != [] && p == V2 && k == AllowedTargets ==>
      hash(TextOf(items[0])) in Hashed(hash, Image(items, TextOf));
  }

  // ----- Reading an input -----

  lemma InputAsGiven(p: Profile, hash: string -> string, f: Fields)
    requires ReadInput(p, hash, f).Some?
    ensures var c := ReadInput(p, hash, f).value;
      && Holds(Items(f, ActiveIntents), c.agent.intents) && c.agent.intents != {}
      && Holds(Items(f, PrivilegeScope), Privileges(c.agent))
      && ReadAction(p, hash, At(f, CurrentAction)) == Some(c.action)
      && ReadPriors(p, Items(f, PriorActions)) == Some(c.priors)
  {
    hide IsText, TextSet, Holds, ReadAction, ReadPriors, ReadPrincipal, ReadExecution, ReadGovernance;
    TextSetHolds(p, f, ActiveIntents);
    if PrivilegeScope in f {
      TextSetHolds(p, f, PrivilegeScope);
    } else {
      NothingHeld(f, PrivilegeScope);
    }
  }

  lemma ActionAsGiven(p: Profile, hash: string -> string, j: Json)
    requires ReadAction(p, hash, j).Some?
    ensures j.Obj?
    ensures var a, f := ReadAction(p, hash, j).value, j.fields;
      && At(f, Kind) == Str(a.kind) && At(f, Name) == Str(a.name) && At(f, ArgumentsHash) == Str(a.argumentsHash)
      && Holds(Items(f, RequestedScopes), a.requestedScopes)
      && Holds(Items(f, DataClassifications), a.dataClassifications)
      && TargetToken(p, hash, f) == a.target
  {
    hide IsText, IsHash, TextSet, Holds, Items, ReadRetry;
    TextSetHolds(p, j.fields, RequestedScopes);
    TextSetHolds(p, j.fields, DataClassifications);
  }

  lemma {:induction false} PriorsAsGiven(p: Profile, items: seq<Json>, outcomes: seq<Json>, deny: set<string>)
    requires ReadPriors(p, items).Some? && Holds(outcomes, deny)
    ensures |ReadPriors(p, items).value| == |items|
    ensures (forall r :: r in ReadPriors(p, items).value ==> r.outcome !in deny) <==>
      (forall r :: r in items ==> At(Parts(r), Outcome) !in outcomes)
  {
    hide ReadPrior;
    if items != [] {
      var front, last := items[..|items| - 1], items[|items| - 1];
      assert items == front + [last];
      PriorsAsGiven(p, front, outcomes, deny);
      PriorOutcome(p, last);
      assert ReadPriors(p, items).value == ReadPriors(p, front).value + [ReadPrior(p, last).value];
    }
  }

  lemma PriorOutcome(p: Profile, j: Json)
    requires ReadPrior(p, j).Some?
    ensures At(Parts(j), Outcome) == Str(ReadPrior(p, j).value.outcome)
  {
    hide IsText, IsHash, TextSet;
  }

  // ----- Both together -----

  lemma AdmitsMeaning(p: Profile, hash: string -> string, input: Fields, j: Json)
    requires ReadInput(p, hash, input).Some? && ReadScope(p, hash, j).Some?
    ensures j.Obj?
    ensures var c, m := ReadInput(p, hash, input).value, ReadScope(p, hash, j).value;
      Admits(p, hash, input, j.fields) <==> c.agent.intents == {m.id} && WithinScope(c, m)
  {
    hide ReadInput, ReadScope, ReadAction, ReadPriors, Holds, Items, Among, ActionListed, TokenAllowed, TargetToken, At;
    var c, m := ReadInput(p, hash, input).value, ReadScope(p, hash, j).value;
    InputAsGiven(p, hash, input);
    ActionAsGiven(p, hash, At(input, CurrentAction));
    ScopeAsGiven(p, hash, j);
    var f, action := j.fields, At(input, CurrentAction).fields;
    assert action == Parts(At(input, CurrentAction));
    OnlyIntent(Items(input, ActiveIntents), c.agent.intents, At(f, IntentId), m.id);
    ScopeActions(p, hash, j, action, c.action.kind, c.action.name);
    ScopeTargets(p, hash, j, GetOr(c.action.target, ""));
    var requested := Items(action, RequestedScopes);
    AmongSets(requested, Items(f, AllowedRequestedScopes), c.action.requestedScopes, m.requestedScopes);
    AmongSets(requested, Items(input, PrivilegeScope), c.action.requestedScopes, Privileges(c.agent));
    AmongSets(Items(action, DataClassifications), Items(f, AllowedDataClassifications),
              c.action.dataClassifications, m.dataClassifications);
    PriorsAsGiven(p, Items(input, PriorActions), Items(f, DenyAfterOutcomes), GetOr(m.denyAfter, {}));
  }

  lemma OnlyIntent(items: seq<Json>, intents: set<string>, given: Json, id: string)
    requires Holds(items, intents) && intents != {} && given == Str(id)
    ensures (forall x :: x in items ==> x == given) <==> intents == {id}
  {
    if forall x :: x in items ==> x == given {
      forall t | t in intents ensures t == id {
        assert Str(t) in items;
      }
      var t :| t in intents;
    }
    if intents == {id} {
      forall x | x in items ensures x == given {
        assert x == Str(x.s) && x.s in intents;
      }
    }
  }

  /** The action lies within the declared intent exactly when some scope of the policy as given admits
      the input as given. */
  lemma WithinAsGiven(p: Profile, hash: string -> string, size: Json -> nat, input: Json, policy: Json)
    requires ReadContext(p, hash, size, input).Some? && ReadPolicy(p, hash, policy).Some?
    ensures WithinIntent(ReadContext(p, hash, size, input).value, ReadPolicy(p, hash, policy).value) <==>
      exists s :: s in Items(Parts(policy), IntentScopes) && Admits(p, hash, Parts(input), Parts(s))
  {
    hide ReadInput, ReadScope, ReadScopes, Admits, WithinScope, PolicySchema, PolicyVersion, WriteContext;
    var c, m := ReadContext(p, hash, size, input).value, ReadPolicy(p, hash, policy).value;
    var items := Items(Parts(policy), IntentScopes);
    if WithinIntent(c, m) {
      var id :| c.agent.intents == {id} && id in m && WithinScope(c, m[id]);
      var i := ScopeFound(p, hash, items, m, id);
      AdmitsMeaning(p, hash, input.fields, items[i]);
      assert items[i] in items;
    }
    if s :| s in items && Admits(p, hash, Parts(input), Parts(s)) {
      var i :| 0 <= i < |items| && items[i] == s;
      ScopeKept(p, hash, items, m, i);
      AdmitsMeaning(p, hash, input.fields, s);
    }
  }

  lemma {:induction false} ScopeFound(p: Profile, hash: string -> string, items: seq<Json>, policy: Policy, id: string)
    returns (i: nat)
    requires ReadScopes(p, hash, items) == Some(policy) && id in policy
    ensures i < |items| && ReadScope(p, hash, items[i]) == Some(policy[id]) && policy[id].id == id
  {
    hide ReadScope;
    i := |items| - 1;
    if id != ReadScope(p, hash, items[i]).value.id {
      i := ScopeFound(p, hash, items[..i], ReadScopes(p, hash, items[..i]).value, id);
    }
  }

  lemma {:induction false} ScopeKept(p: Profile, hash: string -> string, items: seq<Json>, policy: Policy, i: nat)
    requires ReadScopes(p, hash, items) == Some(policy) && i < |items|
    ensures ReadScope(p, hash, items[i]).Some?
    ensures var scope := ReadScope(p, hash, items[i]).value; scope.id in policy && policy[scope.id] == scope
  {
    hide ReadScope;
    var last := |items| - 1;
    if i < last {
      ScopeKept(p, hash, items[..last], ReadScopes(p, hash, items[..last]).value, i);
    }
  }

  /** For either version and all three documents as given: the original action goes ahead exactly when
      the base result says "allowed" and a scope of the policy admits the input. */
  lemma AllowedAsGiven(p: Profile, hash: string -> string, size: Json -> nat, input: Json, base: Json, policy: Json)
    requires ReadContext(p, hash, size, input).Some? && ReadBase(p, base).Some? && ReadPolicy(p, hash, policy).Some?
    ensures var c := ReadContext(p, hash, size, input).value;
      && c.agent.intents != {}
      && (Evaluate(p, c, ReadBase(p, base).value, ReadPolicy(p, hash, policy).value).Allow? <==>
          && Says(Parts(base), "allowed")
          && exists s :: s in Items(Parts(policy), IntentScopes) && Admits(p, hash, Parts(input), Parts(s)))
  {
    hide ReadInput, ReadBase, ReadPolicy, Evaluate, Admits, WithinIntent, Says, WriteContext;
    InputAsGiven(p, hash, input.fields);
    WithinAsGiven(p, hash, size, input, policy);
    OutcomeAsGiven(p, ReadContext(p, hash, size, input).value, base, ReadPolicy(p, hash, policy).value);
  }
}
