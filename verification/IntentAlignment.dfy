/** The intent decision, in its two versions, and why the second simulates the first. */
module IntentAlignment {
  import opened Wrappers
  import opened CodePoints
  import opened Documents
  import opened IntentPolicy
  import opened ActionContext

  // ----- The base result -----

  datatype Taken = Allowed | Blocked | Redacted | NotEvaluated | HookError | HookTimeout

  datatype Base = Base(
    taken: Taken,
    approvalRequired: bool,
    requestId: Option<string>,
    actionHash: Option<string>,
    expiresAt: Option<int>,
    modifiedHash: Option<string>)

  function ReadTaken(j: Json): Option<Taken> {
    if !j.Str? then None
    else if j.s == "allowed" then Some(Allowed)
    else if j.s == "blocked" then Some(Blocked)
    else if j.s == "redacted" then Some(Redacted)
    else if j.s == "not_evaluated" then Some(NotEvaluated)
    else if j.s == "hook_error" then Some(HookError)
    else if j.s == "hook_timeout" then Some(HookTimeout)
    else None
  }

  function OptionalSafeInt(f: Fields, k: Key): Option<Option<int>> {
    if k !in f then Some(None)
    else
      var n :- SafeInt(f[k]);
      Some(Some(n))
  }

  /** `_normalized_base_result`, `_normalized_base` */
  function ReadBase(p: Profile, j: Json): Option<Base> {
    if !j.Obj? || !(j.fields.Keys <= {ActionTaken, ApprovalRequired, ApprovalRequestId, ApprovalActionHash,
                                       ApprovalExpiresAtMs, ModifiedArgumentsHash}) then None
    else
      var f := j.fields;
      var taken :- ReadTaken(At(f, ActionTaken));
      var required := At(f, ApprovalRequired) == Bool(true);
      var bound := ApprovalRequestId in f || ApprovalActionHash in f || ApprovalExpiresAtMs in f;
      var requestId :- OptionalText(p, f, ApprovalRequestId);
      var actionHash :- OptionalHash(f, ApprovalActionHash);
      var expiresAt :- OptionalSafeInt(f, ApprovalExpiresAtMs);
      if ApprovalRequired in f && !f[ApprovalRequired].Bool? then None
      else if required && taken != Blocked then None
      else if bound && (taken != Blocked || !required) then None
      else if ModifiedArgumentsHash in f && (!f[ModifiedArgumentsHash].Str? || taken != Redacted) then None
      else
        Some(Base(taken, required, requestId, actionHash, expiresAt,
                  if ModifiedArgumentsHash in f then Some(f[ModifiedArgumentsHash].s) else None))
  }

  // ----- Decisions -----

  datatype Reason =
    | BaseBlocked | BaseHookError | BaseHookTimeout | BaseNotEvaluated
    | MultipleActiveIntents | IntentNotDeclared | ActionNotAllowed | TargetMissing | TargetNotAllowed
    | RequestedScopeNotAllowed | DataClassificationNotAllowed | RequestedScopeNotPrivileged
    | PriorOutcomeDenied | PriorActionLimitExceeded | ApprovalBindingMissing | ApprovalIsRequired
    | ModifiedHashUnproven | ArgumentsModified | IntentAligned

  /** The outcome, its reason, and for a deferral the fields that would settle it. */
  datatype Decision =
    | Allow(reason: Reason)
    | Deny(reason: Reason)
    | Modify(reason: Reason)
    | StepUp(reason: Reason)
    | Defer(reason: Reason, required: seq<string>)

  function MissingApprovals(b: Base): set<string> {
    (if b.requestId.None? then {"approval_request_id"} else {})
    + (if b.actionHash.None? then {"approval_action_hash"} else {})
    + (if b.expiresAt.None? then {"approval_expires_at_ms"} else {})
  }

  predicate Proves(b: Base, argumentsHash: string) {
    b.modifiedHash.Some? && IsHash(b.modifiedHash.value) && b.modifiedHash.value != argumentsHash
  }

  function Privileges(a: AgentFacts): set<string> {
    GetOr(a.privileges, {})
  }

  /** `evaluate_intent_alignment`: raw targets, `_subset` checks. */
  function EvaluateV1(c: Context, b: Base, policy: Policy): Decision
    requires c.agent.intents != {}
  {
    if b.taken == Blocked && !b.approvalRequired then Deny(BaseBlocked)
    else if b.taken == HookError then Defer(BaseHookError, ["policy_evaluation"])
    else if b.taken == HookTimeout then Defer(BaseHookTimeout, ["policy_evaluation"])
    else if b.taken == NotEvaluated then Defer(BaseNotEvaluated, ["policy_evaluation"])
    else
      var intents := SortedList(c.agent.intents);
      ListsEmpty(intents, c.agent.intents, AtMost);
      if |intents| > 1 then Defer(MultipleActiveIntents, ["active_intents"])
      else if intents[0] !in policy then Defer(IntentNotDeclared, ["intent_policy"])
      else
        var scope, action := policy[intents[0]], c.action;
        if Pair(action.kind, action.name) !in scope.actions then Deny(ActionNotAllowed)
        else if action.target.None? && scope.targets != {} then Defer(TargetMissing, ["action.target"])
        else if action.target.Some? && action.target.value !in scope.targets then Deny(TargetNotAllowed)
        else if !(action.requestedScopes <= scope.requestedScopes) then Deny(RequestedScopeNotAllowed)
        else if !(action.dataClassifications <= scope.dataClassifications) then Deny(DataClassificationNotAllowed)
        else if !(action.requestedScopes <= Privileges(c.agent)) then Deny(RequestedScopeNotPrivileged)
        else if exists r :: r in c.priors && r.outcome in GetOr(scope.denyAfter, {}) then Deny(PriorOutcomeDenied)
        else if scope.maxPriorActions.Some? && |c.priors| > scope.maxPriorActions.value then
          Deny(PriorActionLimitExceeded)
        else if b.taken == Blocked then
          if MissingApprovals(b) != {} then Defer(ApprovalBindingMissing, SortedList(MissingApprovals(b)))
          else StepUp(ApprovalIsRequired)
        else if b.taken == Redacted then
          if !Proves(b, action.argumentsHash) then Defer(ModifiedHashUnproven, ["modified_arguments_hash"])
          else Modify(ArgumentsModified)
        else Allow(IntentAligned)
  }

  /** The reason `base_` + action taken. */
  function BaseReason(t: Taken): Reason {
    if t == HookError then BaseHookError else if t == HookTimeout then BaseHookTimeout else BaseNotEvaluated
  }

  /** `evaluate_intent_alignment_v2`: hashed targets, element-wise checks. */
  function EvaluateV2(c: Context, b: Base, policy: Policy): Decision
    requires c.agent.intents != {}
  {
    if b.taken == Blocked && !b.approvalRequired then Deny(BaseBlocked)
    else if b.taken in {HookError, HookTimeout, NotEvaluated} then Defer(BaseReason(b.taken), ["policy_evaluation"])
    else
      var intents := SortedList(c.agent.intents);
      ListsEmpty(intents, c.agent.intents, AtMost);
      if |intents| > 1 then Defer(MultipleActiveIntents, ["active_intents"])
      else if intents[0] !in policy then Defer(IntentNotDeclared, ["intent_policy"])
      else
        var scope, action := policy[intents[0]], c.action;
        if !exists a :: a in scope.actions && a.kind == action.kind && a.name == action.name then Deny(ActionNotAllowed)
        else if action.target.None? && scope.targets != {} then Defer(TargetMissing, ["action.target"])
        else if action.target.Some? && action.target.value !in scope.targets then Deny(TargetNotAllowed)
        else if exists x :: x in action.requestedScopes && x !in scope.requestedScopes then
          Deny(RequestedScopeNotAllowed)
        else if exists x :: x in action.dataClassifications && x !in scope.dataClassifications then
          Deny(DataClassificationNotAllowed)
        else if exists x :: x in action.requestedScopes && x !in Privileges(c.agent) then
          Deny(RequestedScopeNotPrivileged)
        else if exists r :: r in c.priors && r.outcome in GetOr(scope.denyAfter, {}) then Deny(PriorOutcomeDenied)
        else if scope.maxPriorActions.Some? && |c.priors| > scope.maxPriorActions.value then
          Deny(PriorActionLimitExceeded)
        else if b.taken == Blocked && b.approvalRequired then
          if MissingApprovals(b) != {} then Defer(ApprovalBindingMissing, SortedList(MissingApprovals(b)))
          else StepUp(ApprovalIsRequired)
        else if b.taken == Redacted then
          if !Proves(b, action.argumentsHash) then Defer(ModifiedHashUnproven, ["modified_arguments_hash"])
          else Modify(ArgumentsModified)
        else Allow(IntentAligned)
  }

  // ----- What lets an action through -----

  /** The action lies within the one declared intent. */
  ghost predicate WithinIntent(c: Context, policy: Policy) {
    exists id :: c.agent.intents == {id} && id in policy && WithinScope(c, policy[id])
  }

  ghost predicate WithinScope(c: Context, scope: Meaning) {
    && Pair(c.action.kind, c.action.name) in scope.actions
    && (if c.action.target.Some? then c.action.target.value in scope.targets else scope.targets == {})
    && c.action.requestedScopes <= scope.requestedScopes * Privileges(c.agent)
    && c.action.dataClassifications <= scope.dataClassifications
    && (scope.denyAfter.Some? ==> forall r :: r in c.priors ==> r.outcome !in scope.denyAfter.value)
    && (scope.maxPriorActions.Some? ==> |c.priors| <= scope.maxPriorActions.value)
  }

  lemma OneIntent(s: set<string>)
    requires s != {}
    ensures var r := SortedList(s); |r| >= 1 && (|r| == 1 <==> s == {r[0]})
  {
    var r := SortedList(s);
    ListSize(r, s, AtMost);
    ListsEmpty(r, s, AtMost);
    assert r[0] in s;
    if |r| == 1 {
      assert forall x :: x in s ==> x in r;
    }
  }

  /** The original action goes ahead only when it was allowed and lies within the declared intent;
      it is modified or escalated only within the intent as well. Everything else is refused or
      deferred. */
  lemma AllowMeans(c: Context, b: Base, policy: Policy)
    requires c.agent.intents != {}
    requires b.approvalRequired ==> b.taken == Blocked
    ensures var d := EvaluateV1(c, b, policy);
      && (d.Allow? <==> b.taken == Allowed && WithinIntent(c, policy))
      && (d.Modify? <==> b.taken == Redacted && Proves(b, c.action.argumentsHash) && WithinIntent(c, policy))
      && (d.StepUp? <==>
            b.taken == Blocked && b.approvalRequired && MissingApprovals(b) == {} && WithinIntent(c, policy))
      && (d.Defer? ==> d.required != [])
  {
    hide SortedList, IsHash;
    OneIntent(c.agent.intents);
    ListsEmpty(SortedList(MissingApprovals(b)), MissingApprovals(b), AtMost);
    var first := SortedList(c.agent.intents)[0];
    if WithinIntent(c, policy) {
      var id :| c.agent.intents == {id} && id in policy && WithinScope(c, policy[id]);
      assert first in c.agent.intents;
    }
  }

  // ----- Simulation -----

  function HashedTarget(hash: string -> string, t: Option<string>): Option<string> {
    if t.Some? then Some(hash(t.value)) else None
  }

  /** The version 2 reading of a version 1 context. */
  function Tokenized(hash: string -> string, c: Context): Context {
    c.(action := c.action.(target := HashedTarget(hash, c.action.target)))
  }

  function TokenizedPolicy(hash: string -> string, policy: Policy): Policy {
    map id | id in policy :: policy[id].(targets := Hashed(hash, policy[id].targets))
  }

  /** A target that is not allowed has the hash of one that is. */
  ghost predicate Collides(hash: string -> string, c: Context, policy: Policy) {
    exists id, t ::
      c.action.target.Some? && id in policy && c.agent.intents == {id} && c.action.target.value !in policy[id].targets
      && t in policy[id].targets && hash(t) == hash(c.action.target.value)
  }

  ghost predicate InScope(id: string, t: string, policy: Policy) {
    id in policy && t in policy[id].targets
  }

  /** No two of the targets involved share a hash. */
  ghost predicate Apart(hash: string -> string, c: Context, policy: Policy) {
    c.action.target.Some? ==>
      forall id, t :: InScope(id, t, policy) && hash(t) == hash(c.action.target.value) ==> t == c.action.target.value
  }

  /** The decision gets as far as looking at the target: nothing settles it before, and the one active
      intent is declared and allows the action. */
  ghost predicate ReachesTarget(c: Context, b: Base, policy: Policy) {
    && b.taken !in {HookError, HookTimeout, NotEvaluated} && (b.taken == Blocked ==> b.approvalRequired)
    && exists id :: c.agent.intents == {id} && id in policy && Pair(c.action.kind, c.action.name) in policy[id].actions
  }

  /** On matching inputs the versions decide alike, except exactly when the decision reaches a target
      that is not allowed but has the hash of one that is. */
  lemma SimulationExact(hash: string -> string, c: Context, b: Base, policy: Policy)
    requires c.agent.intents != {}
    requires b.approvalRequired ==> b.taken == Blocked
    ensures EvaluateV2(Tokenized(hash, c), b, TokenizedPolicy(hash, policy)) == EvaluateV1(c, b, policy) <==>
            !(ReachesTarget(c, b, policy) && Collides(hash, c, policy))
  {
    hide EvaluateV1, EvaluateV2, ReachesTarget, Collides, TokenizedPolicy;
    DeniedAlone(hash, c, b, policy);
    DeniedTarget(hash, c, b, policy);
  }

  lemma DeniedAlone(hash: string -> string, c: Context, b: Base, policy: Policy)
    requires c.agent.intents != {}
    requires b.approvalRequired ==> b.taken == Blocked
    ensures EvaluateV2(Tokenized(hash, c), b, TokenizedPolicy(hash, policy)) == EvaluateV1(c, b, policy) <==>
            !(EvaluateV1(c, b, policy) == Deny(TargetNotAllowed) && Collides(hash, c, policy))
  {
    hide SortedList, IsHash, MissingApprovals, Proves;
    OneIntent(c.agent.intents);
    var id := SortedList(c.agent.intents)[0];
    if id in policy && c.agent.intents == {id} {
      SameAction(c.action, policy[id].actions);
      TargetStage(hash, c, policy, id);
    }
  }

  /** Version 1 refuses a colliding target exactly when it gets to look at it. */
  lemma DeniedTarget(hash: string -> string, c: Context, b: Base, policy: Policy)
    requires c.agent.intents != {}
    ensures Collides(hash, c, policy) ==>
      (EvaluateV1(c, b, policy) == Deny(TargetNotAllowed) <==> ReachesTarget(c, b, policy))
  {
    hide SortedList, IsHash, MissingApprovals, Proves;
    OneIntent(c.agent.intents);
    var id := SortedList(c.agent.intents)[0];
    if Collides(hash, c, policy) {
      var i, t :|
        c.action.target.Some? && i in policy && c.agent.intents == {i} && c.action.target.value !in policy[i].targets
        && t in policy[i].targets && hash(t) == hash(c.action.target.value);
      assert i in c.agent.intents && id in SortedList(c.agent.intents);
    }
  }

  /** With a hash that does not tell two targets apart, version 2 allows what version 1 refuses. */
  lemma VersionsDiffer() returns (c: Context, b: Base, policy: Policy)
    ensures c.agent.intents != {}
    ensures EvaluateV1(c, b, policy) == Deny(TargetNotAllowed)
    ensures EvaluateV2(Tokenized(_ => "same", c), b, TokenizedPolicy(_ => "same", policy)) == Allow(IntentAligned)
  {
    hide SortedList;
    var scope := Meaning("intent", {Pair("tool", "read")}, {"allowed"}, {}, {}, None, None);
    var action := ActionFacts("tool", "read", "", {}, {}, Some("other"), None, None);
    policy := map["intent" := scope];
    c := Context(AgentFacts("agent", {"intent"}, None, None), action, "run", [], None, None, None, None, None);
    b := Base(Allowed, false, None, None, None, None);
    OneIntent(c.agent.intents);
    assert SortedList(c.agent.intents)[0] in c.agent.intents;
    assert |"other"| != |"allowed"|;
    TargetHashed("allowed");
    SameAction(action, scope.actions);
  }

  lemma TargetHashed(t: string)
    ensures Hashed(_ => "same", {t}) == {"same"}
  {
    var hash := (s: string) => "same";
    assert hash(t) in Hashed(hash, {t});
  }

  lemma SameAction(a: ActionFacts, actions: set<Pair>)
    ensures Pair(a.kind, a.name) in actions <==> exists x :: x in actions && x.kind == a.kind && x.name == a.name
  {
  }

  lemma TargetStage(hash: string -> string, c: Context, policy: Policy, id: string)
    requires id in policy && c.agent.intents == {id}
    ensures var hashed := Hashed(hash, policy[id].targets);
      && (hashed == {} <==> policy[id].targets == {})
      && (c.action.target.Some? ==>
            (hash(c.action.target.value) in hashed <==>
             c.action.target.value in policy[id].targets || Collides(hash, c, policy)))
  {
    var targets := policy[id].targets;
    assert forall t :: t in targets ==> hash(t) in Hashed(hash, targets);
    if c.action.target.Some? && Collides(hash, c, policy) {
      var i, t :|
        i in policy && c.agent.intents == {i} && t in policy[i].targets && hash(t) == hash(c.action.target.value);
      assert i in c.agent.intents;
    }
  }

  /** A context relabelled as version 2; a raw input carries no label. */
  function RelabelledContext(j: Json): Json {
    if j.Obj? && Schema in j.fields then Obj(j.fields[Schema := ContextSchema(V2)]) else j
  }

  /** What both versions accept as a context, raw or as a document, they read alike up to the target. */
  lemma SameContext(hash: string -> string, size: Json -> nat, j: Json)
    requires NormalizedContext(V1, hash, size, j).Some?
    requires NormalizedContext(V2, hash, size, RelabelledContext(j)).Some?
    ensures NormalizedContext(V2, hash, size, RelabelledContext(j)).value
         == Tokenized(hash, NormalizedContext(V1, hash, size, j).value)
    ensures NormalizedContext(V1, hash, size, j).value.agent.intents != {}
  {
    hide ReadContext, ContextInput, Tokenized, ContextSchema;
    if Schema in j.fields {
      SameDocument(j.fields);
      SameInput(hash, size, ContextInput(V1, j.fields).value);
    } else {
      SameInput(hash, size, j.fields);
    }
  }

  /** A version 1 document and its relabelled form supply the same input. */
  lemma SameDocument(f: Fields)
    requires ContextInput(V1, f).Some? && ContextInput(V2, f[Schema := ContextSchema(V2)]).Some?
    ensures ContextInput(V2, f[Schema := ContextSchema(V2)]) == ContextInput(V1, f)
  {
    var g := f[Schema := ContextSchema(V2)];
    DocumentParts(f);
    RelabelKeeps(f, ContextSchema(V2));
    assert g[Agent] == f[Agent] && Field(g, Principal) == Field(g, Execution) == Field(g, Governance) == None by {
      hide ContextInput, ContextSchema;
    }
    hide *;
    var x, y := ContextInput(V1, f).value, ContextInput(V2, g).value;
    forall k ensures Field(x, k) == Field(y, k) {
      DocumentSupplies(V1, f, k);
      DocumentSupplies(V2, g, k);
      SameSupply(f, g, f[Agent].fields, k);
    }
    SameFields(x, y);
  }

  lemma DocumentParts(f: Fields)
    requires ContextInput(V1, f).Some?
    ensures Principal !in f && Execution !in f && Governance !in f && Agent in f && f[Agent].Obj?
  {
    hide Build, InputField, RootKeys, ContextSchema;
  }

  /** The documents differ in their label alone. */
  ghost predicate SameButSchema(f: Fields, g: Fields) {
    forall k :: k != Schema ==> Field(f, k) == Field(g, k)
  }

  lemma RelabelKeeps(f: Fields, schema: Json)
    ensures SameButSchema(f, f[Schema := schema])
  {
  }

  lemma DocumentSupplies(p: Profile, f: Fields, k: Key)
    requires ContextInput(p, f).Some?
    ensures Agent in f && f[Agent].Obj?
    ensures Field(ContextInput(p, f).value, k) == if k in RootKeys(p) then InputField(f, f[Agent].fields, k) else None
  {
    hide Build, InputField, RootKeys;
    var agent := f[Agent].fields;
    BuildField(RootKeys(p), (i: Key) => InputField(f, agent, i), k);
  }

  lemma SameSupply(f: Fields, g: Fields, agent: Fields, k: Key)
    requires SameButSchema(f, g) && Field(g, Principal) == Field(g, Execution) == Field(g, Governance) == None
    ensures (if k in RootKeys(V1) then InputField(f, agent, k) else None)
         == (if k in RootKeys(V2) then InputField(g, agent, k) else None)
  {
    hide InputField;
    if k in RootKeys(V1) {
      SameInputField(f, g, agent, k);
    } else if k in RootKeys(V2) {
      LayerField(g, agent, k);
    }
  }

  lemma SameInputField(f: Fields, g: Fields, agent: Fields, k: Key)
    requires SameButSchema(f, g) && k != Schema
    ensures InputField(f, agent, k) == InputField(g, agent, k)
  {
    SameAt(f, g, Action);
    SameAt(f, g, RunId);
    SameAt(f, g, PriorActions);
    hide At, Field;
  }

  lemma SameAt(f: Fields, g: Fields, k: Key)
    requires SameButSchema(f, g) && k != Schema
    ensures At(f, k) == At(g, k)
  {
    assert Field(f, k) == Field(g, k);
  }

  lemma LayerField(g: Fields, agent: Fields, k: Key)
    requires k in {Principal, Execution, Governance} && Field(g, k) == None
    ensures InputField(g, agent, k) == None
  {
  }

  lemma SameFields(x: Fields, y: Fields)
    requires forall k :: Field(x, k) == Field(y, k)
    ensures x == y
  {
    forall k ensures k in x <==> k in y {
      assert Field(x, k) == Field(y, k);
    }
    assert x.Keys == y.Keys;
    forall k | k in x ensures x[k] == y[k] {
      assert Field(x, k) == Field(y, k);
    }
  }

  lemma SameInput(hash: string -> string, size: Json -> nat, f: Fields)
    requires ReadContext(V1, hash, size, Obj(f)).Some? && ReadContext(V2, hash, size, Obj(f)).Some?
    ensures ReadContext(V2, hash, size, Obj(f)).value == Tokenized(hash, ReadContext(V1, hash, size, Obj(f)).value)
    ensures ReadContext(V1, hash, size, Obj(f)).value.agent.intents != {}
  {
    hide IsText, ReadPriors, ReadAction, ReadPrior, WriteContext;
    SameActions(hash, At(f, CurrentAction));
    SamePriors(At(f, PriorActions).items);
  }

  lemma SameActions(hash: string -> string, j: Json)
    requires ReadAction(V1, hash, j).Some? && ReadAction(V2, hash, j).Some?
    ensures ReadAction(V2, hash, j).value ==
            var a := ReadAction(V1, hash, j).value; a.(target := HashedTarget(hash, a.target))
  {
    hide IsText, IsHash;
    var f := j.fields;
    assert AttemptId !in f && ParentAttemptId !in f && RemediationRetryHash !in f && TargetHash !in f;
  }

  lemma {:induction false} SamePriors(items: seq<Json>)
    requires ReadPriors(V1, items).Some? && ReadPriors(V2, items).Some?
    ensures ReadPriors(V1, items) == ReadPriors(V2, items)
  {
    hide IsText, IsHash;
    if items != [] {
      SamePriors(items[..|items| - 1]);
    }
  }

  /** A version 1 policy relabelled as version 2. */
  function Relabelled(j: Json): Json {
    if j.Obj? then Obj(j.fields[Schema := PolicySchema(V2)][ProfileVersion := PolicyVersion(V2)]) else j
  }

  lemma SamePolicy(hash: string -> string, j: Json)
    requires ReadPolicy(V1, hash, j).Some? && ReadPolicy(V2, hash, Relabelled(j)).Some?
    ensures ReadPolicy(V2, hash, Relabelled(j)).value == TokenizedPolicy(hash, ReadPolicy(V1, hash, j).value)
  {
    hide ReadScopes, TokenizedPolicy, PolicySchema, PolicyVersion;
    SameScopes(hash, j.fields[IntentScopes].items);
  }

  lemma {:induction false} SameScopes(hash: string -> string, items: seq<Json>)
    requires ReadScopes(V1, hash, items).Some? && ReadScopes(V2, hash, items).Some?
    ensures ReadScopes(V2, hash, items).value == TokenizedPolicy(hash, ReadScopes(V1, hash, items).value)
  {
    hide ReadScope;
    if items != [] {
      var front, last := items[..|items| - 1], items[|items| - 1];
      SameScopes(hash, front);
      SameScope(hash, last);
    }
  }

  lemma SameScope(hash: string -> string, j: Json)
    requires ReadScope(V1, hash, j).Some? && ReadScope(V2, hash, j).Some?
    ensures var m := ReadScope(V1, hash, j).value;
      ReadScope(V2, hash, j).value == m.(targets := Hashed(hash, m.targets))
  {
    hide IsText, IsHash, Image;
  }

  lemma SameBase(j: Json)
    requires ReadBase(V1, j).Some? && ReadBase(V2, j).Some?
    ensures ReadBase(V1, j) == ReadBase(V2, j)
    ensures var b := ReadBase(V1, j).value; b.approvalRequired ==> b.taken == Blocked
  {
    hide IsText, IsHash, ReadTaken;
  }

  /** For a context (raw or a document), base result and policy that both versions accept under their
      own labels, and a hash that keeps the targets involved apart, version 2 decides exactly as
      version 1: same outcome, same reason, same required fields. */
  lemma Simulation(hash: string -> string, size: Json -> nat, context: Json, base: Json, policy: Json)
    requires NormalizedContext(V1, hash, size, context).Some?
    requires NormalizedContext(V2, hash, size, RelabelledContext(context)).Some?
    requires ReadBase(V1, base).Some? && ReadBase(V2, base).Some?
    requires ReadPolicy(V1, hash, policy).Some? && ReadPolicy(V2, hash, Relabelled(policy)).Some?
    requires Apart(hash, NormalizedContext(V1, hash, size, context).value, ReadPolicy(V1, hash, policy).value)
    ensures NormalizedContext(V1, hash, size, context).value.agent.intents != {}
    ensures NormalizedContext(V2, hash, size, RelabelledContext(context)).value.agent.intents != {}
    ensures EvaluateV2(NormalizedContext(V2, hash, size, RelabelledContext(context)).value, ReadBase(V2, base).value,
                       ReadPolicy(V2, hash, Relabelled(policy)).value)
         == EvaluateV1(NormalizedContext(V1, hash, size, context).value, ReadBase(V1, base).value,
                       ReadPolicy(V1, hash, policy).value)
  {
    hide NormalizedContext, RelabelledContext, ReadBase, ReadPolicy, EvaluateV1, EvaluateV2, TokenizedPolicy;
    var c := NormalizedContext(V1, hash, size, context).value;
    var b, m := ReadBase(V1, base).value, ReadPolicy(V1, hash, policy).value;
    SameContext(hash, size, context);
    SameBase(base);
    SamePolicy(hash, policy);
    SimulationExact(hash, c, b, m);
    NeverCollides(hash, c, m);
  }

  lemma NeverCollides(hash: string -> string, c: Context, policy: Policy)
    requires Apart(hash, c, policy)
    ensures !Collides(hash, c, policy)
  {
    forall id, t |
      c.action.target.Some? && id in policy && t in policy[id].targets && hash(t) == hash(c.action.target.value)
      ensures c.action.target.value in policy[id].targets
    {
      assert InScope(id, t, policy);
    }
  }
}
