/** Exactly which policies and contexts are accepted, field by field. */
module IntentAccepted {
  import opened Wrappers
  import opened Documents
  import opened IntentPolicy
  import opened ActionContext

  predicate HasText(p: Profile, f: Fields, k: Key) {
    k in f && Text(p, f[k]).Some?
  }

  predicate HasHash(f: Fields, k: Key) {
    k in f && Hash(f[k]).Some?
  }

  predicate HasTexts(p: Profile, f: Fields, k: Key) {
    k in f && TextSet(p, f[k]).Some?
  }

  predicate HasOneOf(f: Fields, k: Key, texts: set<string>) {
    k in f && f[k].Str? && f[k].s in texts
  }

  /** A missing field is never a text, a hash, a list or a number. */
  lemma NothingThere(p: Profile)
    ensures Text(p, Null).None? && Hash(Null).None? && TextSet(p, Null).None? && PairSet(p, Null).None?
    ensures SafeInt(Null).None?
  {
  }

  // ----- Policies -----

  predicate TargetsGiven(p: Profile, f: Fields) {
    if p == V1 then HasTexts(V1, f, AllowedTargets)
    else
      && (AllowedTargets in f <==> AllowedTargetHashes !in f)
      && (AllowedTargets in f ==> IsList(V2, f[AllowedTargets]) && AllTargets(f[AllowedTargets].items))
      && (AllowedTargetHashes in f ==> IsList(V2, f[AllowedTargetHashes]) && AllHashes(f[AllowedTargetHashes].items))
  }

  predicate ScopeGiven(p: Profile, f: Fields) {
    && f.Keys <= {IntentId, AllowedActions, AllowedTargets, AllowedRequestedScopes, AllowedDataClassifications,
                  DenyAfterOutcomes, MaxPriorActions} + (if p == V2 then {AllowedTargetHashes} else {})
    && TargetsGiven(p, f) && HasText(p, f, IntentId)
    && AllowedActions in f && PairSet(p, f[AllowedActions]).Some?
    && HasTexts(p, f, AllowedRequestedScopes) && HasTexts(p, f, AllowedDataClassifications)
    && (DenyAfterOutcomes in f ==>
          && HasTexts(p, f, DenyAfterOutcomes)
          && TextSet(p, f[DenyAfterOutcomes]).value <= {"ALLOW", "DENY", "MODIFY", "STEP_UP", "DEFER"})
    && (MaxPriorActions in f ==> SafeInt(f[MaxPriorActions]).Some?)
  }

  lemma ScopeAccepted(p: Profile, hash: string -> string, j: Json)
    ensures ReadScope(p, hash, j).Some? <==> j.Obj? && ScopeGiven(p, j.fields)
  {
    NothingThere(p);
    hide Text, TextSet, PairSet, AllTargets, AllHashes, SafeInt;
  }

  predicate ScopesGiven(p: Profile, items: seq<Json>) {
    && (forall x :: x in items ==> x.Obj? && ScopeGiven(p, x.fields))
    && (forall i, j :: 0 <= i < j < |items| ==> IdOf(items[i]) != IdOf(items[j]))
  }

  function IdOf(j: Json): Json {
    if j.Obj? then At(j.fields, IntentId) else Null
  }

  lemma {:induction false} ScopesAccepted(p: Profile, hash: string -> string, items: seq<Json>)
    ensures ReadScopes(p, hash, items).Some? <==> ScopesGiven(p, items)
    ensures ReadScopes(p, hash, items).Some? ==>
      forall id :: id in ReadScopes(p, hash, items).value <==> exists x :: x in items && IdOf(x) == Str(id)
  {
    hide ReadScope, ScopeGiven;
    if items != [] {
      var front, last := items[..|items| - 1], items[|items| - 1];
      assert items == front + [last];
      ScopesAccepted(p, hash, front);
      ScopeAccepted(p, hash, last);
      if ReadScope(p, hash, last).Some? {
        ScopeNamed(p, hash, last);
      }
    }
  }

  lemma ScopeNamed(p: Profile, hash: string -> string, j: Json)
    requires ReadScope(p, hash, j).Some?
    ensures IdOf(j) == Str(ReadScope(p, hash, j).value.id)
  {
    hide IsText, TextSet, PairSet, TargetSet, OutcomeSet, Maximum;
  }

  /** A policy is accepted exactly when it names its schema and version and has only accepted scopes, no
      two of one id. */
  lemma PolicyAccepted(p: Profile, hash: string -> string, j: Json)
    ensures ReadPolicy(p, hash, j).Some? <==>
      && j.Obj? && j.fields.Keys == {Schema, ProfileVersion, IntentScopes}
      && j.fields[Schema] == Str(if p == V1 then "obsvr-intent-policy-v1" else "obsvr-intent-policy-v2")
      && j.fields[ProfileVersion] == Str(if p == V1 then "1.0" else "2.0")
      && IsList(p, j.fields[IntentScopes]) && ScopesGiven(p, j.fields[IntentScopes].items)
  {
    hide ReadScopes, ScopesGiven;
    if j.Obj? && IntentScopes in j.fields && j.fields[IntentScopes].List? {
      ScopesAccepted(p, hash, j.fields[IntentScopes].items);
    }
  }

  // ----- Contexts -----

  predicate ActionGiven(p: Profile, f: Fields) {
    && f.Keys <= {Kind, Name, ArgumentsHash, Target, DataClassifications, RequestedScopes}
                 + (if p == V2 then {TargetHash, AttemptId, ParentAttemptId, RemediationRetryHash} else {})
    && HasText(p, f, Kind) && HasText(p, f, Name) && HasHash(f, ArgumentsHash)
    && HasTexts(p, f, DataClassifications) && HasTexts(p, f, RequestedScopes)
    && (Target in f ==> Text(p, f[Target], if p == V1 then 256 else 1024).Some?)
    && (p == V2 ==>
          && !(Target in f && TargetHash in f) && (TargetHash in f ==> HasHash(f, TargetHash))
          && (AttemptId in f ==> HasText(V2, f, AttemptId)) && RetryGiven(f))
  }

  /** A retry names its parent and its remediation, and an attempt of its own. */
  predicate RetryGiven(f: Fields) {
    && (ParentAttemptId in f <==> RemediationRetryHash in f)
    && (ParentAttemptId in f ==>
          && HasText(V2, f, ParentAttemptId) && HasHash(f, RemediationRetryHash)
          && AttemptId in f && f[AttemptId] != f[ParentAttemptId])
  }

  lemma RetryAccepted(f: Fields, attempt: Option<string>)
    requires OptionalText(V2, f, AttemptId) == Some(attempt)
    ensures ReadRetry(f, attempt).Some? <==> RetryGiven(f)
  {
    hide IsText, IsHash;
  }

  lemma TargetAccepted(p: Profile, hash: string -> string, f: Fields)
    ensures p == V1 ==> (ReadTarget(p, hash, f).Some? <==> (Target in f ==> Text(p, f[Target], 256).Some?))
    ensures p == V2 ==> (ReadTarget(p, hash, f).Some? <==>
      && (Target in f ==> Text(p, f[Target], 1024).Some?)
      && !(Target in f && TargetHash in f) && (TargetHash in f ==> HasHash(f, TargetHash)))
  {
    hide IsText, IsHash;
  }

  lemma ActionAccepted(p: Profile, hash: string -> string, j: Json)
    ensures ReadAction(p, hash, j).Some? <==> j.Obj? && ActionGiven(p, j.fields)
  {
    NothingThere(p);
    hide Text, Hash, TextSet, ReadTarget, ReadRetry, RetryGiven;
    if j.Obj? {
      var f := j.fields;
      TargetAccepted(p, hash, f);
      var attempt := OptionalText(V2, f, AttemptId);
      if attempt.Some? {
        RetryAccepted(f, attempt.value);
      }
    }
  }

  predicate PriorGiven(p: Profile, j: Json) {
    && j.Obj? && j.fields.Keys == {Sequence, Kind, Name, Outcome, ReceiptHash, DataClassifications}
    && SafeInt(j.fields[Sequence]).Some?
    && HasOneOf(j.fields, Outcome, {"ALLOW", "DENY", "MODIFY", "STEP_UP", "DEFER"})
    && HasText(p, j.fields, Kind) && HasText(p, j.fields, Name) && HasHash(j.fields, ReceiptHash)
    && HasTexts(p, j.fields, DataClassifications)
  }

  /** The document shows this sequence number. */
  predicate Numbered(j: Json, n: int) {
    j.Obj? && At(j.fields, Sequence) == Int(n)
  }

  lemma PriorAccepted(p: Profile, j: Json)
    ensures ReadPrior(p, j).Some? <==> PriorGiven(p, j)
    ensures ReadPrior(p, j).Some? ==> Numbered(j, ReadPrior(p, j).value.sequence)
  {
    NothingThere(p);
    hide Text, Hash, TextSet;
  }

  /** The first sequence number is smaller than the second. */
  predicate Earlier(a: Json, b: Json) {
    && a.Obj? && At(a.fields, Sequence).Int? && b.Obj? && At(b.fields, Sequence).Int?
    && At(a.fields, Sequence).n < At(b.fields, Sequence).n
  }

  predicate PriorsGiven(p: Profile, items: seq<Json>) {
    && (forall x :: x in items ==> PriorGiven(p, x))
    && (forall i, j :: 0 <= i < |items| && j == i + 1 < |items| ==> Earlier(items[i], items[j]))
  }

  lemma PriorsGivenStep(p: Profile, front: seq<Json>, last: Json)
    ensures PriorsGiven(p, front + [last]) <==>
      PriorsGiven(p, front) && PriorGiven(p, last) && (front != [] ==> Earlier(front[|front| - 1], last))
  {
    hide PriorGiven, Earlier;
    var items := front + [last];
    assert items[|front|] == last && forall i :: 0 <= i < |front| ==> items[i] == front[i];
    if PriorsGiven(p, items) {
      forall x | x in front ensures PriorGiven(p, x) {
        assert x in items;
      }
      assert last in items;
      assert front != [] ==> Earlier(items[|front| - 1], items[|front|]);
      forall i, j | 0 <= i < |front| && j == i + 1 < |front| ensures Earlier(front[i], front[j]) {
        assert Earlier(items[i], items[j]);
      }
    }
  }

  lemma ReadPriorsStep(p: Profile, front: seq<Json>, last: Json)
    ensures var r, x := ReadPriors(p, front), ReadPrior(p, last);
      ReadPriors(p, front + [last]) ==
        if r.None? || x.None? then None
        else if r.value != [] && x.value.sequence <= r.value[|r.value| - 1].sequence then None
        else Some(r.value + [x.value])
  {
    hide ReadPrior;
    assert (front + [last])[..|front|] == front;
  }

  lemma EarlierNumbers(a: Json, b: Json, m: int, n: int)
    requires Numbered(a, m) && Numbered(b, n)
    ensures Earlier(a, b) <==> m < n
  {
  }

  /** Prior actions are accepted exactly when each is and their sequence numbers ascend. */
  lemma {:induction false} PriorsAccepted(p: Profile, items: seq<Json>)
    ensures ReadPriors(p, items).Some? <==> PriorsGiven(p, items)
    ensures var r := ReadPriors(p, items);
      r.Some? ==> |r.value| == |items| && (items != [] ==>
        Numbered(items[|items| - 1], r.value[|items| - 1].sequence))
  {
    hide ReadPrior, PriorGiven, PriorsGiven, Earlier, Numbered;
    if items == [] {
      NoPriors(p);
    } else {
      var front, last := items[..|items| - 1], items[|items| - 1];
      assert items == front + [last];
      hide ReadPriors;
      PriorsAccepted(p, front);
      PriorAccepted(p, last);
      PriorsGivenStep(p, front, last);
      ReadPriorsStep(p, front, last);
      var r, x := ReadPriors(p, front), ReadPrior(p, last);
      if r.Some? && x.Some? && front != [] {
        EarlierNumbers(front[|front| - 1], last, r.value[|front| - 1].sequence, x.value.sequence);
      }
    }
  }

  lemma NoPriors(p: Profile)
    ensures PriorsGiven(p, [])
  {
  }

  lemma LayersAccepted(j: Json)
    ensures ReadPrincipal(j).Some? <==>
      && j.Obj? && j.fields.Keys <= {PrincipalId, Kind, TenantHash, Roles} && HasText(V2, j.fields, PrincipalId)
      && HasOneOf(j.fields, Kind, {"human", "service", "agent", "unknown"})
      && HasTexts(V2, j.fields, Roles) && (TenantHash in j.fields ==> HasHash(j.fields, TenantHash))
    ensures ReadExecution(j).Some? <==>
      && j.Obj? && j.fields.Keys == {Environment, AutonomyLevel, ConsequenceLevel}
      && HasText(V2, j.fields, Environment)
      && HasOneOf(j.fields, AutonomyLevel, {"assistive", "supervised", "autonomous"})
      && HasOneOf(j.fields, ConsequenceLevel,
                  {"none", "read", "internal_write", "external_write", "destructive"})
  {
    NothingThere(V2);
    hide Text, Hash, TextSet;
  }

  lemma GovernanceAccepted(j: Json)
    ensures ReadGovernance(j).Some? <==>
      && j.Obj? && j.fields.Keys <= {IntegrationId, IntegrationVersion, CoverageClaimHash, ActivePackHashes,
                                     ApprovalState, QuotaState}
      && HasText(V2, j.fields, IntegrationId) && HasTexts(V2, j.fields, ActivePackHashes)
      && (forall x :: x in TextSet(V2, j.fields[ActivePackHashes]).value ==> IsHash(x))
      && HasOneOf(j.fields, ApprovalState, {"not_required", "required", "approved", "denied", "expired"})
      && HasOneOf(j.fields, QuotaState, {"within_limit", "near_limit", "exceeded", "unknown"})
      && (IntegrationVersion in j.fields ==> HasText(V2, j.fields, IntegrationVersion))
      && (CoverageClaimHash in j.fields ==> HasHash(j.fields, CoverageClaimHash))
  {
    NothingThere(V2);
    hide Text, IsHash, TextSet;
  }

  /** An input is accepted exactly when each part is, version 2 bounding the history by 256 actions. */
  lemma InputAccepted(p: Profile, hash: string -> string, f: Fields)
    ensures ReadInput(p, hash, f).Some? <==>
      && f.Keys <= {AgentId, ActiveIntents, AgentRole, PrivilegeScope, CurrentAction, RunId, SessionId, ThreadId,
                    PriorActions} + (if p == V2 then {Principal, Execution, Governance} else {})
      && HasText(p, f, AgentId) && HasText(p, f, RunId)
      && HasTexts(p, f, ActiveIntents) && TextSet(p, f[ActiveIntents]).value != {}
      && (AgentRole in f ==> HasText(p, f, AgentRole)) && (PrivilegeScope in f ==> HasTexts(p, f, PrivilegeScope))
      && (SessionId in f ==> HasText(p, f, SessionId)) && (ThreadId in f ==> HasText(p, f, ThreadId))
      && ReadAction(p, hash, At(f, CurrentAction)).Some?
      && At(f, PriorActions).List? && (p == V2 ==> |At(f, PriorActions).items| <= 256)
      && ReadPriors(p, At(f, PriorActions).items).Some?
      && (Principal in f ==> ReadPrincipal(f[Principal]).Some?)
      && (Execution in f ==> ReadExecution(f[Execution]).Some?)
      && (Governance in f ==> ReadGovernance(f[Governance]).Some?)
  {
    NothingThere(p);
    hide Text, TextSet, ReadAction, ReadPriors, ReadPrincipal, ReadExecution, ReadGovernance;
  }

  /** A context is accepted exactly when its input is and, in version 2, its canonical JSON has at most
      65536 bytes. */
  lemma ContextAccepted(p: Profile, hash: string -> string, size: Json -> nat, j: Json)
    ensures ReadContext(p, hash, size, j).Some? <==>
      && j.Obj? && ReadInput(p, hash, j.fields).Some?
      && (p == V2 ==> size(WriteContext(V2, ReadInput(V2, hash, j.fields).value)) <= 65536)
  {
    hide ReadInput, WriteContext;
  }

  /** A document supplies an input exactly when it names its schema and has an agent; version 1 allows no
      other fields, version 2 asks for the required ones and ignores others. */
  lemma DocumentAccepted(p: Profile, f: Fields)
    ensures ContextInput(p, f).Some? <==>
      && Schema in f && f[Schema] == Str(if p == V1 then "obsvr-action-context-v1" else "obsvr-action-context-v2")
      && Agent in f && f[Agent].Obj?
      && if p == V1 then
           && f.Keys <= {Schema, Agent, Action, RunId, SessionId, ThreadId, PriorActions}
           && f[Agent].fields.Keys <= {AgentId, ActiveIntents, Role, PrivilegeScope}
           && Action in f && f[Action].Obj?
           && f[Action].fields.Keys <= {Kind, Name, ArgumentsHash, Target, DataClassifications, RequestedScopes}
         else
           && {Action, RunId, PriorActions} <= f.Keys
           && AgentId in f[Agent].fields && ActiveIntents in f[Agent].fields
  {
    hide Build, InputField;
  }
}
