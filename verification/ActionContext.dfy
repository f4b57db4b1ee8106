/** Action contexts: what an input means and the canonical document built from it. Version 2
    bounds every text and list, replaces the target by its hash, and adds optional layers. */
module ActionContext {
  import opened Wrappers
  import opened CodePoints
  import opened Documents
  import opened IntentPolicy

  const PRINCIPAL_KINDS := {"human", "service", "agent", "unknown"}
  const AUTONOMY_LEVELS := {"assistive", "supervised", "autonomous"}
  const CONSEQUENCE_LEVELS := {"none", "read", "internal_write", "external_write", "destructive"}
  const APPROVAL_STATES := {"not_required", "required", "approved", "denied", "expired"}
  const QUOTA_STATES := {"within_limit", "near_limit", "exceeded", "unknown"}

  datatype AgentFacts = AgentFacts(
    id: string,
    intents: set<string>,
    role: Option<string>,
    privileges: Option<set<string>>)

  datatype Retry = Retry(parent: string, hash: string)

  /** `target` holds the raw target in version 1 and its hash in version 2. */
  datatype ActionFacts = ActionFacts(
    kind: string,
    name: string,
    argumentsHash: string,
    dataClassifications: set<string>,
    requestedScopes: set<string>,
    target: Option<string>,
    attempt: Option<string>,
    retry: Option<Retry>)

  datatype Prior = Prior(
    sequence: int, kind: string, name: string, outcome: string, receiptHash: string, dataClassifications: set<string>)

  datatype PrincipalLayer = PrincipalLayer(id: string, kind: string, roles: set<string>, tenantHash: Option<string>)

  datatype ExecutionLayer = ExecutionLayer(environment: string, autonomy: string, consequence: string)

  datatype GovernanceLayer = GovernanceLayer(
    integration: string, packs: set<string>, approval: string, quota: string,
    version: Option<string>, claimHash: Option<string>)

  datatype Context = Context(
    agent: AgentFacts,
    action: ActionFacts,
    runId: string,
    priors: seq<Prior>,
    session: Option<string>,
    thread: Option<string>,
    principal: Option<PrincipalLayer>,
    execution: Option<ExecutionLayer>,
    governance: Option<GovernanceLayer>)

  function ContextSchema(p: Profile): Json {
    Str(if p == V1 then "obsvr-action-context-v1" else "obsvr-action-context-v2")
  }

  // ----- Reading -----

  function OneOf(j: Json, allowed: set<string>): Option<string> {
    if j.Str? && j.s in allowed then Some(j.s) else None
  }

  function OptionalSet(p: Profile, f: Fields, k: Key): Option<Option<set<string>>> {
    if k !in f then Some(None)
    else
      var s :- TextSet(p, f[k]);
      Some(Some(s))
  }

  function OptionalHash(f: Fields, k: Key): Option<Option<string>> {
    if k !in f then Some(None)
    else
      var h :- Hash(f[k]);
      Some(Some(h))
  }

  function ReadAgent(p: Profile, f: Fields): Option<AgentFacts> {
    var intents :- TextSet(p, At(f, ActiveIntents));
    if intents == {} then None
    else
      var id :- Text(p, At(f, AgentId));
      var role :- OptionalText(p, f, AgentRole);
      var privileges :- OptionalSet(p, f, PrivilegeScope);
      Some(AgentFacts(id, intents, role, privileges))
  }

  /** A raw target, or (version 2 only) a hashed one; not both. */
  function ReadTarget(p: Profile, hash: string -> string, f: Fields): Option<Option<string>> {
    if p == V1 then OptionalText(V1, f, Target)
    else if Target in f && TargetHash in f then None
    else if Target in f then
      var t :- Text(V2, f[Target], TARGET_MAX);
      Some(Some(hash(t)))
    else OptionalHash(f, TargetHash)
  }

  /** A retry names its parent attempt and its remediation, and needs a new attempt id. */
  function ReadRetry(f: Fields, attempt: Option<string>): Option<Option<Retry>> {
    var parent :- OptionalText(V2, f, ParentAttemptId);
    if parent.None? != (RemediationRetryHash !in f) then None
    else if parent.None? then Some(None)
    else if attempt.None? || parent == attempt then None
    else
      var h :- Hash(f[RemediationRetryHash]);
      Some(Some(Retry(parent.value, h)))
  }

  function ActionKeys(p: Profile): set<Key> {
    {Kind, Name, ArgumentsHash, Target, DataClassifications, RequestedScopes}
    + if p == V2 then {TargetHash, AttemptId, ParentAttemptId, RemediationRetryHash} else {}
  }

  function ReadAction(p: Profile, hash: string -> string, j: Json): Option<ActionFacts> {
    if !j.Obj? || !(j.fields.Keys <= ActionKeys(p)) then None
    else
      var f := j.fields;
      var kind :- Text(p, At(f, Kind));
      var name :- Text(p, At(f, Name));
      var argumentsHash :- Hash(At(f, ArgumentsHash));
      var classes :- TextSet(p, At(f, DataClassifications));
      var scopes :- TextSet(p, At(f, RequestedScopes));
      var target :- ReadTarget(p, hash, f);
      if p == V1 then Some(ActionFacts(kind, name, argumentsHash, classes, scopes, target, None, None))
      else
        var attempt :- OptionalText(V2, f, AttemptId);
        var retry :- ReadRetry(f, attempt);
        Some(ActionFacts(kind, name, argumentsHash, classes, scopes, target, attempt, retry))
  }

  /** `_prior_action` */
  function ReadPrior(p: Profile, j: Json): Option<Prior> {
    if !j.Obj? || !(j.fields.Keys <= {Sequence, Kind, Name, Outcome, ReceiptHash, DataClassifications}) then None
    else
      var f := j.fields;
      var sequence :- SafeInt(At(f, Sequence));
      var outcome :- OneOf(At(f, Outcome), OUTCOMES);
      var kind :- Text(p, At(f, Kind));
      var name :- Text(p, At(f, Name));
      var receipt :- Hash(At(f, ReceiptHash));
      var classes :- TextSet(p, At(f, DataClassifications));
      Some(Prior(sequence, kind, name, outcome, receipt, classes))
  }

  /** Prior actions in strictly increasing sequence. */
  function ReadPriors(p: Profile, items: seq<Json>): Option<seq<Prior>> {
    if items == [] then Some([])
    else
      var front :- ReadPriors(p, items[..|items| - 1]);
      var last :- ReadPrior(p, items[|items| - 1]);
      if front != [] && last.sequence <= front[|front| - 1].sequence then None else Some(front + [last])
  }

  function ReadPrincipal(j: Json): Option<PrincipalLayer> {
    if !j.Obj? || !(j.fields.Keys <= {PrincipalId, Kind, TenantHash, Roles}) then None
    else
      var f := j.fields;
      var id :- Text(V2, At(f, PrincipalId));
      var kind :- OneOf(At(f, Kind), PRINCIPAL_KINDS);
      var roles :- TextSet(V2, At(f, Roles));
      var tenant :- OptionalHash(f, TenantHash);
      Some(PrincipalLayer(id, kind, roles, tenant))
  }

  function ReadExecution(j: Json): Option<ExecutionLayer> {
    if !j.Obj? || !(j.fields.Keys <= {Environment, AutonomyLevel, ConsequenceLevel}) then None
    else
      var f := j.fields;
      var environment :- Text(V2, At(f, Environment));
      var autonomy :- OneOf(At(f, AutonomyLevel), AUTONOMY_LEVELS);
      var consequence :- OneOf(At(f, ConsequenceLevel), CONSEQUENCE_LEVELS);
      Some(ExecutionLayer(environment, autonomy, consequence))
  }

  const GOVERNANCE_KEYS := {
    IntegrationId, IntegrationVersion, CoverageClaimHash, ActivePackHashes, ApprovalState, QuotaState}

  predicate AllHash(s: set<string>) {
    forall x :: x in s ==> IsHash(x)
  }

  function ReadGovernance(j: Json): Option<GovernanceLayer> {
    if !j.Obj? || !(j.fields.Keys <= GOVERNANCE_KEYS) then None
    else
      var f := j.fields;
      var integration :- Text(V2, At(f, IntegrationId));
      var packs :- TextSet(V2, At(f, ActivePackHashes));
      var approval :- OneOf(At(f, ApprovalState), APPROVAL_STATES);
      var quota :- OneOf(At(f, QuotaState), QUOTA_STATES);
      var version :- OptionalText(V2, f, IntegrationVersion);
      var claim :- OptionalHash(f, CoverageClaimHash);
      if AllHash(packs) then Some(GovernanceLayer(integration, packs, approval, quota, version, claim)) else None
  }

  function OptionalPart<T>(f: Fields, k: Key, read: Json -> Option<T>): Option<Option<T>> {
    if k !in f then Some(None)
    else
      var x :- read(f[k]);
      Some(Some(x))
  }

  function RootKeys(p: Profile): set<Key> {
    {AgentId, ActiveIntents, AgentRole, PrivilegeScope, CurrentAction, RunId, SessionId, ThreadId, PriorActions}
    + if p == V2 then {Principal, Execution, Governance} else {}
  }

  function ReadPriorList(p: Profile, j: Json): Option<seq<Prior>> {
    if !j.List? || (p == V2 && |j.items| > PRIOR_MAX) then None else ReadPriors(p, j.items)
  }

  /** What an input means, when it is valid; the size limit is on the canonical document. */
  function ReadInput(p: Profile, hash: string -> string, f: Fields): Option<Context> {
    if !(f.Keys <= RootKeys(p)) then None
    else
      var agent :- ReadAgent(p, f);
      var action :- ReadAction(p, hash, At(f, CurrentAction));
      var priors :- ReadPriorList(p, At(f, PriorActions));
      var runId :- Text(p, At(f, RunId));
      var session :- OptionalText(p, f, SessionId);
      var thread :- OptionalText(p, f, ThreadId);
      var principal :- OptionalPart(f, Principal, ReadPrincipal);
      var execution :- OptionalPart(f, Execution, ReadExecution);
      var governance :- OptionalPart(f, Governance, ReadGovernance);
      Some(Context(agent, action, runId, priors, session, thread, principal, execution, governance))
  }

  /** `build_action_context`, `build_action_context_v2`. `size` is the UTF-8 length of canonical JSON. */
  function ReadContext(p: Profile, hash: string -> string, size: Json -> nat, j: Json): Option<Context> {
    if !j.Obj? then None
    else
      var c :- ReadInput(p, hash, j.fields);
      if p == V2 && size(WriteContext(p, c)) > CONTEXT_MAX then None else Some(c)
  }

  // ----- Writing -----

  function AgentField(a: AgentFacts, k: Key): Option<Json> {
    match k
    case AgentId => Some(Str(a.id))
    case ActiveIntents => Some(WriteTexts(a.intents))
    case Role => Texted(a.role)
    case PrivilegeScope => if a.privileges.Some? then Some(WriteTexts(a.privileges.value)) else None
    case _ => None
  }

  function WriteAgent(a: AgentFacts): Json {
    Obj(Build({AgentId, ActiveIntents, Role, PrivilegeScope}, k => AgentField(a, k)))
  }

  function ActionField(p: Profile, a: ActionFacts, k: Key): Option<Json> {
    match k
    case Kind => Some(Str(a.kind))
    case Name => Some(Str(a.name))
    case ArgumentsHash => Some(Str(a.argumentsHash))
    case DataClassifications => Some(WriteTexts(a.dataClassifications))
    case RequestedScopes => Some(WriteTexts(a.requestedScopes))
    case Target => if p == V1 then Texted(a.target) else None
    case TargetHash => if p == V2 then Texted(a.target) else None
    case AttemptId => Texted(a.attempt)
    case ParentAttemptId => if a.retry.Some? then Some(Str(a.retry.value.parent)) else None
    case RemediationRetryHash => if a.retry.Some? then Some(Str(a.retry.value.hash)) else None
    case _ => None
  }

  function WriteAction(p: Profile, a: ActionFacts): Json {
    Obj(Build(ActionKeys(p), k => ActionField(p, a, k)))
  }

  function WritePrior(r: Prior): Json {
    Obj(map[
      Sequence := Int(r.sequence), Kind := Str(r.kind), Name := Str(r.name), Outcome := Str(r.outcome),
      ReceiptHash := Str(r.receiptHash), DataClassifications := WriteTexts(r.dataClassifications)])
  }

  function PrincipalField(l: PrincipalLayer, k: Key): Option<Json> {
    match k
    case PrincipalId => Some(Str(l.id))
    case Kind => Some(Str(l.kind))
    case Roles => Some(WriteTexts(l.roles))
    case TenantHash => Texted(l.tenantHash)
    case _ => None
  }

  function WritePrincipal(l: PrincipalLayer): Json {
    Obj(Build({PrincipalId, Kind, Roles, TenantHash}, k => PrincipalField(l, k)))
  }

  function WriteExecution(l: ExecutionLayer): Json {
    Obj(map[
      Environment := Str(l.environment),
      AutonomyLevel := Str(l.autonomy),
      ConsequenceLevel := Str(l.consequence)])
  }

  function GovernanceField(l: GovernanceLayer, k: Key): Option<Json> {
    match k
    case IntegrationId => Some(Str(l.integration))
    case ActivePackHashes => Some(WriteTexts(l.packs))
    case ApprovalState => Some(Str(l.approval))
    case QuotaState => Some(Str(l.quota))
    case IntegrationVersion => Texted(l.version)
    case CoverageClaimHash => Texted(l.claimHash)
    case _ => None
  }

  function WriteGovernance(l: GovernanceLayer): Json {
    Obj(Build(GOVERNANCE_KEYS, k => GovernanceField(l, k)))
  }

  function WritePriors(priors: seq<Prior>): Json {
    WriteList(priors, WritePrior)
  }

  function ContextField(p: Profile, c: Context, k: Key): Option<Json> {
    match k
    case Schema => Some(ContextSchema(p))
    case Agent => Some(WriteAgent(c.agent))
    case Action => Some(WriteAction(p, c.action))
    case RunId => Some(Str(c.runId))
    case PriorActions => Some(WritePriors(c.priors))
    case SessionId => Texted(c.session)
    case ThreadId => Texted(c.thread)
    case Principal => if c.principal.Some? then Some(WritePrincipal(c.principal.value)) else None
    case Execution => if c.execution.Some? then Some(WriteExecution(c.execution.value)) else None
    case Governance => if c.governance.Some? then Some(WriteGovernance(c.governance.value)) else None
    case _ => None
  }

  function DocumentKeys(p: Profile): set<Key> {
    {Schema, Agent, Action, RunId, SessionId, ThreadId, PriorActions}
    + if p == V2 then {Principal, Execution, Governance} else {}
  }

  /** The canonical document. */
  function WriteContext(p: Profile, c: Context): Json {
    Obj(Build(DocumentKeys(p), k => ContextField(p, c, k)))
  }

  // ----- Documents as inputs -----

  /** Version 1 checks a document's keys; version 2 needs the required ones and ignores others. */
  predicate IsDocument(p: Profile, f: Fields) {
    && At(f, Schema) == ContextSchema(p)
    && At(f, Agent).Obj?
    && if p == V1 then
         && f.Keys <= DocumentKeys(V1)
         && f[Agent].fields.Keys <= {AgentId, ActiveIntents, Role, PrivilegeScope}
         && At(f, Action).Obj? && f[Action].fields.Keys <= ActionKeys(V1)
       else {Action, RunId, PriorActions} <= f.Keys && {AgentId, ActiveIntents} <= f[Agent].fields.Keys
  }

  /** The input field that a document supplies. */
  function InputField(f: Fields, agent: Fields, k: Key): Option<Json> {
    match k
    case AgentId => Some(At(agent, AgentId))
    case ActiveIntents => Some(At(agent, ActiveIntents))
    case CurrentAction => Some(At(f, Action))
    case RunId => Some(At(f, RunId))
    case PriorActions => Some(At(f, PriorActions))
    case AgentRole => Field(agent, Role)
    case PrivilegeScope => Field(agent, PrivilegeScope)
    case _ => Field(f, k)
  }

  /** `_input_from_document`, `_context_input` */
  function ContextInput(p: Profile, f: Fields): Option<Fields> {
    if !IsDocument(p, f) then None
    else
      var agent := f[Agent].fields;
      Some(Build(RootKeys(p), k => InputField(f, agent, k)))
  }

  /** `_normalized_context`: an input, or a document when it names a schema. */
  function NormalizedContext(p: Profile, hash: string -> string, size: Json -> nat, j: Json): Option<Context> {
    if !j.Obj? then None
    else if Schema in j.fields then
      var f :- ContextInput(p, j.fields);
      ReadContext(p, hash, size, Obj(f))
    else ReadContext(p, hash, size, j)
  }

  // ----- The fields of canonical documents -----

  lemma AgentDocument(a: AgentFacts, k: Key)
    ensures WriteAgent(a).Obj?
    ensures k in {AgentId, ActiveIntents, Role, PrivilegeScope} ==> Field(WriteAgent(a).fields, k) == AgentField(a, k)
  {
    hide Build, AgentField;
    BuildField({AgentId, ActiveIntents, Role, PrivilegeScope}, (k: Key) => AgentField(a, k), k);
  }

  lemma ActionDocument(p: Profile, a: ActionFacts, k: Key)
    ensures WriteAction(p, a).Obj? && WriteAction(p, a).fields.Keys <= ActionKeys(p)
    ensures Field(WriteAction(p, a).fields, k) == if k in ActionKeys(p) then ActionField(p, a, k) else None
  {
    hide Build, ActionField, ActionKeys;
    BuildField(ActionKeys(p), (k: Key) => ActionField(p, a, k), k);
  }

  lemma ContextDocument(p: Profile, c: Context, k: Key)
    ensures WriteContext(p, c).Obj? && WriteContext(p, c).fields.Keys <= DocumentKeys(p)
    ensures Field(WriteContext(p, c).fields, k) == if k in DocumentKeys(p) then ContextField(p, c, k) else None
  {
    hide Build, ContextField, DocumentKeys;
    BuildField(DocumentKeys(p), (k: Key) => ContextField(p, c, k), k);
  }

  lemma PrincipalDocument(l: PrincipalLayer, k: Key)
    ensures WritePrincipal(l).Obj? && WritePrincipal(l).fields.Keys <= {PrincipalId, Kind, TenantHash, Roles}
    ensures k in {PrincipalId, Kind, TenantHash, Roles} ==> Field(WritePrincipal(l).fields, k) == PrincipalField(l, k)
  {
    hide Build, PrincipalField;
    BuildField({PrincipalId, Kind, Roles, TenantHash}, (k: Key) => PrincipalField(l, k), k);
  }

  lemma GovernanceDocument(l: GovernanceLayer, k: Key)
    ensures WriteGovernance(l).Obj? && WriteGovernance(l).fields.Keys <= GOVERNANCE_KEYS
    ensures k in GOVERNANCE_KEYS ==> Field(WriteGovernance(l).fields, k) == GovernanceField(l, k)
  {
    hide Build, GovernanceField;
    BuildField(GOVERNANCE_KEYS, (k: Key) => GovernanceField(l, k), k);
  }

  lemma InputDocument(p: Profile, c: Context, k: Key)
    ensures Input(p, c).Keys <= RootKeys(p)
    ensures Field(Input(p, c), k) ==
            if k in RootKeys(p) then InputField(WriteContext(p, c).fields, WriteAgent(c.agent).fields, k) else None
  {
    hide Build, InputField, RootKeys, ContextField, AgentField, DocumentKeys;
    BuildField(RootKeys(p), (k: Key) => InputField(WriteContext(p, c).fields, WriteAgent(c.agent).fields, k), k);
  }

  // ----- Documents read back as what was written -----

  ghost predicate TextOk(p: Profile, t: Option<string>) {
    t.Some? ==> IsText(p, t.value, IDENTIFIER_MAX)
  }

  ghost predicate HashOk(t: Option<string>) {
    t.Some? ==> IsHash(t.value)
  }

  ghost predicate AgentOk(p: Profile, a: AgentFacts) {
    && TextOk(p, Some(a.id)) && TextsOk(p, a.intents) && a.intents != {} && TextOk(p, a.role)
    && (a.privileges.Some? ==> TextsOk(p, a.privileges.value))
  }

  ghost predicate ActionOk(p: Profile, a: ActionFacts) {
    && TextOk(p, Some(a.kind)) && TextOk(p, Some(a.name)) && IsHash(a.argumentsHash)
    && TextsOk(p, a.dataClassifications) && TextsOk(p, a.requestedScopes)
    && if p == V1 then TextOk(V1, a.target) && a.attempt.None? && a.retry.None?
       else
         && HashOk(a.target) && TextOk(V2, a.attempt)
         && (a.retry.Some? ==>
               a.attempt.Some? && Some(a.retry.value.parent) != a.attempt
               && TextOk(V2, Some(a.retry.value.parent)) && IsHash(a.retry.value.hash))
  }

  ghost predicate PriorOk(p: Profile, r: Prior) {
    && 0 <= r.sequence <= MAX_SAFE && r.outcome in OUTCOMES && TextOk(p, Some(r.kind)) && TextOk(p, Some(r.name))
    && IsHash(r.receiptHash) && TextsOk(p, r.dataClassifications)
  }

  ghost predicate PriorsOk(p: Profile, priors: seq<Prior>) {
    && (forall i :: 0 <= i < |priors| ==> PriorOk(p, priors[i]))
    && (forall i, j :: 0 <= i < |priors| && j == i + 1 < |priors| ==> priors[i].sequence < priors[j].sequence)
  }

  ghost predicate PrincipalOk(l: PrincipalLayer) {
    TextOk(V2, Some(l.id)) && l.kind in PRINCIPAL_KINDS && TextsOk(V2, l.roles) && HashOk(l.tenantHash)
  }

  ghost predicate ExecutionOk(l: ExecutionLayer) {
    TextOk(V2, Some(l.environment)) && l.autonomy in AUTONOMY_LEVELS && l.consequence in CONSEQUENCE_LEVELS
  }

  ghost predicate GovernanceOk(l: GovernanceLayer) {
    && TextOk(V2, Some(l.integration)) && TextsOk(V2, l.packs) && AllHash(l.packs)
    && l.approval in APPROVAL_STATES && l.quota in QUOTA_STATES && TextOk(V2, l.version) && HashOk(l.claimHash)
  }

  ghost predicate LayersOk(p: Profile, c: Context) {
    && (p == V1 ==> c.principal.None? && c.execution.None? && c.governance.None?)
    && (c.principal.Some? ==> PrincipalOk(c.principal.value))
    && (c.execution.Some? ==> ExecutionOk(c.execution.value))
    && (c.governance.Some? ==> GovernanceOk(c.governance.value))
  }

  ghost predicate ContextOk(p: Profile, c: Context) {
    && AgentOk(p, c.agent) && ActionOk(p, c.action) && TextOk(p, Some(c.runId))
    && PriorsOk(p, c.priors) && (p == V2 ==> |c.priors| <= PRIOR_MAX)
    && TextOk(p, c.session) && TextOk(p, c.thread) && LayersOk(p, c)
  }

  lemma AgentRead(p: Profile, f: Fields)
    requires ReadAgent(p, f).Some?
    ensures AgentOk(p, ReadAgent(p, f).value)
  {
    hide IsText, TextSet, TextsOk;
    TextSetOk(p, At(f, ActiveIntents));
    TextSetOk(p, At(f, PrivilegeScope));
  }

  lemma ActionRead(p: Profile, hash: string -> string, j: Json)
    requires HexHash(hash) && ReadAction(p, hash, j).Some?
    ensures ActionOk(p, ReadAction(p, hash, j).value)
  {
    hide IsText, IsHash, TextSet, TextsOk, ActionKeys;
    TextSetOk(p, At(j.fields, DataClassifications));
    TextSetOk(p, At(j.fields, RequestedScopes));
  }

  lemma {:induction false} PriorsRead(p: Profile, items: seq<Json>)
    requires ReadPriors(p, items).Some?
    ensures PriorsOk(p, ReadPriors(p, items).value) && |ReadPriors(p, items).value| == |items|
  {
    hide PriorOk, ReadPrior;
    if items != [] {
      PriorsRead(p, items[..|items| - 1]);
      PriorRead(p, items[|items| - 1]);
    }
  }

  lemma PriorRead(p: Profile, j: Json)
    requires ReadPrior(p, j).Some?
    ensures PriorOk(p, ReadPrior(p, j).value)
  {
    hide IsText, IsHash, TextSet, TextsOk;
    TextSetOk(p, At(j.fields, DataClassifications));
  }

  lemma LayersRead(f: Fields)
    ensures ReadPrincipal(At(f, Principal)).Some? ==> PrincipalOk(ReadPrincipal(At(f, Principal)).value)
    ensures ReadExecution(At(f, Execution)).Some? ==> ExecutionOk(ReadExecution(At(f, Execution)).value)
    ensures ReadGovernance(At(f, Governance)).Some? ==> GovernanceOk(ReadGovernance(At(f, Governance)).value)
  {
    hide IsText, IsHash, TextSet, TextsOk;
    if At(f, Principal).Obj? {
      TextSetOk(V2, At(f[Principal].fields, Roles));
    }
    if At(f, Governance).Obj? {
      TextSetOk(V2, At(f[Governance].fields, ActivePackHashes));
    }
  }

  lemma InputRead(p: Profile, hash: string -> string, f: Fields)
    requires HexHash(hash) && ReadInput(p, hash, f).Some?
    ensures ContextOk(p, ReadInput(p, hash, f).value)
  {
    hide IsText, ReadAgent, AgentOk, ReadAction, ActionOk, ReadPriors, PriorsOk, HexHash;
    hide ReadPrincipal, ReadExecution, ReadGovernance, PrincipalOk, ExecutionOk, GovernanceOk;
    AgentRead(p, f);
    ActionRead(p, hash, At(f, CurrentAction));
    PriorsRead(p, At(f, PriorActions).items);
    LayersRead(f);
  }

  lemma AgentRebuilds(p: Profile, c: Context)
    requires AgentOk(p, c.agent)
    ensures ReadAgent(p, Input(p, c)) == Some(c.agent)
  {
    hide IsText, TextSet, TextsOk, WriteTexts, Input;
    AgentCarried(p, c);
    PrivilegesCarried(p, c);
    TextSetRebuilds(p, c.agent.intents);
    if c.agent.privileges.Some? {
      TextSetRebuilds(p, c.agent.privileges.value);
    }
  }

  lemma ActionRebuilds(p: Profile, hash: string -> string, a: ActionFacts)
    requires ActionOk(p, a)
    ensures ReadAction(p, hash, WriteAction(p, a)) == Some(a)
  {
    hide IsText, IsHash, TextSet, TextsOk, WriteTexts;
    hide WriteAction, ActionField, ActionKeys, ReadTarget, ReadRetry, OptionalText;
    TextSetRebuilds(p, a.dataClassifications);
    TextSetRebuilds(p, a.requestedScopes);
    ActionDocument(p, a, Kind);
    ActionFieldsOf(p, a);
    TargetFieldOf(p, hash, a);
    if p == V2 {
      RetryFieldsOf(a);
    }
  }

  lemma ActionFieldsOf(p: Profile, a: ActionFacts)
    ensures var f := WriteAction(p, a).fields;
      && At(f, Kind) == Str(a.kind) && At(f, Name) == Str(a.name) && At(f, ArgumentsHash) == Str(a.argumentsHash)
      && At(f, DataClassifications) == WriteTexts(a.dataClassifications)
      && At(f, RequestedScopes) == WriteTexts(a.requestedScopes)
  {
    hide WriteTexts, WriteAction;
    ActionDocument(p, a, Kind);
    ActionDocument(p, a, Name);
    ActionDocument(p, a, ArgumentsHash);
    ActionDocument(p, a, DataClassifications);
    ActionDocument(p, a, RequestedScopes);
  }

  lemma TargetFieldOf(p: Profile, hash: string -> string, a: ActionFacts)
    requires if p == V1 then TextOk(V1, a.target) else HashOk(a.target)
    ensures ReadTarget(p, hash, WriteAction(p, a).fields) == Some(a.target)
  {
    hide IsText, IsHash, WriteAction;
    ActionDocument(p, a, Target);
    ActionDocument(p, a, TargetHash);
  }

  lemma RetryFieldsOf(a: ActionFacts)
    requires ActionOk(V2, a)
    ensures var f := WriteAction(V2, a).fields;
      && OptionalText(V2, f, AttemptId) == Some(a.attempt) && ReadRetry(f, a.attempt) == Some(a.retry)
  {
    hide IsText, IsHash, WriteAction, TextsOk;
    ActionDocument(V2, a, AttemptId);
    ActionDocument(V2, a, ParentAttemptId);
    ActionDocument(V2, a, RemediationRetryHash);
  }

  lemma PriorRebuilds(p: Profile, r: Prior)
    requires PriorOk(p, r)
    ensures ReadPrior(p, WritePrior(r)) == Some(r)
  {
    hide IsText, IsHash, TextSet, TextsOk, WriteTexts;
    TextSetRebuilds(p, r.dataClassifications);
  }

  lemma {:induction false} PriorsRebuild(p: Profile, priors: seq<Prior>)
    requires PriorsOk(p, priors)
    ensures ReadPriors(p, WritePriors(priors).items) == Some(priors)
  {
    hide PriorOk, ReadPrior, WritePrior;
    if priors != [] {
      var front, last := priors[..|priors| - 1], priors[|priors| - 1];
      PriorsRebuild(p, front);
      PriorRebuilds(p, last);
      assert WritePriors(priors).items[..|priors| - 1] == WritePriors(front).items;
      assert front + [last] == priors;
    }
  }

  lemma PrincipalRebuilds(l: PrincipalLayer)
    requires PrincipalOk(l)
    ensures ReadPrincipal(WritePrincipal(l)) == Some(l)
  {
    hide IsText, IsHash, TextSet, TextsOk, WriteTexts, WritePrincipal;
    TextSetRebuilds(V2, l.roles);
    PrincipalDocument(l, PrincipalId);
    PrincipalDocument(l, Kind);
    PrincipalDocument(l, Roles);
    PrincipalDocument(l, TenantHash);
  }

  lemma ExecutionRebuilds(l: ExecutionLayer)
    requires ExecutionOk(l)
    ensures ReadExecution(WriteExecution(l)) == Some(l)
  {
    hide IsText;
  }

  lemma GovernanceFieldOf(l: GovernanceLayer, k: Key)
    requires k in GOVERNANCE_KEYS
    ensures WriteGovernance(l).Obj? && WriteGovernance(l).fields.Keys <= GOVERNANCE_KEYS
    ensures Field(WriteGovernance(l).fields, k) == GovernanceField(l, k)
  {
    hide GovernanceField, WriteGovernance;
    GovernanceDocument(l, k);
  }

  lemma GovernanceFieldsOf(l: GovernanceLayer)
    ensures WriteGovernance(l).Obj? && WriteGovernance(l).fields.Keys <= GOVERNANCE_KEYS
    ensures var f := WriteGovernance(l).fields;
      && Field(f, IntegrationId) == Some(Str(l.integration)) && Field(f, ActivePackHashes) == Some(WriteTexts(l.packs))
      && Field(f, ApprovalState) == Some(Str(l.approval)) && Field(f, QuotaState) == Some(Str(l.quota))
      && Field(f, IntegrationVersion) == Texted(l.version) && Field(f, CoverageClaimHash) == Texted(l.claimHash)
  {
    hide WriteTexts, WriteGovernance, Texted, Field;
    GovernanceFieldOf(l, IntegrationId);
    GovernanceFieldOf(l, ActivePackHashes);
    GovernanceFieldOf(l, ApprovalState);
    GovernanceFieldOf(l, QuotaState);
    GovernanceFieldOf(l, IntegrationVersion);
    GovernanceFieldOf(l, CoverageClaimHash);
  }

  lemma GovernanceRebuilds(l: GovernanceLayer)
    requires GovernanceOk(l)
    ensures ReadGovernance(WriteGovernance(l)) == Some(l)
  {
    hide IsText, IsHash, TextSet, TextsOk, WriteTexts, AllHash, WriteGovernance, GOVERNANCE_KEYS;
    TextSetRebuilds(V2, l.packs);
    GovernanceFieldsOf(l);
  }

  /** The input recovered from a canonical document. */
  function Input(p: Profile, c: Context): Fields {
    Build(RootKeys(p), k => InputField(WriteContext(p, c).fields, WriteAgent(c.agent).fields, k))
  }

  lemma DocumentIsInput(p: Profile, c: Context)
    ensures ContextInput(p, WriteContext(p, c).fields) == Some(Input(p, c))
  {
    hide Build, WriteContext, WriteAgent, RootKeys, InputField, IsDocument;
    ContextDocument(p, c, Agent);
    WrittenIsDocument(p, c);
  }

  lemma WrittenIsDocument(p: Profile, c: Context)
    ensures IsDocument(p, WriteContext(p, c).fields)
  {
    if p == V1 {
      WrittenIsDocumentV1(c);
    } else {
      WrittenIsDocumentV2(c);
    }
  }

  lemma WrittenIsDocumentV1(c: Context)
    ensures IsDocument(V1, WriteContext(V1, c).fields)
  {
    hide ContextSchema, WriteContext, WriteAgent, WriteAction, ActionKeys, ActionField;
    ContextDocument(V1, c, Schema);
    ContextDocument(V1, c, Agent);
    ContextDocument(V1, c, Action);
    ActionDocument(V1, c.action, Kind);
    AgentKeys(c.agent);
    AgentDocument(c.agent, AgentId);
  }

  lemma WrittenIsDocumentV2(c: Context)
    ensures IsDocument(V2, WriteContext(V2, c).fields)
  {
    hide ContextSchema, WriteContext, WriteAgent, Field;
    SchemaAndAgent(c);
    RequiredKeys(c);
    AgentHas(c.agent, AgentId);
    AgentHas(c.agent, ActiveIntents);
  }

  lemma SchemaAndAgent(c: Context)
    ensures var f := WriteContext(V2, c).fields;
      Schema in f && f[Schema] == ContextSchema(V2) && Agent in f && f[Agent] == WriteAgent(c.agent)
  {
    hide WriteContext, WriteAgent, ContextSchema;
    ContextDocument(V2, c, Schema);
    ContextDocument(V2, c, Agent);
  }

  lemma RequiredKeys(c: Context)
    ensures {Action, RunId, PriorActions} <= WriteContext(V2, c).fields.Keys
  {
    hide WriteContext, WriteAction, WritePriors;
    ContextDocument(V2, c, Action);
    ContextDocument(V2, c, RunId);
    ContextDocument(V2, c, PriorActions);
  }

  lemma AgentHas(a: AgentFacts, k: Key)
    requires k in {AgentId, ActiveIntents}
    ensures WriteAgent(a).Obj? && k in WriteAgent(a).fields
  {
    hide WriteAgent, WriteTexts;
    AgentDocument(a, k);
  }

  lemma AgentKeys(a: AgentFacts)
    ensures WriteAgent(a).fields.Keys <= {AgentId, ActiveIntents, Role, PrivilegeScope}
  {
    hide AgentField;
  }

  /** The input field k is the document field k. */
  lemma CarriedField(p: Profile, c: Context, k: Key)
    requires k in {RunId, PriorActions, SessionId, ThreadId} || (p == V2 && k in {Principal, Execution, Governance})
    ensures Field(Input(p, c), k) == ContextField(p, c, k)
  {
    hide Input, WriteContext, WriteAgent, WritePriors, WritePrincipal, WriteExecution, WriteGovernance;
    InputDocument(p, c, k);
    ContextDocument(p, c, k);
  }

  lemma ActionCarried(p: Profile, c: Context)
    ensures Field(Input(p, c), CurrentAction) == Some(WriteAction(p, c.action))
  {
    hide Input, WriteContext, WriteAgent, WriteAction;
    InputDocument(p, c, CurrentAction);
    ContextDocument(p, c, Action);
  }

  lemma AgentCarried(p: Profile, c: Context)
    ensures var f := Input(p, c);
      && Field(f, AgentId) == Some(Str(c.agent.id)) && Field(f, ActiveIntents) == Some(WriteTexts(c.agent.intents))
      && Field(f, AgentRole) == Texted(c.agent.role)
  {
    hide Input, WriteContext, WriteAgent, WriteTexts;
    InputDocument(p, c, AgentId);
    InputDocument(p, c, ActiveIntents);
    InputDocument(p, c, AgentRole);
    AgentDocument(c.agent, AgentId);
    AgentDocument(c.agent, ActiveIntents);
    AgentDocument(c.agent, Role);
  }

  lemma PrivilegesCarried(p: Profile, c: Context)
    ensures Field(Input(p, c), PrivilegeScope) == AgentField(c.agent, PrivilegeScope)
  {
    hide Input, WriteContext, WriteAgent, AgentField;
    InputDocument(p, c, PrivilegeScope);
    AgentDocument(c.agent, PrivilegeScope);
  }

  lemma NoLayers(c: Context, k: Key)
    requires k in {Principal, Execution, Governance}
    ensures Field(Input(V1, c), k) == None
  {
    hide Input;
    InputDocument(V1, c, k);
  }

  lemma LayersRebuild(p: Profile, c: Context)
    requires LayersOk(p, c)
    ensures OptionalPart(Input(p, c), Principal, ReadPrincipal) == Some(c.principal)
    ensures OptionalPart(Input(p, c), Execution, ReadExecution) == Some(c.execution)
    ensures OptionalPart(Input(p, c), Governance, ReadGovernance) == Some(c.governance)
  {
    hide Input, WritePrincipal, WriteExecution, WriteGovernance, ReadPrincipal, ReadExecution, ReadGovernance;
    hide PrincipalOk, ExecutionOk, GovernanceOk;
    if p == V1 {
      NoLayers(c, Principal);
      NoLayers(c, Execution);
      NoLayers(c, Governance);
    } else {
      CarriedField(p, c, Principal);
      CarriedField(p, c, Execution);
      CarriedField(p, c, Governance);
      if c.principal.Some? {
        PrincipalRebuilds(c.principal.value);
      }
      if c.execution.Some? {
        ExecutionRebuilds(c.execution.value);
      }
      if c.governance.Some? {
        GovernanceRebuilds(c.governance.value);
      }
    }
  }

  /** Reading the canonical document of a valid context gives back that context. */
  lemma InputRebuilds(p: Profile, hash: string -> string, c: Context)
    requires ContextOk(p, c)
    ensures ContextInput(p, WriteContext(p, c).fields) == Some(Input(p, c))
    ensures ReadInput(p, hash, Input(p, c)) == Some(c)
  {
    hide *;
    ContextParts(p, c);
    DocumentIsInput(p, c);
    AgentRebuilds(p, c);
    ActionRebuilds(p, hash, c.action);
    PriorsRebuild(p, c.priors);
    LayersRebuild(p, c);
    PartsRebuild(p, hash, c);
  }

  lemma ContextParts(p: Profile, c: Context)
    requires ContextOk(p, c)
    ensures AgentOk(p, c.agent) && ActionOk(p, c.action) && PriorsOk(p, c.priors) && LayersOk(p, c)
  {
  }

  lemma PartsRebuild(p: Profile, hash: string -> string, c: Context)
    requires ContextOk(p, c)
    requires ReadAgent(p, Input(p, c)) == Some(c.agent)
    requires ReadAction(p, hash, WriteAction(p, c.action)) == Some(c.action)
    requires ReadPriors(p, WritePriors(c.priors).items) == Some(c.priors)
    requires OptionalPart(Input(p, c), Principal, ReadPrincipal) == Some(c.principal)
    requires OptionalPart(Input(p, c), Execution, ReadExecution) == Some(c.execution)
    requires OptionalPart(Input(p, c), Governance, ReadGovernance) == Some(c.governance)
    ensures ReadInput(p, hash, Input(p, c)) == Some(c)
  {
    hide IsText, ReadAgent, AgentOk, ReadAction, ActionOk, ReadPriors, PriorsOk, LayersOk, OptionalPart, WritePrior;
    hide Input, WriteAction, RootKeys, InputField;
    InputDocument(p, c, RunId);
    ActionCarried(p, c);
    TextsCarried(p, c);
  }

  lemma TextsCarried(p: Profile, c: Context)
    ensures var f := Input(p, c);
      && Field(f, RunId) == Some(Str(c.runId)) && Field(f, PriorActions) == Some(WritePriors(c.priors))
      && Field(f, SessionId) == Texted(c.session) && Field(f, ThreadId) == Texted(c.thread)
  {
    hide Input, WritePriors;
    CarriedField(p, c, RunId);
    CarriedField(p, c, PriorActions);
    CarriedField(p, c, SessionId);
    CarriedField(p, c, ThreadId);
  }

  /** A built context, given back as a document, builds to itself, so its hash does not depend on
      which of its forms was supplied. */
  lemma ContextRebuilds(p: Profile, hash: string -> string, size: Json -> nat, j: Json)
    requires HexHash(hash) && ReadContext(p, hash, size, j).Some?
    ensures var c := ReadContext(p, hash, size, j).value;
      NormalizedContext(p, hash, size, WriteContext(p, c)) == Some(c)
  {
    hide ReadInput, WriteContext, HexHash, ContextOk;
    var c := ReadContext(p, hash, size, j).value;
    InputRead(p, hash, j.fields);
    InputRebuilds(p, hash, c);
    DocumentNamesSchema(p, c);
  }

  lemma DocumentNamesSchema(p: Profile, c: Context)
    ensures WriteContext(p, c).Obj? && Schema in WriteContext(p, c).fields
  {
  }
}
