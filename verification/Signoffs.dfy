/** Phase decision records and signoff matrices: grouping actions by owner role. */
module Signoffs {
  import opened Wrappers
  import opened Text
  import opened Files
  import opened Keys
  import opened Attachments

  datatype Action = Action(
    id: string, phase: string, title: string, ownerRole: string, blockerType: string, status: string,
    evidenceKeys: seq<string>, commands: seq<string>)

  datatype ActionRegister = ActionRegister(
    format: string, phaseGatePath: string, commands: Commands, actions: seq<Action>)

  datatype TemplateMapping = TemplateMapping(templatePath: string, present: bool, evidenceKey: Option<string>)

  datatype GapPhase = GapPhase(phase: string, title: string, evidenceKeys: seq<string>, mappings: seq<TemplateMapping>)

  datatype GapMatrix = GapMatrix(
    format: string, environment: string, owner: string, status: string, phaseCount: nat,
    commands: Commands, phases: seq<GapPhase>)

  datatype GateState = GateState(
    ready: bool, validated: bool, blockerCount: nat, warningCount: nat, remainingPhaseCount: nat,
    remainingItemCount: nat)

  /** The phase gate report: its verdict, and the evidence pack manifest it was computed from. */
  datatype PhaseGate = PhaseGate(format: string, target: Option<string>, evidenceManifest: string, state: GateState)

  datatype MissingArtifact = MissingArtifact(
    phase: string, title: string, templatePath: string, evidenceKey: Option<string>, phaseEvidenceKeys: seq<string>)

  datatype KeySummary = KeySummary(actionKeys: seq<string>, gapKeys: seq<string>, actionKeyCount: nat, gapKeyCount: nat)

  datatype CommandCoverage = CommandCoverage(
    actionScriptCount: nat, gapScriptCount: nat, validatorCount: nat, actionScripts: seq<string>,
    gapScripts: seq<string>)

  datatype RequiredApproval = RequiredApproval(ownerRole: string, status: string, evidenceKeys: seq<string>)

  datatype PendingAction = PendingAction(
    id: string, phase: string, title: string, ownerRole: string, blockerType: string, status: string,
    evidenceKeys: seq<string>)

  datatype DecisionRecord = DecisionRecord(
    format: string, generatedAt: string, phaseGatePath: string, actionRegisterPath: string, gapMatrixPath: string,
    environment: string, owner: string, status: string, target: string, decision: string, state: GateState,
    pendingActionCount: nat, missingArtifactCount: nat, keys: KeySummary, coverage: CommandCoverage,
    ownerRoles: seq<string>, requiredApprovals: seq<RequiredApproval>,
    pendingActions: seq<PendingAction>, missingArtifacts: seq<MissingArtifact>)

  const GATE_FORMAT := "sentinel-phase-gate-validation-v1"
  const REGISTER_FORMAT := "sentinel-phase-action-register-v1"
  const GAP_FORMAT := "sentinel-phase-gap-matrix-v1"
  const DECISION_FORMAT := "sentinel-phase-decision-record-v1"
  const MATRIX_FORMAT := "sentinel-phase-signoff-matrix-v1"
  const APPROVE := "approve-phase-closure"
  const HOLD := "hold-phase-closure"

  // ---------------------------------------------------------------- selections

  function Owners(actions: seq<Action>): (r: seq<string>)
    ensures |r| == |actions| && forall i | 0 <= i < |r| :: r[i] == actions[i].ownerRole
  {
    if actions == [] then [] else [actions[0].ownerRole] + Owners(actions[1..])
  }

  function OwnedBy(actions: seq<Action>, role: string): (r: seq<Action>)
    ensures forall a :: a in r <==> a in actions && a.ownerRole == role
  {
    if actions == [] then []
    else (if actions[0].ownerRole == role then [actions[0]] else []) + OwnedBy(actions[1..], role)
  }

  function Pending(actions: seq<Action>): (r: seq<Action>)
    ensures forall a :: a in r <==> a in actions && a.status != "complete"
  {
    if actions == [] then []
    else (if actions[0].status != "complete" then [actions[0]] else []) + Pending(actions[1..])
  }

  function KeysOf(actions: seq<Action>): seq<string> {
    if actions == [] then [] else actions[0].evidenceKeys + KeysOf(actions[1..])
  }

  function GapKeysOf(phases: seq<GapPhase>): seq<string> {
    if phases == [] then [] else phases[0].evidenceKeys + GapKeysOf(phases[1..])
  }

  function BlockersOf(actions: seq<Action>): seq<string> {
    if actions == [] then [] else [actions[0].blockerType] + BlockersOf(actions[1..])
  }

  function MissingOf(phase: GapPhase, mappings: seq<TemplateMapping>): seq<MissingArtifact> {
    if mappings == [] then []
    else
      var m := mappings[0];
      (if m.present then []
       else [MissingArtifact(phase.phase, phase.title, m.templatePath, NonEmpty(m.evidenceKey), phase.evidenceKeys)])
      + MissingOf(phase, mappings[1..])
  }

  function MissingIn(phases: seq<GapPhase>): seq<MissingArtifact> {
    if phases == [] then [] else MissingOf(phases[0], phases[0].mappings) + MissingIn(phases[1..])
  }

  /** command.match(/^pnpm\s+([^\s]+)/)?.[1] */
  function ScriptOf(command: string): Option<string> {
    if |command| < 4 || command[..4] != "pnpm" then None
    else
      var rest := TrimStart(command[4..]);
      if rest == command[4..] || rest == "" then None else Some(FirstWord(rest))
  }

  function FirstWord(s: string): string {
    if s == "" || IsSpace(s[0]) then "" else [s[0]] + FirstWord(s[1..])
  }

  function ScriptsOf(commands: seq<string>): seq<string> {
    if commands == [] then []
    else
      var script := ScriptOf(commands[0]);
      (if script.Some? && script.value != "" then [script.value] else []) + ScriptsOf(commands[1..])
  }

  function CommandScriptsFor(commands: seq<string>): seq<string> {
    SortedUnique(ScriptsOf(commands))
  }

  function AllScripts(actions: seq<Action>): seq<string> {
    if actions == [] then [] else CommandScriptsFor(actions[0].commands) + AllScripts(actions[1..])
  }

  /** What is missing in several phases is what is missing in each, one after the other. */
  lemma {:induction false} MissingAppend(a: seq<GapPhase>, b: seq<GapPhase>)
    ensures MissingIn(a + b) == MissingIn(a) + MissingIn(b)
  {
    hide MissingOf;
    if a == [] {
      assert a + b == b;
    } else {
      assert (a + b)[1..] == a[1..] + b;
      MissingAppend(a[1..], b);
    }
  }

  lemma {:induction false} MissingOne(phase: GapPhase)
    ensures MissingIn([phase]) == MissingOf(phase, phase.mappings)
  {
    hide MissingOf;
    assert [phase][1..] == [];
  }

  /** A mapping does not say in which list it stands: only the phase's name, title and keys are recorded. */
  lemma {:induction false} MissingOfAlike(p: GapPhase, q: GapPhase, mappings: seq<TemplateMapping>)
    requires p.phase == q.phase && p.title == q.title && p.evidenceKeys == q.evidenceKeys
    ensures MissingOf(p, mappings) == MissingOf(q, mappings)
  {
    if mappings != [] {
      MissingOfAlike(p, q, mappings[1..]);
    }
  }

  /** In one phase every mapping that is not present is recorded, with its template and its evidence key and
      under the phase's name, title and keys; a mapping that is present is not. */
  lemma {:induction false} MissingInPhase(phase: GapPhase, m: TemplateMapping, rest: seq<TemplateMapping>)
    ensures MissingIn([phase.(mappings := [])]) == []
    ensures MissingIn([phase.(mappings := [m] + rest)]) ==
            (if m.present then []
             else [MissingArtifact(phase.phase, phase.title, m.templatePath,
                                   if m.evidenceKey == Some("") then None else m.evidenceKey, phase.evidenceKeys)])
            + MissingIn([phase.(mappings := rest)])
  {
    assert ([m] + rest)[1..] == rest;
    MissingOfAlike(phase.(mappings := [m] + rest), phase.(mappings := rest), rest);
    MissingOne(phase.(mappings := []));
    MissingOne(phase.(mappings := rest));
    MissingOne(phase.(mappings := [m] + rest));
  }

  // ---------------------------------------------------------------- the decision record

  function Or(a: nat, b: nat): nat {
    if a != 0 then a else b
  }

  /** approve exactly when the gate is ready, nothing is pending and no artifact is missing. */
  function Decide(gate: PhaseGate, register: ActionRegister, gaps: GapMatrix): string {
    if gate.state.ready && |Pending(register.actions)| == 0 && |MissingIn(gaps.phases)| == 0 then APPROVE else HOLD
  }

  function Target(gate: PhaseGate, gaps: GapMatrix): string {
    NonEmpty(gate.target).GetOr(gaps.status)
  }

  function SummarizeKeys(register: ActionRegister, gaps: GapMatrix): KeySummary {
    var actionKeys, gapKeys := SortedUnique(KeysOf(register.actions)), SortedUnique(GapKeysOf(gaps.phases));
    KeySummary(actionKeys, gapKeys, |actionKeys|, |gapKeys|)
  }

  function Cover(register: ActionRegister, gaps: GapMatrix): CommandCoverage {
    CommandCoverage(
      register.commands.scriptCount, gaps.commands.scriptCount,
      Or(gaps.commands.validatorCount, register.commands.validatorCount), register.commands.scripts,
          gaps.commands.scripts)
  }

  function Approvals(decision: string, roles: seq<string>, actions: seq<Action>): (r: seq<RequiredApproval>)
    ensures |r| == |roles|
    ensures forall i | 0 <= i < |r| :: r[i] == RequiredApproval(
              roles[i], if decision == APPROVE then "required-before-release" else "blocked-until-evidence-complete",
              SortedUnique(KeysOf(OwnedBy(actions, roles[i]))))
  {
    seq(|roles|, i requires 0 <= i < |roles| => RequiredApproval(
      roles[i], if decision == APPROVE then "required-before-release" else "blocked-until-evidence-complete",
      SortedUnique(KeysOf(OwnedBy(actions, roles[i])))))
  }

  function Listed(actions: seq<Action>): (r: seq<PendingAction>)
    ensures |r| == |actions|
    ensures forall i | 0 <= i < |r| ::
              var a := actions[i];
              r[i] == PendingAction(a.id, a.phase, a.title, a.ownerRole, a.blockerType, a.status, a.evidenceKeys)
  {
    seq(|actions|, i requires 0 <= i < |actions| =>
      var a := actions[i];
      PendingAction(a.id, a.phase, a.title, a.ownerRole, a.blockerType, a.status, a.evidenceKeys))
  }

  function PrepareDecision(
    gatePath: string, actionsPath: string, gapsPath: string, generatedAt: string,
    gate: PhaseGate, register: ActionRegister, gaps: GapMatrix): DecisionRecord
  {
    var decision := Decide(gate, register, gaps);
    var roles := Unique(Owners(register.actions));
    var missing := MissingIn(gaps.phases);
    DecisionRecord(
      DECISION_FORMAT, generatedAt, gatePath, actionsPath, gapsPath,
      gaps.environment, gaps.owner, gaps.status, Target(gate, gaps), decision, gate.state,
      |Pending(register.actions)|, |missing|, SummarizeKeys(register, gaps), Cover(register, gaps),
      roles, Approvals(decision, roles, register.actions), Listed(Pending(register.actions)), missing)
  }

  predicate InputsLinked(gatePath: string, gate: PhaseGate, register: ActionRegister, gaps: GapMatrix) {
    && gate.format == GATE_FORMAT && register.format == REGISTER_FORMAT && gaps.format == GAP_FORMAT
    && register.phaseGatePath == gatePath && gaps.phaseCount == |register.actions|
  }

  predicate PendingListed(listed: seq<PendingAction>, pending: seq<Action>) {
    && |listed| <= |pending|
    && forall i | 0 <= i < |listed| ::
         listed[i].id == pending[i].id && listed[i].title == pending[i].title
         && listed[i].status == pending[i].status && listed[i].evidenceKeys == pending[i].evidenceKeys
  }

  predicate DecisionValid(
    host: Host, record: DecisionRecord, gatePath: string, actionsPath: string, gapsPath: string,
    gate: PhaseGate, register: ActionRegister, gaps: GapMatrix)
  {
    var pending, missing := Pending(register.actions), MissingIn(gaps.phases);
    var roles := Unique(Owners(register.actions));
    && record.format == DECISION_FORMAT && IsTimestamp(host, record.generatedAt)
    && record.environment != "" && record.owner != "" && record.status != "" && record.target != ""
    && record.decision in {APPROVE, HOLD}
    && InputsLinked(gatePath, gate, register, gaps)
    && record.phaseGatePath == gatePath && record.actionRegisterPath == actionsPath && record.gapMatrixPath == gapsPath
    && record.environment == gaps.environment && record.owner == gaps.owner && record.status == gaps.status
    && record.target == Target(gate, gaps)
    && record.decision == Decide(gate, register, gaps)
    && record.state == gate.state
    && record.pendingActionCount == |pending| && record.missingArtifactCount == |missing|
    && record.keys == SummarizeKeys(register, gaps)
    && record.coverage == Cover(register, gaps)
    && record.coverage.actionScripts == record.coverage.gapScripts
    && record.ownerRoles == roles
    && |record.requiredApprovals| == |roles|
    && (forall i | 0 <= i < |roles| ::
          record.requiredApprovals[i].ownerRole == roles[i]
          && record.requiredApprovals[i].evidenceKeys == SortedUnique(KeysOf(OwnedBy(register.actions, roles[i]))))
    && PendingListed(record.pendingActions, pending)
    && record.missingArtifacts == missing
  }

  /** A prepared decision record is accepted exactly when the gap matrix is filled in and names the
      same command scripts as the action register. */
  lemma {:induction false} PreparedDecisionValid(
      host: Host, gatePath: string, actionsPath: string, gapsPath: string, generatedAt: string,
      gate: PhaseGate, register: ActionRegister, gaps: GapMatrix)
    requires InputsLinked(gatePath, gate, register, gaps) && IsTimestamp(host, generatedAt)
    ensures DecisionValid(
              host, PrepareDecision(gatePath, actionsPath, gapsPath, generatedAt, gate, register, gaps),
              gatePath, actionsPath, gapsPath, gate, register, gaps)
            <==> && gaps.environment != "" && gaps.owner != "" && gaps.status != ""
                 && register.commands.scripts == gaps.commands.scripts
  {
    hide InputsLinked, SortedUnique, Unique, Pending, MissingIn, KeysOf, OwnedBy, SummarizeKeys, DECISION_FORMAT,
      IsTimestamp;
  }

  /** A validated record approves closure exactly when the phase gate is ready, no action is pending and
      no artifact is missing. */
  lemma {:induction false} ApprovalNeedsEverything(
      host: Host, record: DecisionRecord, gatePath: string, actionsPath: string, gapsPath: string,
      gate: PhaseGate, register: ActionRegister, gaps: GapMatrix)
    requires DecisionValid(host, record, gatePath, actionsPath, gapsPath, gate, register, gaps)
    ensures record.decision == APPROVE <==>
            gate.state.ready && Pending(register.actions) == [] && MissingIn(gaps.phases) == []
  {
    hide InputsLinked, SortedUnique, Unique, Pending, MissingIn, KeysOf, OwnedBy, SummarizeKeys, Cover;
  }

  /** The record lists every pending action of the register, in order. */
  predicate ListsAllPending(record: DecisionRecord, register: ActionRegister) {
    var pending := Pending(register.actions);
    && |record.pendingActions| == |pending|
    && forall i | 0 <= i < |pending| :: record.pendingActions[i].id == pending[i].id
  }

  /** The validator compares the pending actions it finds listed, but not how many there are. An accepted
      record lists them all exactly when the length of its list is the count it states; and cutting the
      list short keeps the record accepted. */
  lemma {:induction false} PendingListExactly(
      host: Host, record: DecisionRecord, gatePath: string, actionsPath: string, gapsPath: string,
      gate: PhaseGate, register: ActionRegister, gaps: GapMatrix)
    requires DecisionValid(host, record, gatePath, actionsPath, gapsPath, gate, register, gaps)
    ensures ListsAllPending(record, register) <==> |record.pendingActions| == record.pendingActionCount
    ensures forall n | 0 <= n <= |record.pendingActions| ::
              DecisionValid(host, record.(pendingActions := record.pendingActions[..n]),
                            gatePath, actionsPath, gapsPath, gate, register, gaps)
  {
    hide InputsLinked, SortedUnique, Unique, Pending, MissingIn, KeysOf, OwnedBy, SummarizeKeys, Decide, Cover, Target;
  }

  const SAMPLE_GATE := "/release/phase-gate-validation.json"
  const SAMPLE_ACTIONS := "/release/phase-action-register.json"
  const SAMPLE_GAPS := "/release/phase-gap-matrix.json"

  function SampleRegister(): ActionRegister {
    ActionRegister(REGISTER_FORMAT, SAMPLE_GATE, Commands(0, 0, []),
                   [Action("ACT-01", "Phase 1", "Attach evidence", "securityOwner", "external",
                       "pending-external-evidence", [], [])])
  }

  function SampleGaps(): GapMatrix {
    GapMatrix(GAP_FORMAT, "prod", "ops", "pilot", 1, Commands(0, 0, []), [GapPhase("Phase 1", "Attach evidence", [],
        [])])
  }

  /** A decision record with no action listed. */
  function SampleRecord(gate: PhaseGate, generatedAt: string): DecisionRecord {
    PrepareDecision(SAMPLE_GATE, SAMPLE_ACTIONS, SAMPLE_GAPS, generatedAt, gate, SampleRegister(), SampleGaps())
      .(pendingActions := [])
  }

  /** One pending action, none listed, and still accepted. */
  lemma {:induction false} PendingActionUnlisted(host: Host, gate: PhaseGate, generatedAt: string)
    requires gate.format == GATE_FORMAT && IsTimestamp(host, generatedAt)
    ensures DecisionValid(host, SampleRecord(gate, generatedAt), SAMPLE_GATE, SAMPLE_ACTIONS, SAMPLE_GAPS,
                          gate, SampleRegister(), SampleGaps())
    ensures !ListsAllPending(SampleRecord(gate, generatedAt), SampleRegister())
  {
    var register, gaps := SampleRegister(), SampleGaps();
    var prepared := PrepareDecision(SAMPLE_GATE, SAMPLE_ACTIONS, SAMPLE_GAPS, generatedAt, gate, register, gaps);
    assert |Pending(register.actions)| == 1;
    assert InputsLinked(SAMPLE_GATE, gate, register, gaps);
    assert gaps.environment != "" && gaps.owner != "" && gaps.status != "";
    assert register.commands.scripts == gaps.commands.scripts;
    hide DecisionValid, PrepareDecision, SampleRegister, SampleGaps, IsTimestamp, Pending, InputsLinked, SAMPLE_GATE,
      SAMPLE_ACTIONS, SAMPLE_GAPS;
    PreparedDecisionValid(host, SAMPLE_GATE, SAMPLE_ACTIONS, SAMPLE_GAPS, generatedAt, gate, register, gaps);
    PendingListExactly(host, prepared, SAMPLE_GATE, SAMPLE_ACTIONS, SAMPLE_GAPS, gate, register, gaps);
    assert prepared.pendingActions[..0] == [];
  }

  // ---------------------------------------------------------------- the signoff matrix

  datatype ApprovalAction = ApprovalAction(
    id: string, phase: string, title: string, blockerType: string, status: string,
    evidenceKeys: seq<string>, commandScripts: seq<string>)

  datatype Approval = Approval(
    id: string, ownerRole: string, status: string, actionCount: nat, pendingActionCount: nat,
    blockerTypes: seq<string>, evidenceKeys: seq<string>, commandScriptCount: nat, commandScripts: seq<string>,
    actions: seq<ApprovalAction>, requiredEvidenceCount: nat)

  datatype MatrixSummary = MatrixSummary(
    approvalCount: nat, blockedCount: nat, readyCount: nat, pendingActionCount: nat,
    evidenceKeyCount: nat, evidenceKeys: seq<string>, commands: Commands)

  datatype Matrix = Matrix(
    format: string, generatedAt: string, decisionPath: string, actionRegisterPath: string,
    environment: string, owner: string, status: string, decision: string, ready: bool,
    summary: MatrixSummary, approvals: seq<Approval>)

  const READY := "ready-for-signoff"
  const BLOCKED := "blocked-pending-evidence"

  function ApprovalStatus(decision: string, actions: seq<Action>): string {
    if |Pending(actions)| == 0 && decision == APPROVE then READY else BLOCKED
  }

  function ListForApproval(actions: seq<Action>): (r: seq<ApprovalAction>)
    ensures |r| == |actions|
    ensures forall i | 0 <= i < |r| ::
              var a := actions[i];
              r[i] == ApprovalAction(a.id, a.phase, a.title, a.blockerType, a.status, a.evidenceKeys,
                  CommandScriptsFor(a.commands))
  {
    seq(|actions|, i requires 0 <= i < |actions| =>
      var a := actions[i];
      ApprovalAction(a.id, a.phase, a.title, a.blockerType, a.status, a.evidenceKeys, CommandScriptsFor(a.commands)))
  }

  function Approve(decision: string, register: ActionRegister, role: string, index: nat): Approval {
    var actions := OwnedBy(register.actions, role);
    var scripts := SortedUnique(AllScripts(actions));
    Approval(
      "SIGN-" + PadTwo(Decimal(index + 1)), role, ApprovalStatus(decision, actions), |actions|, |Pending(actions)|,
      Unique(BlockersOf(actions)), SortedUnique(KeysOf(actions)), |scripts|, scripts, ListForApproval(actions), 4)
  }

  function ApproveAll(decision: string, register: ActionRegister, roles: seq<string>): (r: seq<Approval>)
    ensures |r| == |roles|
    ensures forall i | 0 <= i < |r| :: r[i] == Approve(decision, register, roles[i], i)
  {
    seq(|roles|, i requires 0 <= i < |roles| => Approve(decision, register, roles[i], i))
  }

  function CountStatus(approvals: seq<Approval>, status: string): nat {
    if approvals == [] then 0
    else
      CountStatus(approvals[..|approvals| - 1], status) + if approvals[|approvals| - 1].status == status then 1 else 0
  }

  function SumPending(approvals: seq<Approval>): nat {
    if approvals == [] then 0
    else SumPending(approvals[..|approvals| - 1]) + approvals[|approvals| - 1].pendingActionCount
  }

  function Summarize(approvals: seq<Approval>, decision: DecisionRecord, register: ActionRegister): MatrixSummary {
    var keys := SortedUnique(KeysOf(register.actions));
    MatrixSummary(
      |approvals|, CountStatus(approvals, BLOCKED), CountStatus(approvals, READY), SumPending(approvals), |keys|, keys,
      Commands(register.commands.scriptCount, Or(decision.coverage.validatorCount, register.commands.validatorCount),
               register.commands.scripts))
  }

  function PrepareMatrix(
    decisionPath: string, actionsPath: string, generatedAt: string,
    decision: DecisionRecord, register: ActionRegister): Matrix
  {
    var approvals := ApproveAll(decision.decision, register, Unique(Owners(register.actions)));
    Matrix(
      MATRIX_FORMAT, generatedAt, decisionPath, actionsPath, decision.environment, decision.owner, decision.status,
      decision.decision, decision.state.ready, Summarize(approvals, decision, register), approvals)
  }

  predicate ApprovalValid(approval: Approval, decision: string, register: ActionRegister, role: string, index: nat) {
    var actions := OwnedBy(register.actions, role);
    var scripts := SortedUnique(AllScripts(actions));
    && approval.id == "SIGN-" + PadTwo(Decimal(index + 1))
    && approval.ownerRole == role
    && approval.status == ApprovalStatus(decision, actions)
    && approval.actionCount == |actions| && approval.pendingActionCount == |Pending(actions)|
    && approval.blockerTypes == Unique(BlockersOf(actions))
    && approval.evidenceKeys == SortedUnique(KeysOf(actions))
    && approval.commandScriptCount == |scripts| && approval.commandScripts == scripts
    && |approval.actions| == |actions| && approval.requiredEvidenceCount >= 4
    && forall i | 0 <= i < |actions| ::
         approval.actions[i].id == actions[i].id && approval.actions[i].title == actions[i].title
         && approval.actions[i].status == actions[i].status
            && approval.actions[i].evidenceKeys == actions[i].evidenceKeys
         && approval.actions[i].commandScripts == CommandScriptsFor(actions[i].commands)
  }

  predicate MatrixValid(
    host: Host, matrix: Matrix, decisionPath: string, actionsPath: string,
    decision: DecisionRecord, register: ActionRegister)
  {
    var roles := Unique(Owners(register.actions));
    && matrix.format == MATRIX_FORMAT && IsTimestamp(host, matrix.generatedAt)
    && decision.format == DECISION_FORMAT && register.format == REGISTER_FORMAT
    && matrix.decisionPath == decisionPath && matrix.actionRegisterPath == actionsPath
    && decision.actionRegisterPath == matrix.actionRegisterPath
    && matrix.environment == decision.environment && matrix.owner == decision.owner
    && matrix.status == decision.status && matrix.decision == decision.decision && matrix.ready == decision.state.ready
    && |matrix.approvals| == |roles|
    && matrix.summary == Summarize(matrix.approvals, decision, register)
    && matrix.summary.evidenceKeys == decision.keys.actionKeys
    && matrix.summary.commands.scripts == decision.coverage.actionScripts
    && forall i | 0 <= i < |roles| :: ApprovalValid(matrix.approvals[i], decision.decision, register, roles[i], i)
  }

  /** A matrix prepared from a validated decision is accepted. */
  lemma {:induction false} PreparedMatrixValid(
      host: Host, decisionPath: string, gatePath: string, actionsPath: string, gapsPath: string, generatedAt: string,
      decision: DecisionRecord, gate: PhaseGate, register: ActionRegister, gaps: GapMatrix)
    requires DecisionValid(host, decision, gatePath, actionsPath, gapsPath, gate, register, gaps)
    requires IsTimestamp(host, generatedAt)
    ensures MatrixValid(
      host, PrepareMatrix(decisionPath, actionsPath, generatedAt, decision, register), decisionPath, actionsPath,
          decision, register)
  {
    hide SortedUnique, Unique, Pending, KeysOf, OwnedBy, CountStatus, SumPending, AllScripts, IsTimestamp,
      DECISION_FORMAT, MATRIX_FORMAT, REGISTER_FORMAT, ApprovalValid, Decimal, Decide, MissingIn, Approve, Owners;
    var roles := Unique(Owners(register.actions));
    forall i | 0 <= i < |roles|
      ensures ApprovalValid(Approve(decision.decision, register, roles[i], i), decision.decision, register, roles[i], i)
    {
      ApproveValid(decision.decision, register, roles[i], i);
    }
  }

  lemma {:induction false} ApproveValid(decision: string, register: ActionRegister, role: string, index: nat)
    ensures ApprovalValid(Approve(decision, register, role, index), decision, register, role, index)
  {
    hide SortedUnique, Unique, Pending, KeysOf, OwnedBy, AllScripts, Decimal, CommandScriptsFor, ApprovalStatus;
  }

  /** Signoff is all or nothing: against a validated decision, every approval is ready exactly when the
      decision approves closure, so no matrix mixes ready and blocked approvals. */
  lemma {:induction false} SignoffAllOrNothing(
      host: Host, matrix: Matrix, decisionPath: string, gatePath: string, actionsPath: string, gapsPath: string,
      decision: DecisionRecord, gate: PhaseGate, register: ActionRegister, gaps: GapMatrix)
    requires DecisionValid(host, decision, gatePath, actionsPath, gapsPath, gate, register, gaps)
    requires MatrixValid(host, matrix, decisionPath, actionsPath, decision, register)
    ensures forall a | a in matrix.approvals :: a.status == READY <==> decision.decision == APPROVE
    ensures matrix.summary.readyCount == (if decision.decision == APPROVE then |matrix.approvals| else 0)
    ensures matrix.summary.blockedCount == (if decision.decision == APPROVE then 0 else |matrix.approvals|)
    ensures decision.decision == APPROVE ==> matrix.summary.pendingActionCount == 0 && matrix.ready
  {
    var roles := Unique(Owners(register.actions));
    forall i | 0 <= i < |roles|
      ensures matrix.approvals[i].status == if decision.decision == APPROVE then READY else BLOCKED
      ensures decision.decision == APPROVE ==> matrix.approvals[i].pendingActionCount == 0
    {
      StatusOfApproval(matrix.approvals[i], decision, gate, register, gaps, roles[i], i);
    }
    Uniform(matrix.approvals, if decision.decision == APPROVE then READY else BLOCKED);
    if decision.decision == APPROVE {
      NothingPending(matrix.approvals);
    }
  }

  lemma {:induction false} StatusOfApproval(
      approval: Approval, decision: DecisionRecord, gate: PhaseGate, register: ActionRegister, gaps: GapMatrix,
      role: string, index: nat)
    requires decision.decision == Decide(gate, register, gaps)
    requires ApprovalValid(approval, decision.decision, register, role, index)
    ensures approval.status == if decision.decision == APPROVE then READY else BLOCKED
    ensures decision.decision == APPROVE ==> approval.pendingActionCount == 0
  {
    hide SortedUnique, Unique, AllScripts, Decimal, MissingIn;
    NothingPendingOwned(register.actions, role);
  }

  lemma {:induction false} NothingPendingOwned(actions: seq<Action>, role: string)
    ensures Pending(actions) == [] ==> Pending(OwnedBy(actions, role)) == []
  {
    var pending := Pending(OwnedBy(actions, role));
    assert pending != [] ==> pending[0] in Pending(actions);
  }

  lemma {:induction false} Uniform(approvals: seq<Approval>, status: string)
    requires forall i | 0 <= i < |approvals| :: approvals[i].status == status
    ensures forall s: string :: CountStatus(approvals, s) == if s == status then |approvals| else 0
  {
    if approvals != [] {
      Uniform(approvals[..|approvals| - 1], status);
    }
  }

  lemma {:induction false} NothingPending(approvals: seq<Approval>)
    requires forall i | 0 <= i < |approvals| :: approvals[i].pendingActionCount == 0
    ensures SumPending(approvals) == 0
  {
    if approvals != [] {
      NothingPending(approvals[..|approvals| - 1]);
    }
  }

  // ---------------------------------------------------------------- the grouping is a partition

  function Among(actions: seq<Action>, roles: set<string>): seq<Action> {
    if actions == [] then []
    else (if actions[0].ownerRole in roles then [actions[0]] else []) + Among(actions[1..], roles)
  }

  /** What a group contributes: its size and its pending actions. */
  datatype Contribution = Contribution(size: nat, pending: nat)

  function Contributes(actions: seq<Action>): Contribution {
    Contribution(|actions|, |Pending(actions)|)
  }

  function Plus(a: Contribution, b: Contribution): Contribution {
    Contribution(a.size + b.size, a.pending + b.pending)
  }

  function One(a: Action): Contribution {
    Contribution(1, if a.status != "complete" then 1 else 0)
  }

  lemma {:induction false} FirstContributes(a: Action, actions: seq<Action>)
    ensures Contributes([a] + actions) == Plus(One(a), Contributes(actions))
  {
    assert ([a] + actions)[1..] == actions;
  }

  /** Adds the first action if it belongs to the group. */
  function Counting(first: Action, taken: bool, rest: Contribution): Contribution {
    if taken then Plus(One(first), rest) else rest
  }

  lemma {:induction false} AmongFirst(actions: seq<Action>, roles: set<string>)
    requires actions != []
    ensures Contributes(Among(actions, roles))
         == Counting(actions[0], actions[0].ownerRole in roles, Contributes(Among(actions[1..], roles)))
  {
    hide Contributes, One;
    var rest := Among(actions[1..], roles);
    FirstContributes(actions[0], rest);
    assert [] + rest == rest;
  }

  lemma {:induction false} OwnedFirst(actions: seq<Action>, role: string)
    requires actions != []
    ensures Contributes(OwnedBy(actions, role))
         == Counting(actions[0], actions[0].ownerRole == role, Contributes(OwnedBy(actions[1..], role)))
  {
    hide Contributes, One;
    var rest := OwnedBy(actions[1..], role);
    FirstContributes(actions[0], rest);
    assert [] + rest == rest;
  }

  function Nothing(): Contribution {
    Contribution(0, 0)
  }

  lemma {:induction false} NothingContributes(actions: seq<Action>, roles: set<string>, role: string)
    requires actions == []
    ensures Contributes(actions) == Nothing() && Among(actions, roles) == actions && OwnedBy(actions, role) == actions
  {
  }

  lemma {:induction false} OneMoreRole(actions: seq<Action>, roles: set<string>, role: string)
    requires role !in roles
    ensures Contributes(Among(actions, roles + {role})) == Plus(Contributes(Among(actions, roles)),
            Contributes(OwnedBy(actions, role)))
  {
    hide Contributes, One, Among, OwnedBy;
    if actions == [] {
      NothingContributes(actions, roles, role);
      NothingContributes(actions, roles + {role}, role);
    } else {
      OneMoreRole(actions[1..], roles, role);
      AmongFirst(actions, roles + {role});
      AmongFirst(actions, roles);
      OwnedFirst(actions, role);
    }
  }

  function SumGroups(actions: seq<Action>, roles: seq<string>): Contribution {
    if roles == [] then Nothing()
    else Plus(SumGroups(actions, roles[..|roles| - 1]), Contributes(OwnedBy(actions, roles[|roles| - 1])))
  }

  lemma {:induction false} GroupsSum(actions: seq<Action>, roles: seq<string>)
    requires Distinct(roles)
    ensures SumGroups(actions, roles) == Contributes(Among(actions, AsSet(roles)))
  {
    hide Contributes, OwnedBy, Among;
    if roles == [] {
      AmongNone(actions);
      assert AsSet(roles) == {};
      NoneContribute(Among(actions, {}));
    } else {
      var init, last := roles[..|roles| - 1], roles[|roles| - 1];
      GroupsSum(actions, init);
      assert last !in AsSet(init);
      AddedLast(init, last);
      assert init + [last] == roles;
      OneMoreRole(actions, AsSet(init), last);
    }
  }

  lemma {:induction false} NoneContribute(actions: seq<Action>)
    requires actions == []
    ensures Contributes(actions) == Nothing()
  {
  }

  lemma {:induction false} AmongNone(actions: seq<Action>)
    ensures Among(actions, {}) == []
  {
    if actions != [] {
      AmongNone(actions[1..]);
    }
  }

  lemma {:induction false} AmongAll(actions: seq<Action>, roles: set<string>)
    requires forall a | a in actions :: a.ownerRole in roles
    ensures Among(actions, roles) == actions
  {
    if actions != [] {
      assert actions[0] in actions;
      AmongAll(actions[1..], roles);
    }
  }

  /** Every action is in the group of exactly one owner role; group sizes and pending counts add up,
      and a key belongs to some group exactly when the register has it. */
  lemma {:induction false} GroupingIsPartition(actions: seq<Action>)
    ensures var roles := Unique(Owners(actions));
            && (forall a | a in actions :: InExactlyOneGroup(actions, roles, a))
            && SumGroups(actions, roles) == Contribution(|actions|, |Pending(actions)|)
            && forall key :: key in SortedUnique(KeysOf(actions)) <==>
                 exists k :: 0 <= k < |roles| && key in SortedUnique(KeysOf(OwnedBy(actions, roles[k])))
  {
    var roles := Unique(Owners(actions));
    hide Unique, SumGroups, Pending, KeysOf, SortedUnique, InExactlyOneGroup, Among, OwnedBy;
    forall a | a in actions
      ensures a.ownerRole in AsSet(roles)
      ensures InExactlyOneGroup(actions, roles, a)
    {
      OneGroup(actions, roles, a);
    }
    GroupsSum(actions, roles);
    AmongAll(actions, AsSet(roles));
    forall key
      ensures key in SortedUnique(KeysOf(actions)) <==>
              exists k :: 0 <= k < |roles| && key in SortedUnique(KeysOf(OwnedBy(actions, roles[k])))
    {
      KeyInGroups(actions, roles, key);
    }
  }

  lemma {:induction false} KeyOfAction(actions: seq<Action>, key: string)
    ensures key in SortedUnique(KeysOf(actions)) <==> exists a :: a in actions && key in a.evidenceKeys
  {
    KeyInKeys(actions, key);
    assert key in SortedUnique(KeysOf(actions)) <==> key in AsSet(SortedUnique(KeysOf(actions)));
  }

  lemma {:induction false} KeyInKeys(actions: seq<Action>, key: string)
    ensures key in KeysOf(actions) <==> exists a :: a in actions && key in a.evidenceKeys
  {
    if actions != [] {
      KeyInKeys(actions[1..], key);
      assert actions == [actions[0]] + actions[1..];
    }
  }

  lemma {:induction false} KeyInGroups(actions: seq<Action>, roles: seq<string>, key: string)
    requires forall a | a in actions :: a.ownerRole in AsSet(roles)
    ensures key in SortedUnique(KeysOf(actions)) <==>
            exists k :: 0 <= k < |roles| && key in SortedUnique(KeysOf(OwnedBy(actions, roles[k])))
  {
    hide SortedUnique, KeysOf, OwnedBy;
    KeyOfAction(actions, key);
    forall k | 0 <= k < |roles|
      ensures key in SortedUnique(KeysOf(OwnedBy(actions, roles[k]))) <==>
              exists a :: a in OwnedBy(actions, roles[k]) && key in a.evidenceKeys
    {
      KeyOfAction(OwnedBy(actions, roles[k]), key);
    }
    if a :| a in actions && key in a.evidenceKeys {
      var k :| 0 <= k < |roles| && roles[k] == a.ownerRole;
      assert a in OwnedBy(actions, roles[k]);
    }
  }

  predicate InExactlyOneGroup(actions: seq<Action>, roles: seq<string>, a: Action) {
    exists k :: 0 <= k < |roles| && a in OwnedBy(actions, roles[k])
                && forall l | 0 <= l < |roles| && l != k :: a !in OwnedBy(actions, roles[l])
  }

  lemma {:induction false} OneGroup(actions: seq<Action>, roles: seq<string>, a: Action)
    requires Distinct(roles) && AsSet(roles) == AsSet(Owners(actions)) && a in actions
    ensures a.ownerRole in AsSet(roles) && InExactlyOneGroup(actions, roles, a)
  {
    var i :| 0 <= i < |actions| && actions[i] == a;
    assert Owners(actions)[i] in AsSet(Owners(actions));
    var k :| 0 <= k < |roles| && roles[k] == a.ownerRole;
    assert a in OwnedBy(actions, roles[k]);
  }

  /** In an accepted matrix the approvals' counts add up to the register's. */
  lemma {:induction false} MatrixCountsAddUp(
      host: Host, matrix: Matrix, decisionPath: string, actionsPath: string,
      decision: DecisionRecord, register: ActionRegister)
    requires MatrixValid(host, matrix, decisionPath, actionsPath, decision, register)
    ensures matrix.summary.pendingActionCount == |Pending(register.actions)|
    ensures SumActions(matrix.approvals) == |register.actions|
    ensures forall key :: key in matrix.summary.evidenceKeys <==>
              exists i :: 0 <= i < |matrix.approvals| && key in matrix.approvals[i].evidenceKeys
  {
    hide ApprovalValid, Unique, Owners, SumGroups, SortedUnique, KeysOf, Pending, SumPending, CountStatus,
      SumActions, IsTimestamp, InExactlyOneGroup, AsSet, MATRIX_FORMAT, DECISION_FORMAT, REGISTER_FORMAT;
    var roles := Unique(Owners(register.actions));
    GroupingIsPartition(register.actions);
    ApprovalsContribute(matrix.approvals, decision.decision, register, roles, 0);
    forall i | 0 <= i < |roles|
      ensures matrix.approvals[i].evidenceKeys == SortedUnique(KeysOf(OwnedBy(register.actions, roles[i])))
    {
      ApprovalContributes(matrix.approvals[i], decision.decision, register, roles[i], i);
    }
    forall key
      ensures key in matrix.summary.evidenceKeys <==>
              exists i :: 0 <= i < |matrix.approvals| && key in matrix.approvals[i].evidenceKeys
    {
    }
  }

  function SumActions(approvals: seq<Approval>): nat {
    if approvals == [] then 0 else SumActions(approvals[..|approvals| - 1]) + approvals[|approvals| - 1].actionCount
  }

  lemma {:induction false} ApprovalsContribute(
      approvals: seq<Approval>, decision: string, register: ActionRegister, roles: seq<string>, start: nat)
    requires |approvals| == |roles|
    requires forall i | 0 <= i < |roles| :: ApprovalValid(approvals[i], decision, register, roles[i], start + i)
    ensures SumGroups(register.actions, roles) == Contribution(SumActions(approvals), SumPending(approvals))
  {
    hide ApprovalValid, OwnedBy, Contributes;
    if roles != [] {
      var n := |roles| - 1;
      ApprovalsContribute(approvals[..n], decision, register, roles[..n], start);
      ApprovalContributes(approvals[n], decision, register, roles[n], start + n);
    }
  }

  lemma {:induction false} ApprovalContributes(
      approval: Approval, decision: string, register: ActionRegister, role: string, index: nat)
    requires ApprovalValid(approval, decision, register, role, index)
    ensures Contributes(OwnedBy(register.actions, role)) == Contribution(approval.actionCount,
            approval.pendingActionCount)
    ensures approval.evidenceKeys == SortedUnique(KeysOf(OwnedBy(register.actions, role)))
  {
    hide OwnedBy, Pending, KeysOf;
  }

  /** Register order is kept inside a group. */
  lemma {:induction false} GroupingKeepsOrder(before: seq<Action>, after: seq<Action>, role: string)
    ensures OwnedBy(before + after, role) == OwnedBy(before, role) + OwnedBy(after, role)
  {
    if before == [] {
      assert before + after == after;
    } else {
      assert (before + after)[1..] == before[1..] + after;
      GroupingKeepsOrder(before[1..], after, role);
    }
  }
}
