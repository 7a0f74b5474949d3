/** The validators of the hash-bound evidence chain, one over the other: workspace manifest, evidence
    pack, review bundle, closure archive. Manifests are JSON values; the documents whose contents the
    checks compute with are read into their own types. */
module EvidenceChain {
  import opened Wrappers
  import opened Text
  import opened Json
  import opened Files
  import opened Attachments
  import opened Waivers
  import opened WaiverRegister
  import opened Expiry
  import Signoffs

  /** Readers of files, and what is not modelled further: whether the computed summaries of a manifest
      agree, whether a script succeeds on a target, and whether its output raises a blocker. */
  datatype Env = Env(
    host: Host,
    json: Bytes -> Option<Value>,
    intake: Bytes -> Option<Intake>,
    inventory: Bytes -> Option<Inventory>,
    register: Bytes -> Option<Register>,
    decision: Bytes -> Option<Signoffs.DecisionRecord>,
    actions: Bytes -> Option<Signoffs.ActionRegister>,
    gaps: Bytes -> Option<Signoffs.GapMatrix>,
    gate: Bytes -> Option<Signoffs.PhaseGate>,
    matrix: Bytes -> Option<Signoffs.Matrix>,
    summariesAgree: (string, FileSystem) -> bool,
    succeeds: (string, string, World) -> bool,
    raises: (string, string, World) -> bool,
    gateState: World -> Signoffs.GateState,
    reportDetails: (World, seq<string>) -> map<string, Value>)

  /** One moment: the files, the clock, and what git reports. */
  datatype World = World(fs: FileSystem, now: int, today: string, commit: string, branch: string, remote: string)

  // ---------------------------------------------------------------- reading

  function Read<T>(fs: FileSystem, reader: Bytes -> Option<T>, path: string): Option<T> {
    if path in fs then reader(fs[path]) else None
  }

  function At(v: Option<Value>, path: seq<string>): Option<Value>
    decreases |path|
  {
    if path == [] || v == None then v else At(Get(v.value, path[0]), path[1..])
  }

  function TextAt(v: Option<Value>, path: seq<string>): string {
    var found := At(v, path);
    if found.Some? && found.value.Str? then found.value.s else ""
  }

  lemma {:induction false} TextThere(v: Option<Value>, path: seq<string>)
    requires TextAt(v, path) != ""
    ensures At(v, path) == Some(Str(TextAt(v, path)))
  {
    hide At;
  }

  predicate IsHex(s: string) {
    forall c | c in s :: '0' <= c <= '9' || 'a' <= c <= 'f'
  }

  predicate IsDigest(s: string) {
    |s| == 64 && IsHex(s)
  }

  predicate IsCommit(s: string) {
    |s| == 40 && IsHex(s)
  }

  /** The artifact entry records the length and hash of the file at this path. */
  predicate Stamped(host: Host, fs: FileSystem, artifact: Option<Value>, path: string) {
    && artifact.Some?
    && TextAt(artifact, ["path"]) != ""
    && IsDigest(TextAt(artifact, ["sha256"]))
    && path in fs
    && At(artifact, ["bytes"]) == Some(Number(|fs[path]| as real)) && |fs[path]| > 0
    && TextAt(artifact, ["sha256"]) == host.sha256(fs[path])
  }

  lemma {:induction false} StampPins(host: Host, a: FileSystem, b: FileSystem, artifact: Option<Value>, path: string)
    requires NoCollision(host, a, b) && Stamped(host, a, artifact, path) && Stamped(host, b, artifact, path)
    ensures SameFile(a, b, path)
  {
    assert Number(|a[path]| as real) == Number(|b[path]| as real);
  }

  function Artifact(manifest: Option<Value>, name: string): Option<Value> {
    At(manifest, ["artifacts", name])
  }

  function ArtifactPath(manifest: Option<Value>, name: string): string {
    TextAt(Artifact(manifest, name), ["path"])
  }

  predicate AllStamped(host: Host, fs: FileSystem, manifest: Option<Value>, names: seq<string>) {
    forall n | n in names :: Stamped(host, fs, Artifact(manifest, n), ArtifactPath(manifest, n))
  }

  predicate HasFormat(v: Option<Value>, format: string) {
    At(v, ["format"]) == Some(Str(format))
  }

  lemma {:induction false} FormattedIsTruthy(v: Option<Value>, format: string)
    requires HasFormat(v, format)
    ensures Truthy(v)
  {
    if v.Some? {
      assert At(v, ["format"]) == At(Get(v.value, "format"), []);
    }
  }

  // ---------------------------------------------------------------- the workspace manifest

  const TEMPLATE_PATH := "docs/templates/deployment-evidence-bundle.json"

  function WorkspaceDir(env: Env, manifest: Option<Value>): string {
    env.host.resolve("", TextAt(manifest, ["outputDir"]))
  }

  /** Object.keys(v?.name || {}) */
  function KeysOf(v: Option<Value>, name: string): set<string> {
    match At(v, [name])
    case Some(Object(fields)) => fields.Keys
    case _ => {}
  }

  function EvidenceNames(v: Option<Value>): set<string> {
    KeysOf(v, "evidence")
  }

  function WorkspacePath(env: Env, manifest: Option<Value>, artifact: Option<Value>): string {
    env.host.resolve(WorkspaceDir(env, manifest), TextAt(artifact, ["path"]))
  }

  predicate WorkspaceStamped(env: Env, fs: FileSystem, manifest: Option<Value>, where: seq<string>) {
    Stamped(env.host, fs, At(manifest, where), WorkspacePath(env, manifest, At(manifest, where)))
  }

  predicate WorkspaceValid(env: Env, fs: FileSystem, manifestPath: string, bundlePath: string) {
    var manifest := Read(fs, env.json, manifestPath);
    var template := Read(fs, env.json, env.host.resolve("", TEMPLATE_PATH));
    var bundle := Read(fs, env.json, bundlePath);
    && HasFormat(manifest, "sentinel-deployment-evidence-workspace-manifest-v1")
    && HasFormat(template, "sentinel-deployment-evidence-bundle-v1")
    && IsTimestamp(env.host, TextAt(manifest, ["generatedAt"]))
    && TextAt(manifest, ["environment"]) != "" && TextAt(manifest, ["status"]) != ""
    && TextAt(manifest, ["owner"]) != "" && TextAt(manifest, ["outputDir"]) != ""
    && WorkspaceStamped(env, fs, manifest, ["bundle"]) && WorkspaceStamped(env, fs, manifest, ["readme"])
    && WorkspacePath(env, manifest, At(manifest, ["bundle"])) == bundlePath
    && HasFormat(bundle, "sentinel-deployment-evidence-bundle-v1")
    && At(bundle, ["environment"]) == At(manifest, ["environment"])
    && At(bundle, ["status"]) == At(manifest, ["status"]) && At(bundle, ["owner"]) == At(manifest, ["owner"])
    && EvidenceNames(bundle) == EvidenceNames(template) && EvidenceNames(manifest) == EvidenceNames(bundle)
    && forall name | name in EvidenceNames(manifest) ::
         && WorkspaceStamped(env, fs, manifest, ["evidence", name])
         && WorkspacePath(env, manifest, At(manifest, ["evidence", name]))
            == env.host.resolve(WorkspaceDir(env, manifest), TextAt(bundle, ["evidence", name]))
  }

  // ---------------------------------------------------------------- the evidence pack

  const PACK_ARTIFACTS: seq<string> := [
    "deploymentWorkspaceManifest", "deploymentBundle", "deploymentStatus", "deploymentRedaction",
    "deploymentRedactionMarkdown", "externalRequests", "externalRequestsMarkdown", "phaseCompletionAudit",
    "phaseCompletionAuditMarkdown", "phaseReadiness", "phaseReadinessMarkdown", "phaseHandoffChecklist"]

  predicate EvidencePackValid(env: Env, fs: FileSystem, manifestPath: string) {
    var manifest := Read(fs, env.json, manifestPath);
    var readiness := Read(fs, env.json, ArtifactPath(manifest, "phaseReadiness"));
    var workspace := Read(fs, env.json, ArtifactPath(manifest, "deploymentWorkspaceManifest"));
    var redaction := Read(fs, env.json, ArtifactPath(manifest, "deploymentRedaction"));
    && HasFormat(manifest, "sentinel-phase-evidence-pack-manifest-v1")
    && IsTimestamp(env.host, TextAt(manifest, ["generatedAt"]))
    && AllStamped(env.host, fs, manifest, PACK_ARTIFACTS)
    && HasFormat(readiness, "sentinel-phase-readiness-report-v1")
    && HasFormat(workspace, "sentinel-deployment-evidence-workspace-manifest-v1")
    && HasFormat(redaction, "sentinel-deployment-redaction-report-v1")
    && At(workspace, ["environment"]) == At(readiness, ["bundle", "environment"])
    && At(workspace, ["status"]) == At(readiness, ["bundle", "status"])
    && env.host.resolve(TextAt(workspace, ["outputDir"]), TextAt(workspace, ["bundle", "path"]))
       == ArtifactPath(manifest, "deploymentBundle")
    && env.host.resolve("", TextAt(redaction, ["bundle"])) == ArtifactPath(manifest, "deploymentBundle")
    && At(manifest, ["environment"]) == At(readiness, ["bundle", "environment"])
    && At(manifest, ["target"]) == At(readiness, ["target"])
    && At(manifest, ["bundleStatus"]) == At(readiness, ["bundle", "status"])
    && At(manifest, ["ready"]) == At(readiness, ["ready"])
    && env.summariesAgree("evidence", fs)
  }

  // ---------------------------------------------------------------- the review bundle

  const REVIEW_ARTIFACTS: seq<string> := [
    "phaseEvidenceManifest", "phaseGateValidation", "phaseGateValidationMarkdown",
    "phaseActionRegister", "phaseActionRegisterMarkdown", "phaseGapMatrix", "phaseGapMatrixMarkdown",
    "phaseDecisionRecord", "phaseDecisionRecordMarkdown", "phaseSignoffMatrix", "phaseSignoffMatrixMarkdown",
    "phaseEvidenceIntake", "phaseEvidenceIntakeMarkdown", "phaseAttachmentInventory",
    "phaseAttachmentInventoryMarkdown", "phaseWaiverRegister", "phaseWaiverRegisterMarkdown"]

  function SummaryValue(s: WaiverSummary): Value {
    Object(map[
      "waiverCount" := Number(s.waiverCount as real), "proposedCount" := Number(s.proposedCount as real),
      "approvedCount" := Number(s.approvedCount as real), "expiredCount" := Number(s.expiredCount as real)])
  }

  function StateValue(n: nat): Option<Value> {
    Some(Number(n as real))
  }

  /** The documents a review manifest names, as far as the review compares them. */
  datatype Reviewed = Reviewed(
    gate: Signoffs.PhaseGate, actions: Signoffs.ActionRegister, gaps: Signoffs.GapMatrix,
    decision: Signoffs.DecisionRecord, matrix: Signoffs.Matrix, intake: Intake, inventory: Inventory,
        register: Register)

  function ReadReviewed(env: Env, fs: FileSystem, manifest: Option<Value>): Option<Reviewed> {
    var gate := Read(fs, env.gate, ArtifactPath(manifest, "phaseGateValidation"));
    var actions := Read(fs, env.actions, ArtifactPath(manifest, "phaseActionRegister"));
    var gaps := Read(fs, env.gaps, ArtifactPath(manifest, "phaseGapMatrix"));
    var decision := Read(fs, env.decision, ArtifactPath(manifest, "phaseDecisionRecord"));
    var matrix := Read(fs, env.matrix, ArtifactPath(manifest, "phaseSignoffMatrix"));
    var intake := Read(fs, env.intake, ArtifactPath(manifest, "phaseEvidenceIntake"));
    var inventory := Read(fs, env.inventory, ArtifactPath(manifest, "phaseAttachmentInventory"));
    var register := Read(fs, env.register, ArtifactPath(manifest, "phaseWaiverRegister"));
    if gate.Some? && actions.Some? && gaps.Some? && decision.Some? && matrix.Some? && intake.Some?
       && inventory.Some? && register.Some?
    then Some(Reviewed(gate.value, actions.value, gaps.value, decision.value, matrix.value, intake.value,
                       inventory.value, register.value))
    else None
  }

  predicate ReviewFormats(d: Reviewed) {
    && d.gate.format == Signoffs.GATE_FORMAT && d.actions.format == Signoffs.REGISTER_FORMAT
    && d.gaps.format == Signoffs.GAP_FORMAT && d.decision.format == Signoffs.DECISION_FORMAT
    && d.matrix.format == Signoffs.MATRIX_FORMAT && d.intake.format == INTAKE_FORMAT
    && d.inventory.format == INVENTORY_FORMAT && d.register.format == Waivers.REGISTER_FORMAT
  }

  /** The documents refer to each other under the paths the manifest lists. */
  predicate ReviewLinks(manifest: Option<Value>, d: Reviewed) {
    && d.gate.evidenceManifest == ArtifactPath(manifest, "phaseEvidenceManifest")
    && d.actions.phaseGatePath == ArtifactPath(manifest, "phaseGateValidation")
    && d.gaps.phaseCount == |d.actions.actions|
    && d.decision.phaseGatePath == ArtifactPath(manifest, "phaseGateValidation")
    && d.decision.actionRegisterPath == ArtifactPath(manifest, "phaseActionRegister")
    && d.decision.gapMatrixPath == ArtifactPath(manifest, "phaseGapMatrix")
    && d.matrix.decisionPath == ArtifactPath(manifest, "phaseDecisionRecord")
    && d.matrix.actionRegisterPath == ArtifactPath(manifest, "phaseActionRegister")
    && d.intake.signoffMatrixPath == ArtifactPath(manifest, "phaseSignoffMatrix")
    && d.intake.gapMatrixPath == ArtifactPath(manifest, "phaseGapMatrix")
    && d.inventory.intakePath == ArtifactPath(manifest, "phaseEvidenceIntake")
    && d.register.inventoryPath == ArtifactPath(manifest, "phaseAttachmentInventory")
    && d.register.decisionPath == ArtifactPath(manifest, "phaseDecisionRecord")
  }

  predicate ReviewState(manifest: Option<Value>, pack: Option<Value>, d: Reviewed) {
    && At(manifest, ["environment"]) == At(pack, ["environment"])
    && At(manifest, ["target"]) == At(pack, ["target"])
    && At(manifest, ["ready"]) == Some(Bool(d.gate.state.ready))
    && At(manifest, ["validated"]) == Some(Bool(d.gate.state.validated))
    && At(manifest, ["decision"]) == Some(Str(d.decision.decision))
    && At(manifest, ["blockerCount"]) == StateValue(d.gate.state.blockerCount)
    && At(manifest, ["warningCount"]) == StateValue(d.gate.state.warningCount)
    && At(manifest, ["remainingPhaseCount"]) == StateValue(d.gate.state.remainingPhaseCount)
    && At(manifest, ["remainingItemCount"]) == StateValue(d.gate.state.remainingItemCount)
  }

  predicate ReviewValid(env: Env, w: World, manifestPath: string, requireApproved: bool) {
    var manifest := Read(w.fs, env.json, manifestPath);
    var pack := Read(w.fs, env.json, ArtifactPath(manifest, "phaseEvidenceManifest"));
    var documents := ReadReviewed(env, w.fs, manifest);
    && HasFormat(manifest, "sentinel-phase-review-bundle-manifest-v1")
    && IsTimestamp(env.host, TextAt(manifest, ["generatedAt"]))
    && AllStamped(env.host, w.fs, manifest, REVIEW_ARTIFACTS)
    && HasFormat(pack, "sentinel-phase-evidence-pack-manifest-v1")
    && documents.Some?
    && ReviewFormats(documents.value)
    && ReviewLinks(manifest, documents.value)
    && ReviewState(manifest, pack, documents.value)
    && documents.value.decision.keys.actionKeys == documents.value.matrix.summary.evidenceKeys
    && At(manifest, ["waiverSummary"]) == Some(SummaryValue(SummarizeForReview(documents.value.register.waivers,
       w.today)))
    && env.summariesAgree("review", w.fs)
    && (requireApproved ==> forall v | v in documents.value.register.waivers :: ReviewApproved(w.today, v))
  }

  /** A review manifest that is valid on one day is valid on a later day, all else equal, exactly when no
      waiver of the register it lists expires after the first day and up to the second. */
  lemma {:induction false} ReviewHoldsUntilExpiry(
      env: Env, w: World, manifestPath: string, requireApproved: bool, later: string)
    requires ReviewValid(env, w, manifestPath, requireApproved) && AtMost(w.today, later)
    ensures var manifest := Read(w.fs, env.json, manifestPath);
            var register := Read(w.fs, env.register, ArtifactPath(manifest, "phaseWaiverRegister"));
            && register.Some?
            && (ReviewValid(env, w.(today := later), manifestPath, requireApproved) <==>
                forall v | v in register.value.waivers && v.expiresAt.Some? ::
                  !(Less(w.today, v.expiresAt.value) && AtMost(v.expiresAt.value, later)))
  {
    hide At, AllStamped, REVIEW_ARTIFACTS, HasFormat, IsTimestamp, ReviewFormats, ReviewLinks, ReviewState, Less,
      SummarizeForReview,
      SummaryValue, ReviewApproved, ArtifactPath;
    var manifest := Read(w.fs, env.json, manifestPath);
    var register := Read(w.fs, env.register, ArtifactPath(manifest, "phaseWaiverRegister")).value;
    SummaryHoldsUntilExpiry(register.waivers, w.today, later);
    SummaryValueInjective(
      SummarizeForReview(register.waivers, w.today), SummarizeForReview(register.waivers, later));
    forall v | v in register.waivers
      ensures (v.expiresAt.Some? ==> !(Less(w.today, v.expiresAt.value) && AtMost(v.expiresAt.value, later))) ==>
                ReviewApproved(w.today, v) ==> ReviewApproved(later, v)
    {
      StaysApproved(w.today, later, v);
    }
  }

  lemma {:induction false} SummaryValueInjective(a: WaiverSummary, b: WaiverSummary)
    ensures SummaryValue(a) == SummaryValue(b) <==> a == b
  {
    if SummaryValue(a) == SummaryValue(b) {
      var m, n := SummaryValue(a).fields, SummaryValue(b).fields;
      assert m["waiverCount"] == n["waiverCount"] && m["proposedCount"] == n["proposedCount"];
      assert m["approvedCount"] == n["approvedCount"] && m["expiredCount"] == n["expiredCount"];
    }
  }

  lemma {:induction false} StaysApproved(today: string, later: string, v: Waiver)
    ensures (v.expiresAt.Some? ==> !(Less(today, v.expiresAt.value) && AtMost(v.expiresAt.value, later))) ==>
              ReviewApproved(today, v) ==> ReviewApproved(later, v)
  {
    hide Less, IsPlaceholder;
    assert v.expiresAt == None ==> !IsIsoDate(v.expiresAt.GetOr(""));
  }

  // ---------------------------------------------------------------- the closure archive

  predicate ClosureReviewFields(closure: Option<Value>, review: Option<Value>) {
    forall name | name in {
        "environment", "target", "ready", "validated", "decision", "blockerCount", "warningCount",
        "waiverSummary", "evidenceKeySummary", "commandCoverageSummary", "markdownCoverageSummary"} ::
      At(closure, ["review", name]) == At(review, [name])
  }

  /** The closure counts and names the artifacts of the review manifest. */
  predicate ClosureArtifacts(closure: Option<Value>, review: Option<Value>) {
    var artifacts, names := KeysOf(review, "artifacts"), At(closure, ["review", "artifactNames"]);
    && At(closure, ["review", "artifactCount"]) == StateValue(|artifacts|)
    && names.Some? && names.value.List? && |names.value.items| == |artifacts|
    && forall n | n in artifacts :: Str(n) in names.value.items
  }

  predicate ClosureValid(
    env: Env, w: World, closurePath: string, reviewPath: Option<string>, requireClean: bool, requireApproved: bool)
  {
    var closure := Read(w.fs, env.json, closurePath);
    var stamp := At(closure, ["review", "manifest"]);
    var selected := reviewPath.GetOr(TextAt(stamp, ["path"]));
    var review := Read(w.fs, env.json, selected);
    var register := Read(w.fs, env.register, ArtifactPath(review, "phaseWaiverRegister"));
    && HasFormat(closure, "sentinel-phase-closure-archive-manifest-v1")
    && IsTimestamp(env.host, TextAt(closure, ["generatedAt"]))
    && IsCommit(TextAt(closure, ["source", "commit"]))
    && TextAt(closure, ["source", "branch"]) != "" && TextAt(closure, ["source", "remote"]) != ""
    && At(closure, ["source", "cleanTree"]).Some? && At(closure, ["source", "cleanTree"]).value.Bool?
    && TextAt(stamp, ["path"]) == selected
    && Stamped(env.host, w.fs, stamp, selected)
    && HasFormat(review, "sentinel-phase-review-bundle-manifest-v1")
    && ClosureReviewFields(closure, review) && ClosureArtifacts(closure, review)
    && (requireApproved ==> register.Some? && forall v | v in register.value.waivers :: ReviewApproved(w.today, v))
    && TextAt(closure, ["source", "commit"]) == w.commit && TextAt(closure, ["source", "branch"]) == w.branch
    && TextAt(closure, ["source", "remote"]) == w.remote
    && (requireClean ==>
          At(closure, ["source", "cleanTree"]) == Some(Bool(true))
          && At(closure, ["source", "statusPorcelain"]) == Some(Str("")))
  }
}
