/** The production release gate, its saved report, and the release archive above them. */
module ReleaseGate {
  import opened Wrappers
  import opened Text
  import opened Json
  import opened Files
  import opened Attachments
  import opened Waivers
  import opened WaiverRegister
  import opened EvidenceChain
  import Signoffs

  datatype GateFile = GateFile(name: string, file: string)

  const BUNDLE := "deployment-evidence-bundle.json"
  const WORKSPACE_MANIFEST := "deployment-evidence-workspace-manifest.json"
  const STATUS_REPORT := "deployment-evidence-status.json"
  const REDACTION_REPORT := "deployment-redaction-report.json"
  const REQUESTS := "external-evidence-requests.json"
  const READINESS := "phase-readiness.json"
  const HANDOFF := "phase-handoff-checklist.md"
  const COMPLETION := "phase-completion-audit.json"
  const PACK := "phase-evidence-pack-manifest.json"
  const PHASE_GATE_REPORT := "phase-gate-validation.json"
  const ACTIONS := "phase-action-register.json"
  const GAPS := "phase-gap-matrix.json"
  const DECISION := "phase-decision-record.json"
  const SIGNOFF := "phase-signoff-matrix.json"
  const INTAKE_FILE := "phase-evidence-intake.json"
  const INVENTORY_FILE := "phase-attachment-inventory.json"
  const REGISTER_FILE := "phase-waiver-register.json"
  const REVIEW := "phase-review-bundle-manifest.json"
  const CLOSURE := "phase-closure-archive-manifest.json"

  const GATE_FILES: seq<GateFile> := [
    GateFile("bundle", BUNDLE), GateFile("workspaceManifest", WORKSPACE_MANIFEST),
    GateFile("deploymentStatus", STATUS_REPORT), GateFile("deploymentRedaction", REDACTION_REPORT),
    GateFile("externalRequests", REQUESTS), GateFile("phaseReadiness", READINESS), GateFile("phaseHandoff", HANDOFF),
    GateFile("phaseCompletion", COMPLETION), GateFile("phaseEvidence", PACK), GateFile("phaseGate", PHASE_GATE_REPORT),
    GateFile("phaseActions", ACTIONS), GateFile("phaseGaps", GAPS), GateFile("phaseDecision", DECISION),
    GateFile("phaseSignoffs", SIGNOFF), GateFile("phaseIntake", INTAKE_FILE), GateFile("phaseAttachments",
        INVENTORY_FILE),
    GateFile("phaseWaivers", REGISTER_FILE), GateFile("phaseReview", REVIEW), GateFile("phaseClosure", CLOSURE)]

  /** How the gate is called: the evidence directory, the target and --require-clean. */
  datatype Call = Call(dir: string, target: string, requireClean: bool)

  function PathOf(env: Env, dir: string, file: string): string {
    env.host.resolve(dir, file)
  }

  // ---------------------------------------------------------------- the phase gate report

  /** validate-phase-gate with its default paths: the paths of the evidence pack must be the defaults. */
  function RegeneratedGate(env: Env, w: World, dir: string): Option<Signoffs.PhaseGate> {
    var fs := w.fs;
    var pack := Read(fs, env.json, PathOf(env, dir, PACK));
    if && PathOf(env, dir, WORKSPACE_MANIFEST) in fs && PathOf(env, dir, BUNDLE) in fs
        && PathOf(env, dir, REQUESTS) in fs
       && PathOf(env, dir, COMPLETION) in fs && PathOf(env, dir, READINESS) in fs && PathOf(env, dir, HANDOFF) in fs
       && HasFormat(pack, "sentinel-phase-evidence-pack-manifest-v1")
       && ArtifactPath(pack, "phaseReadiness") == PathOf(env, dir, READINESS)
       && ArtifactPath(pack, "phaseCompletionAudit") == PathOf(env, dir, COMPLETION)
       && ArtifactPath(pack, "externalRequests") == PathOf(env, dir, REQUESTS)
       && ArtifactPath(pack, "phaseHandoffChecklist") == PathOf(env, dir, HANDOFF)
       && ArtifactPath(pack, "deploymentWorkspaceManifest") == PathOf(env, dir, WORKSPACE_MANIFEST)
    then Some(Signoffs.PhaseGate(Signoffs.GATE_FORMAT, None, PathOf(env, dir, PACK), env.gateState(w)))
    else None
  }

  /** validate-phase-gate-report --require-ready: the saved report equals a regenerated one. */
  predicate PhaseGateReportValid(env: Env, w: World, dir: string) {
    var current := Read(w.fs, env.gate, PathOf(env, dir, PHASE_GATE_REPORT));
    current.Some? && RegeneratedGate(env, w, dir) == current && current.value.state.ready
  }

  // ---------------------------------------------------------------- the checks

  const CHECK_NAMES: seq<string> := [
    "deploymentWorkspace", "deploymentEvidence", "deploymentStatus", "deploymentRedaction", "externalEvidence",
    "phaseReadiness", "phaseCompletion", "phaseHandoff", "phaseEvidence", "phaseGate", "phaseActions", "phaseGaps",
    "phaseDecision", "phaseSignoffs", "phaseIntake", "phaseAttachments", "phaseWaivers", "phaseReview", "phaseClosure"]

  predicate DecisionCheck(env: Env, fs: FileSystem, dir: string) {
    var record := Read(fs, env.decision, PathOf(env, dir, DECISION));
    var gate := Read(fs, env.gate, PathOf(env, dir, PHASE_GATE_REPORT));
    var actions := Read(fs, env.actions, PathOf(env, dir, ACTIONS));
    var gaps := Read(fs, env.gaps, PathOf(env, dir, GAPS));
    && record.Some? && gate.Some? && actions.Some? && gaps.Some?
    && Signoffs.DecisionValid(
         env.host, record.value, PathOf(env, dir, PHASE_GATE_REPORT), PathOf(env, dir, ACTIONS), PathOf(env, dir, GAPS),
         gate.value, actions.value, gaps.value)
  }

  predicate SignoffCheck(env: Env, fs: FileSystem, dir: string) {
    var matrix := Read(fs, env.matrix, PathOf(env, dir, SIGNOFF));
    var record := Read(fs, env.decision, PathOf(env, dir, DECISION));
    var actions := Read(fs, env.actions, PathOf(env, dir, ACTIONS));
    && matrix.Some? && record.Some? && actions.Some?
    && Signoffs.MatrixValid(
         env.host, matrix.value, PathOf(env, dir, DECISION), PathOf(env, dir, ACTIONS), record.value, actions.value)
  }

  predicate AttachmentCheck(env: Env, fs: FileSystem, dir: string) {
    var inventory := Read(fs, env.inventory, PathOf(env, dir, INVENTORY_FILE));
    var intake := Read(fs, env.intake, PathOf(env, dir, INTAKE_FILE));
    && inventory.Some? && intake.Some?
    && InventoryValid(env.host, fs, inventory.value, intake.value, PathOf(env, dir, INTAKE_FILE), false, true)
  }

  predicate WaiverCheck(env: Env, w: World, dir: string) {
    var register := Read(w.fs, env.register, PathOf(env, dir, REGISTER_FILE));
    var inventory := Read(w.fs, env.inventory, PathOf(env, dir, INVENTORY_FILE));
    var decision := Read(w.fs, env.decision, PathOf(env, dir, DECISION));
    && register.Some? && inventory.Some? && decision.Some?
    && RegisterValid(
         env.host, w.now, register.value, inventory.value, PathOf(env, dir, INVENTORY_FILE),
         decision.value, PathOf(env, dir, DECISION), true)
  }

  predicate CheckOk(env: Env, w: World, c: Call, name: string) {
    if name == "deploymentWorkspace" then
      WorkspaceValid(env, w.fs, PathOf(env, c.dir, WORKSPACE_MANIFEST), PathOf(env, c.dir, BUNDLE))
    else if name == "phaseEvidence" then EvidencePackValid(env, w.fs, PathOf(env, c.dir, PACK))
    else if name == "phaseGate" then PhaseGateReportValid(env, w, c.dir)
    else if name == "phaseDecision" then DecisionCheck(env, w.fs, c.dir)
    else if name == "phaseSignoffs" then SignoffCheck(env, w.fs, c.dir)
    else if name == "phaseAttachments" then AttachmentCheck(env, w.fs, c.dir)
    else if name == "phaseWaivers" then WaiverCheck(env, w, c.dir)
    else if name == "phaseReview" then ReviewValid(env, w, PathOf(env, c.dir, REVIEW), true)
    else if name == "phaseClosure" then
      ClosureValid(env, w, PathOf(env, c.dir, CLOSURE), Some(PathOf(env, c.dir, REVIEW)), c.requireClean, true)
    else env.succeeds(name, c.target, w)
  }

  // ---------------------------------------------------------------- blockers

  datatype Verdict = Verdict(blockers: seq<string>, warnings: seq<string>)

  function MissingBlockers(env: Env, fs: FileSystem, dir: string, files: seq<GateFile>): seq<string> {
    if files == [] then []
    else
      var last := files[|files| - 1];
      MissingBlockers(env, fs, dir, files[..|files| - 1])
      + if PathOf(env, dir, last.file) in fs then [] else ["artifact." + last.name]
  }

  function FailedBlockers(env: Env, w: World, c: Call, names: seq<string>): seq<string> {
    hide CheckOk;
    if names == [] then []
    else
      var last := names[|names| - 1];
      FailedBlockers(env, w, c, names[..|names| - 1]) + if CheckOk(env, w, c, last) then [] else [last]
  }

  function When(condition: bool, gate: string): seq<string> {
    if condition then [gate] else []
  }

  /** A document the gate goes on to read; a falsy one counts as absent. */
  function Document(env: Env, fs: FileSystem, path: string): Option<Value> {
    var document := Read(fs, env.json, path);
    if Truthy(document) then document else None
  }

  /** A document that is read only if its file is there, and that must then be JSON. */
  predicate Unreadable(env: Env, fs: FileSystem, path: string) {
    path in fs && env.json(fs[path]) == None
  }

  /** What stops the gate itself: an unreadable document, a wrong format, or summaries that differ. */
  predicate GateStops(env: Env, w: World, c: Call) {
    var review := Document(env, w.fs, PathOf(env, c.dir, REVIEW));
    var closure := Document(env, w.fs, PathOf(env, c.dir, CLOSURE));
    || c.target !in {"pilot", "production"}
    || Unreadable(env, w.fs, PathOf(env, c.dir, BUNDLE)) || Unreadable(env, w.fs, PathOf(env, c.dir, STATUS_REPORT))
    || Unreadable(env, w.fs, PathOf(env, c.dir, REVIEW)) || Unreadable(env, w.fs, PathOf(env, c.dir, CLOSURE))
    || (review.Some? && !HasFormat(review, "sentinel-phase-review-bundle-manifest-v1"))
    || (closure.Some? && !HasFormat(closure, "sentinel-phase-closure-archive-manifest-v1"))
    || (closure.Some? && Truthy(At(review, ["evidenceKeySummary"]))
        && At(closure, ["review", "evidenceKeySummary"]) != At(review, ["evidenceKeySummary"]))
    || (closure.Some? && Truthy(At(review, ["commandCoverageSummary"]))
        && At(closure, ["review", "commandCoverageSummary"]) != At(review, ["commandCoverageSummary"]))
  }

  predicate ReviewNotReady(review: Option<Value>) {
    || !Truthy(At(review, ["ready"])) || At(review, ["blockerCount"]) != StateValue(0)
    || At(review, ["remainingPhaseCount"]) != StateValue(0) || At(review, ["remainingItemCount"]) != StateValue(0)
  }

  function LateBlockers(env: Env, w: World, c: Call): seq<string> {
    var bundle := Document(env, w.fs, PathOf(env, c.dir, BUNDLE));
    var review := Document(env, w.fs, PathOf(env, c.dir, REVIEW));
    var closure := Document(env, w.fs, PathOf(env, c.dir, CLOSURE));
    When(bundle.Some? && At(bundle, ["status"]) != Some(Str(c.target)), "deployment-target")
    + When(CheckOk(env, w, c, "phaseReadiness") && env.raises("phase-readiness", c.target, w), "phase-readiness")
    + When(env.raises("deployment-status-production-requirements", c.target, w),
        "deployment-status-production-requirements")
    + When(CheckOk(env, w, c, "deploymentRedaction")
        && env.raises("deployment-redaction", c.target, w), "deployment-redaction")
    + When(review.Some? && ReviewNotReady(review), "phase-review")
    + When(review.Some? && At(review, ["decision"]) != Some(Str(Signoffs.APPROVE)), "phase-decision")
    + When(closure.Some? && At(closure, ["review", "target"]) != Some(Str(c.target)), "closure-target")
    + When(closure.Some? && c.requireClean && !Truthy(At(closure, ["source", "cleanTree"])), "source-provenance")
  }

  function Warnings(env: Env, w: World, c: Call): seq<string> {
    var closure := Document(env, w.fs, PathOf(env, c.dir, CLOSURE));
    When(closure.Some? && !c.requireClean && !Truthy(At(closure, ["source", "cleanTree"])), "source-provenance")
  }

  function Judge(env: Env, w: World, c: Call): Result<Verdict> {
    if GateStops(env, w, c) then Failure("release gate stopped")
    else Success(Verdict(
      MissingBlockers(env, w.fs, c.dir, GATE_FILES) + FailedBlockers(env, w, c, CHECK_NAMES) + LateBlockers(env, w, c),
      Warnings(env, w, c)))
  }

  /** The gate as it runs: it pushes blockers in loops and branches. */
  method RunGate(env: Env, w: World, c: Call) returns (verdict: Result<Verdict>)
    ensures verdict == Judge(env, w, c)
  {
    hide GATE_FILES, CHECK_NAMES, CheckOk, GateStops, LateBlockers, Warnings, PathOf;
    if GateStops(env, w, c) {
      return Failure("release gate stopped");
    }
    var blockers: seq<string> := [];
    assert GATE_FILES[..0] == [];
    for i := 0 to |GATE_FILES|
      invariant blockers == MissingBlockers(env, w.fs, c.dir, GATE_FILES[..i])
    {
      var next := GATE_FILES[..i + 1];
      assert next[..|next| - 1] == GATE_FILES[..i];
      if PathOf(env, c.dir, GATE_FILES[i].file) !in w.fs {
        blockers := blockers + ["artifact." + GATE_FILES[i].name];
      }
    }
    assert GATE_FILES[..|GATE_FILES|] == GATE_FILES;
    ghost var missing := blockers;
    assert CHECK_NAMES[..0] == [];
    for i := 0 to |CHECK_NAMES|
      invariant blockers == missing + FailedBlockers(env, w, c, CHECK_NAMES[..i])
    {
      var next := CHECK_NAMES[..i + 1];
      assert next[..|next| - 1] == CHECK_NAMES[..i];
      if !CheckOk(env, w, c, CHECK_NAMES[i]) {
        blockers := blockers + [CHECK_NAMES[i]];
      }
    }
    assert CHECK_NAMES[..|CHECK_NAMES|] == CHECK_NAMES;
    blockers := blockers + LateBlockers(env, w, c);
    return Success(Verdict(blockers, Warnings(env, w, c)));
  }

  predicate Ready(env: Env, w: World, c: Call) {
    hide Judge;
    var v := Judge(env, w, c);
    v.Success? && v.value.blockers == []
  }

  /** A ready gate means that every file is there and every check succeeded. */
  lemma {:induction false} ReadyMeansAllChecks(env: Env, w: World, c: Call)
    requires Ready(env, w, c)
    ensures forall f | f in GATE_FILES :: PathOf(env, c.dir, f.file) in w.fs
    ensures forall n | n in CHECK_NAMES :: CheckOk(env, w, c, n)
    ensures LateBlockers(env, w, c) == [] && !GateStops(env, w, c)
  {
    hide GATE_FILES, CHECK_NAMES, CheckOk, GateStops, LateBlockers, Warnings, PathOf;
    NoneMissing(env, w.fs, c.dir, GATE_FILES);
    NoneFailed(env, w, c, CHECK_NAMES);
    var a, b, d := MissingBlockers(env, w.fs, c.dir, GATE_FILES), FailedBlockers(env, w, c, CHECK_NAMES),
        LateBlockers(env, w, c);
    assert |a + b + d| == |a| + |b| + |d|;
  }

  lemma {:induction false} NoneMissing(env: Env, fs: FileSystem, dir: string, files: seq<GateFile>)
    ensures MissingBlockers(env, fs, dir, files) == [] <==> forall f | f in files :: PathOf(env, dir, f.file) in fs
  {
    hide PathOf;
    if files != [] {
      var init, last := files[..|files| - 1], files[|files| - 1];
      NoneMissing(env, fs, dir, init);
      assert files == init + [last];
    }
  }

  lemma {:induction false} NoneFailed(env: Env, w: World, c: Call, names: seq<string>)
    ensures FailedBlockers(env, w, c, names) == [] <==> forall n | n in names :: CheckOk(env, w, c, n)
  {
    hide CheckOk;
    if names != [] {
      var init, last := names[..|names| - 1], names[|names| - 1];
      NoneFailed(env, w, c, init);
      assert names == init + [last];
    }
  }

  /** The checks the results below build on. */
  lemma {:induction false} ReadyChecks(env: Env, w: World, c: Call)
    requires Ready(env, w, c)
    ensures WorkspaceValid(env, w.fs, PathOf(env, c.dir, WORKSPACE_MANIFEST), PathOf(env, c.dir, BUNDLE))
    ensures EvidencePackValid(env, w.fs, PathOf(env, c.dir, PACK))
    ensures PhaseGateReportValid(env, w, c.dir)
    ensures DecisionCheck(env, w.fs, c.dir) && SignoffCheck(env, w.fs, c.dir)
    ensures AttachmentCheck(env, w.fs, c.dir) && WaiverCheck(env, w, c.dir)
    ensures ReviewValid(env, w, PathOf(env, c.dir, REVIEW), true)
    ensures ClosureValid(env, w, PathOf(env, c.dir, CLOSURE), Some(PathOf(env, c.dir, REVIEW)), c.requireClean, true)
  {
    hide Ready, WorkspaceValid, EvidencePackValid, PhaseGateReportValid, DecisionCheck, SignoffCheck, AttachmentCheck,
      WaiverCheck, ReviewValid, ClosureValid, PathOf, GATE_FILES, LateBlockers, GateStops;
    ModelledChecks();
    hide CHECK_NAMES;
    ReadyMeansAllChecks(env, w, c);
  }

  lemma {:induction false} ModelledChecks()
    ensures "deploymentWorkspace" in CHECK_NAMES && "phaseEvidence" in CHECK_NAMES && "phaseGate" in CHECK_NAMES
    ensures "phaseDecision" in CHECK_NAMES && "phaseSignoffs" in CHECK_NAMES && "phaseAttachments" in CHECK_NAMES
    ensures "phaseWaivers" in CHECK_NAMES && "phaseReview" in CHECK_NAMES && "phaseClosure" in CHECK_NAMES
  {
    var c := CHECK_NAMES;
    assert c[0] == "deploymentWorkspace" && c[8] == "phaseEvidence" && c[9] == "phaseGate" && c[12] == "phaseDecision";
    assert c[13] == "phaseSignoffs" && c[15] == "phaseAttachments" && c[16] == "phaseWaivers";
    assert c[17] == "phaseReview" && c[18] == "phaseClosure" && |c| == 19;
    hide CHECK_NAMES;
  }

  // ---------------------------------------------------------------- the saved report and the archive

  const GATE_REPORT_FORMAT := "sentinel-production-release-gate-v1"

  function ReportValue(env: Env, w: World, c: Call, v: Verdict, generatedAt: string): Value {
    Object(env.reportDetails(w, v.blockers) + map[
      "format" := Str(GATE_REPORT_FORMAT), "generatedAt" := Str(generatedAt), "target" := Str(c.target),
      "requireClean" := Bool(c.requireClean), "evidenceDir" := Str(c.dir), "ready" := Bool(v.blockers == []),
      "blockerCount" := Number(|v.blockers| as real), "warningCount" := Number(|v.warnings| as real)])
  }

  /** { ...report, generatedAt: "<validated-at-runtime>" } */
  function WithoutTime(report: Value): Value {
    Object(Spread(report)["generatedAt" := Str("<validated-at-runtime>")])
  }

  /** validate-production-release-gate-report: regenerate, set the time aside, compare. */
  predicate GateReportValid(env: Env, w: World, c: Call, reportPath: string, requireReady: bool) {
    hide Judge;
    var current := Read(w.fs, env.json, reportPath);
    var verdict := Judge(env, w, c);
    && c.target in {"pilot", "production"}
    && HasFormat(current, GATE_REPORT_FORMAT)
    && env.host.resolve("", TextAt(current, ["evidenceDir"])) == c.dir
    && At(current, ["target"]) == Some(Str(c.target))
    && At(current, ["requireClean"]) == Some(Bool(c.requireClean))
    && verdict.Success?
    && WithoutTime(current.value) == WithoutTime(ReportValue(env, w, c, verdict.value, ""))
    && (requireReady ==> At(current, ["ready"]) == Some(Bool(true)))
  }

  /** A fresh report that says ready is a ready gate. */
  lemma {:induction false} ReadyReportMeansReadyGate(env: Env, w: World, c: Call, reportPath: string)
    requires GateReportValid(env, w, c, reportPath, true)
    ensures Ready(env, w, c)
  {
    hide Judge, PathOf;
    var current := Read(w.fs, env.json, reportPath).value;
    var report := ReportValue(env, w, c, Judge(env, w, c).value, "");
    assert At(Some(current), ["ready"]) == At(Get(current, "ready"), []);
    assert Get(WithoutTime(current), "ready") == Get(current, "ready");
    assert Get(WithoutTime(report), "ready") == Get(report, "ready");
  }

  function ArchiveCall(env: Env, archive: Option<Value>): Call {
    Call(env.host.resolve("", TextAt(archive, ["evidenceDir"])), TextAt(archive, ["target"]),
         At(archive, ["requireClean"]) == Some(Bool(true)))
  }

  function ClosureStamp(archive: Option<Value>): Option<Value> {
    At(archive, ["closure", "manifest"])
  }

  function ReportStamp(archive: Option<Value>): Option<Value> {
    At(archive, ["releaseGate", "report"])
  }

  /** What the archive repeats of the closure archive and of the gate report. */
  predicate ArchiveAgrees(archive: Option<Value>, closure: Option<Value>, report: Option<Value>) {
    && HasFormat(closure, "sentinel-phase-closure-archive-manifest-v1") && HasFormat(report, GATE_REPORT_FORMAT)
    && At(closure, ["review", "target"]) == At(archive, ["target"]) && At(report, ["target"]) == At(archive, ["target"])
    && At(report, ["requireClean"]) == At(archive, ["requireClean"])
    && At(archive, ["ready"]) == At(report, ["ready"]) && At(archive, ["blockerCount"]) == At(report, ["blockerCount"])
    && At(archive, ["warningCount"]) == At(report, ["warningCount"])
    && At(archive, ["source"]) == At(closure, ["source"])
    && (forall name | name in {"decision", "ready", "validated", "waiverSummary", "evidenceKeySummary",
                               "commandCoverageSummary", "markdownCoverageSummary"} ::
          At(archive, ["closure", name]) == At(closure, ["review", name]))
    && (forall name | name in {"ready", "blockerCount", "warningCount", "commandCoverageSummary"} ::
          At(archive, ["releaseGate", name]) == At(report, [name]))
    && At(archive, ["closure", "commandCoverageSummary"]) == At(archive, ["releaseGate", "commandCoverageSummary"])
  }

  /** validate-production-release-archive without path overrides. */
  predicate ArchiveValid(env: Env, w: World, archivePath: string, requireReady: bool, requireApproved: bool) {
    hide ClosureValid, GateReportValid, ArchiveAgrees;
    var archive := Read(w.fs, env.json, archivePath);
    var c := ArchiveCall(env, archive);
    var closurePath, reportPath := TextAt(ClosureStamp(archive), ["path"]), TextAt(ReportStamp(archive), ["path"]);
    var closure, report := Read(w.fs, env.json, closurePath), Read(w.fs, env.json, reportPath);
    && HasFormat(archive, "sentinel-production-release-archive-manifest-v1")
    && IsTimestamp(env.host, TextAt(archive, ["generatedAt"]))
    && TextAt(archive, ["evidenceDir"]) != "" && c.target != ""
    && At(archive, ["ready"]).Some? && At(archive, ["ready"]).value.Bool?
    && At(archive, ["requireClean"]).Some? && At(archive, ["requireClean"]).value.Bool?
    && Recorded(env.host, w.fs, ClosureStamp(archive), closurePath)
    && Recorded(env.host, w.fs, ReportStamp(archive), reportPath)
    && env.host.resolve("", TextAt(closure, ["evidenceDir"])) == c.dir
    && env.host.resolve("", TextAt(report, ["evidenceDir"])) == c.dir
    && ArchiveAgrees(archive, closure, report)
    && ClosureValid(env, w, closurePath, None, c.requireClean, requireApproved)
    && GateReportValid(env, w, c, reportPath, requireReady)
    && (requireReady ==> At(archive, ["ready"]) == Some(Bool(true)))
  }

  /** The archive compares length and hash but not the shape of the digest. */
  predicate Recorded(host: Host, fs: FileSystem, stamp: Option<Value>, path: string) {
    && path != "" && path in fs
    && At(stamp, ["bytes"]) == Some(Number(|fs[path]| as real))
    && At(stamp, ["sha256"]) == Some(Str(host.sha256(fs[path])))
  }
}
