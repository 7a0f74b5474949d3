/** One release archive, valid in two file systems, pins every file of the evidence chain. */
module TamperEvidence {
  import opened Wrappers
  import opened Json
  import opened Files
  import opened Attachments
  import opened WaiverRegister
  import opened EvidenceChain
  import opened ReleaseGate
  import Signoffs

  /** The path of the closure manifest that an archive records. */
  function ClosurePath(archive: Option<Value>): string {
    TextAt(ClosureStamp(archive), ["path"])
  }

  /** The path of the review manifest that a closure archive records. */
  function ReviewPath(closure: Option<Value>): string {
    TextAt(At(closure, ["review", "manifest"]), ["path"])
  }

  predicate SameArtifacts(a: FileSystem, b: FileSystem, manifest: Option<Value>, names: seq<string>) {
    forall n | n in names :: SameFile(a, b, ArtifactPath(manifest, n))
  }

  /** Everything a workspace manifest records. */
  predicate SameWorkspace(env: Env, a: FileSystem, b: FileSystem, manifest: Option<Value>) {
    && SameFile(a, b, WorkspacePath(env, manifest, At(manifest, ["bundle"])))
    && SameFile(a, b, WorkspacePath(env, manifest, At(manifest, ["readme"])))
    && forall name | name in EvidenceNames(manifest) ::
         SameFile(a, b, WorkspacePath(env, manifest, At(manifest, ["evidence", name])))
  }

  /** Present in both with the same content, or absent from both. */
  predicate Agree(a: FileSystem, b: FileSystem, path: string) {
    (path in a <==> path in b) && (path in a && path in b ==> a[path] == b[path])
  }

  predicate SameAttachments(env: Env, a: FileSystem, b: FileSystem, inventory: Inventory, intake: Intake) {
    forall i, j | 0 <= i < |intake.items| && 0 <= j < |intake.items[i].expectedFiles| ::
      Agree(a, b, env.host.resolve(inventory.evidenceDir, intake.items[i].expectedFiles[j].targetPath))
  }

  // ---------------------------------------------------------------- one level at a time

  lemma {:induction false} StampedPins(host: Host, a: FileSystem, b: FileSystem, manifest: Option<Value>,
        names: seq<string>)
    requires NoCollision(host, a, b) && AllStamped(host, a, manifest, names) && AllStamped(host, b, manifest, names)
    ensures SameArtifacts(a, b, manifest, names)
  {
    hide Stamped, Artifact, ArtifactPath, NoCollision, SameFile;
    forall n | n in names
      ensures SameFile(a, b, ArtifactPath(manifest, n))
    {
      StampPins(host, a, b, Artifact(manifest, n), ArtifactPath(manifest, n));
    }
  }

  lemma {:induction false} WorkspacePins(
      env: Env, a: FileSystem, b: FileSystem, manifestPath: string, bundlePath: string)
    requires NoCollision(env.host, a, b) && SameFile(a, b, manifestPath)
    requires WorkspaceValid(env, a, manifestPath, bundlePath) && WorkspaceValid(env, b, manifestPath, bundlePath)
    ensures SameWorkspace(env, a, b, Read(a, env.json, manifestPath))
  {
    hide Stamped, NoCollision, WorkspacePath, At, EvidenceNames, KeysOf, HasFormat, IsTimestamp, TextAt;
    var manifest := Read(a, env.json, manifestPath);
    assert Read(b, env.json, manifestPath) == manifest;
    StampPins(env.host, a, b, At(manifest, ["bundle"]), WorkspacePath(env, manifest, At(manifest, ["bundle"])));
    StampPins(env.host, a, b, At(manifest, ["readme"]), WorkspacePath(env, manifest, At(manifest, ["readme"])));
    forall name | name in EvidenceNames(manifest)
      ensures SameFile(a, b, WorkspacePath(env, manifest, At(manifest, ["evidence", name])))
    {
      assert WorkspaceStamped(env, a, manifest, ["evidence", name])
             && WorkspaceStamped(env, b, manifest, ["evidence", name]);
      StampPins(env.host, a, b, At(manifest, ["evidence", name]), WorkspacePath(env, manifest, At(manifest,
          ["evidence", name])));
    }
  }

  lemma {:induction false} PackPins(env: Env, a: FileSystem, b: FileSystem, manifestPath: string)
    requires NoCollision(env.host, a, b) && SameFile(a, b, manifestPath)
    requires EvidencePackValid(env, a, manifestPath) && EvidencePackValid(env, b, manifestPath)
    ensures SameArtifacts(a, b, Read(a, env.json, manifestPath), PACK_ARTIFACTS)
    ensures SameArtifacts(a, b, Read(a, env.json, manifestPath), [
      "deploymentWorkspaceManifest", "deploymentBundle", "deploymentStatus", "deploymentRedaction",
      "deploymentRedactionMarkdown", "externalRequests", "externalRequestsMarkdown", "phaseCompletionAudit",
      "phaseCompletionAuditMarkdown", "phaseReadiness", "phaseReadinessMarkdown", "phaseHandoffChecklist"])
  {
    hide AllStamped, NoCollision, PACK_ARTIFACTS, At, ArtifactPath, HasFormat, IsTimestamp, TextAt, SameArtifacts;
    StampedPins(env.host, a, b, Read(a, env.json, manifestPath), PACK_ARTIFACTS);
    ArtifactTables();
  }

  lemma {:induction false} ReviewPins(env: Env, a: World, b: World, manifestPath: string)
    requires NoCollision(env.host, a.fs, b.fs) && SameFile(a.fs, b.fs, manifestPath)
    requires ReviewValid(env, a, manifestPath, true) && ReviewValid(env, b, manifestPath, true)
    ensures SameArtifacts(a.fs, b.fs, Read(a.fs, env.json, manifestPath), REVIEW_ARTIFACTS)
    ensures SameArtifacts(a.fs, b.fs, Read(a.fs, env.json, manifestPath), [
      "phaseEvidenceManifest", "phaseGateValidation", "phaseGateValidationMarkdown", "phaseActionRegister",
      "phaseActionRegisterMarkdown", "phaseGapMatrix", "phaseGapMatrixMarkdown", "phaseDecisionRecord",
      "phaseDecisionRecordMarkdown", "phaseSignoffMatrix", "phaseSignoffMatrixMarkdown", "phaseEvidenceIntake",
      "phaseEvidenceIntakeMarkdown", "phaseAttachmentInventory", "phaseAttachmentInventoryMarkdown",
      "phaseWaiverRegister", "phaseWaiverRegisterMarkdown"])
  {
    hide AllStamped, NoCollision, REVIEW_ARTIFACTS, At, ArtifactPath, HasFormat, IsTimestamp, TextAt, ReadReviewed,
      ReviewFormats, ReviewLinks, ReviewState, SummaryValue, SameArtifacts;
    StampedPins(env.host, a.fs, b.fs, Read(a.fs, env.json, manifestPath), REVIEW_ARTIFACTS);
    ArtifactTables();
  }

  /** The names of the artifacts that a pack and a review must list. */
  lemma {:induction false} ArtifactTables()
    ensures PACK_ARTIFACTS == [
      "deploymentWorkspaceManifest", "deploymentBundle", "deploymentStatus", "deploymentRedaction",
      "deploymentRedactionMarkdown", "externalRequests", "externalRequestsMarkdown", "phaseCompletionAudit",
      "phaseCompletionAuditMarkdown", "phaseReadiness", "phaseReadinessMarkdown", "phaseHandoffChecklist"]
    ensures REVIEW_ARTIFACTS == [
      "phaseEvidenceManifest", "phaseGateValidation", "phaseGateValidationMarkdown", "phaseActionRegister",
      "phaseActionRegisterMarkdown", "phaseGapMatrix", "phaseGapMatrixMarkdown", "phaseDecisionRecord",
      "phaseDecisionRecordMarkdown", "phaseSignoffMatrix", "phaseSignoffMatrixMarkdown", "phaseEvidenceIntake",
      "phaseEvidenceIntakeMarkdown", "phaseAttachmentInventory", "phaseAttachmentInventoryMarkdown",
      "phaseWaiverRegister", "phaseWaiverRegisterMarkdown"]
  {
  }

  lemma {:induction false} ClosurePins(
      env: Env, a: World, b: World, closurePath: string, selected: Option<string>, clean: bool, approvedA: bool,
          approvedB: bool)
    requires NoCollision(env.host, a.fs, b.fs) && SameFile(a.fs, b.fs, closurePath)
    requires ClosureValid(env, a, closurePath, selected, clean, approvedA)
    requires ClosureValid(env, b, closurePath, selected, clean, approvedB)
    ensures var reviewPath := ReviewPath(Read(a.fs, env.json, closurePath));
            SameFile(a.fs, b.fs, reviewPath) && (selected.Some? ==> reviewPath == selected.value)
  {
    hide Stamped, NoCollision, At, ArtifactPath, HasFormat, IsTimestamp, TextAt, ClosureReviewFields,
      ClosureArtifacts, IsCommit;
    var stamp := At(Read(a.fs, env.json, closurePath), ["review", "manifest"]);
    StampPins(env.host, a.fs, b.fs, stamp, TextAt(stamp, ["path"]));
  }

  lemma {:induction false} RecordPins(host: Host, a: FileSystem, b: FileSystem, stamp: Option<Value>, path: string)
    requires NoCollision(host, a, b) && Recorded(host, a, stamp, path) && Recorded(host, b, stamp, path)
    ensures SameFile(a, b, path)
  {
    hide At;
    assert Number(|a[path]| as real) == Number(|b[path]| as real);
    assert Str(host.sha256(a[path])) == Str(host.sha256(b[path]));
  }

  lemma {:induction false} AttachmentsPin(
      env: Env, a: FileSystem, b: FileSystem, inventory: Inventory, intake: Intake, intakePath: string)
    requires NoCollision(env.host, a, b)
    requires InventoryValid(env.host, a, inventory, intake, intakePath, false, true)
    requires InventoryValid(env.host, b, inventory, intake, intakePath, false, true)
    ensures SameAttachments(env, a, b, inventory, intake)
  {
    hide Tally, Total, IsTimestamp, INVENTORY_FORMAT, INTAKE_FORMAT, NoCollision;
    forall i, j | 0 <= i < |intake.items| && 0 <= j < |intake.items[i].expectedFiles|
      ensures Agree(a, b, env.host.resolve(inventory.evidenceDir, intake.items[i].expectedFiles[j].targetPath))
    {
      assert AttachmentValid(env.host, a, inventory.evidenceDir, inventory.attachments[i], intake.items[i]);
      assert AttachmentValid(env.host, b, inventory.evidenceDir, inventory.attachments[i], intake.items[i]);
      FilePins(env, a, b, inventory.evidenceDir, inventory.attachments[i].files[j], intake.items[i].expectedFiles[j]);
    }
  }

  lemma {:induction false} FilePins(
      env: Env, a: FileSystem, b: FileSystem, dir: string, file: AttachedFile, expected: ExpectedFile)
    requires NoCollision(env.host, a, b)
    requires FileValid(env.host, a, dir, file, expected) && FileValid(env.host, b, dir, file, expected)
    ensures Agree(a, b, env.host.resolve(dir, expected.targetPath))
  {
    hide NoCollision;
    if file.resolvedPath in a && file.resolvedPath in b {
      MatchPins(env.host, a, b, file.resolvedPath, file.bytes, file.sha256.value);
    }
  }

  // ---------------------------------------------------------------- the links between the levels

  /** Where the phase gate report is the default one, the evidence pack under review is the default
      one too, and it lists the default workspace manifest. */
  lemma {:induction false} PackIsDefault(env: Env, w: World, dir: string, review: Option<Value>)
    requires review == Read(w.fs, env.json, PathOf(env, dir, REVIEW))
    requires ReviewValid(env, w, PathOf(env, dir, REVIEW), true) && PhaseGateReportValid(env, w, dir)
    requires ArtifactPath(review, "phaseGateValidation") == PathOf(env, dir, PHASE_GATE_REPORT)
    ensures ArtifactPath(review, "phaseEvidenceManifest") == PathOf(env, dir, PACK)
    ensures var pack := Read(w.fs, env.json, PathOf(env, dir, PACK));
            ArtifactPath(pack, "deploymentWorkspaceManifest") == PathOf(env, dir, WORKSPACE_MANIFEST)
  {
    hide AllStamped, At, ArtifactPath, HasFormat, IsTimestamp, TextAt, ReviewFormats, ReviewState, SummaryValue,
      PathOf, ReviewApproved, SummarizeForReview;
  }

  /** The inventory under review names the gate's intake file. */
  lemma {:induction false} InventoryIsDefault(env: Env, w: World, dir: string, review: Option<Value>)
    requires review == Read(w.fs, env.json, PathOf(env, dir, REVIEW))
    requires ReviewValid(env, w, PathOf(env, dir, REVIEW), true) && AttachmentCheck(env, w.fs, dir)
    requires ArtifactPath(review, "phaseAttachmentInventory") == PathOf(env, dir, INVENTORY_FILE)
    ensures ArtifactPath(review, "phaseEvidenceIntake") == PathOf(env, dir, INTAKE_FILE)
  {
    hide AllStamped, At, ArtifactPath, HasFormat, IsTimestamp, TextAt, ReviewFormats, ReviewState, SummaryValue,
      PathOf, ReviewApproved, SummarizeForReview, AttachmentValid, Total;
  }

  lemma {:induction false} ArtifactNames()
    ensures "phaseEvidenceManifest" in REVIEW_ARTIFACTS && "phaseEvidenceIntake" in REVIEW_ARTIFACTS
    ensures "phaseAttachmentInventory" in REVIEW_ARTIFACTS && "deploymentWorkspaceManifest" in PACK_ARTIFACTS
  {
    assert REVIEW_ARTIFACTS[0] == "phaseEvidenceManifest" && REVIEW_ARTIFACTS[11] == "phaseEvidenceIntake";
    assert REVIEW_ARTIFACTS[13] == "phaseAttachmentInventory" && PACK_ARTIFACTS[0] == "deploymentWorkspaceManifest";
  }

  /** What the gate's default review manifest pins: its 17 artifacts; the evidence pack and the workspace,
      when it lists the gate's own phase gate report; the intake's files, when it lists the gate's own
      inventory. */
  predicate SameReviewed(env: Env, a: FileSystem, b: FileSystem, dir: string) {
    var review := Read(a, env.json, PathOf(env, dir, REVIEW));
    && SameArtifacts(a, b, review, REVIEW_ARTIFACTS)
    && (ArtifactPath(review, "phaseGateValidation") == PathOf(env, dir, PHASE_GATE_REPORT) ==> SamePack(env, a, b, dir))
    && (ArtifactPath(review, "phaseAttachmentInventory") == PathOf(env, dir, INVENTORY_FILE) ==> SameIntake(env, a,
       b, dir))
  }

  predicate SamePack(env: Env, a: FileSystem, b: FileSystem, dir: string) {
    && SameArtifacts(a, b, Read(a, env.json, PathOf(env, dir, PACK)), PACK_ARTIFACTS)
    && SameWorkspace(env, a, b, Read(a, env.json, PathOf(env, dir, WORKSPACE_MANIFEST)))
  }

  predicate SameIntake(env: Env, a: FileSystem, b: FileSystem, dir: string) {
    var inventory := Read(a, env.inventory, PathOf(env, dir, INVENTORY_FILE));
    var intake := Read(a, env.intake, PathOf(env, dir, INTAKE_FILE));
    inventory.Some? && intake.Some? && SameAttachments(env, a, b, inventory.value, intake.value)
  }

  /** What two file systems share once both hold the same valid archive. */
  predicate SameEvidence(env: Env, a: FileSystem, b: FileSystem, archive: Option<Value>) {
    var dir, closurePath := ArchiveCall(env, archive).dir, ClosurePath(archive);
    var reviewPath := ReviewPath(Read(a, env.json, closurePath));
    && SameFile(a, b, closurePath) && SameFile(a, b, TextAt(ReportStamp(archive), ["path"]))
    && SameFile(a, b, reviewPath)
    && (closurePath == PathOf(env, dir, CLOSURE) ==> reviewPath == PathOf(env, dir, REVIEW))
    && (closurePath == PathOf(env, dir, CLOSURE) ==> SameReviewed(env, a, b, dir))
  }

  /** Transitive tamper evidence. If the same release archive validates with --require-ready in two file
      systems, at whatever times, and no file changed under an unchanged length and hash, the two agree
      byte for byte on the closure manifest, the gate report and the review manifest, wherever they are.
      Where each document lists the gate's default one, they agree on everything below it as well: the 17
      artifacts of the review, the 12 of the evidence pack, every workspace file, and every intake file. */
  lemma {:induction false} ArchivePinsEvidence(env: Env, a: World, b: World, archivePath: string, approvedA: bool,
        approvedB: bool)
    requires NoCollision(env.host, a.fs, b.fs) && SameFile(a.fs, b.fs, archivePath)
    requires ArchiveValid(env, a, archivePath, true, approvedA) && ArchiveValid(env, b, archivePath, true, approvedB)
    ensures SameEvidence(env, a.fs, b.fs, Read(a.fs, env.json, archivePath))
  {
    hide NoCollision, ArchiveValid, PathOf, ReviewValid, ClosureValid, EvidencePackValid, WorkspaceValid,
      AttachmentCheck,
      PhaseGateReportValid, DecisionCheck, SignoffCheck, WaiverCheck, Ready, ArchiveCall, SameReviewed, GateReportValid,
      TextAt, ClosureStamp, ReportStamp, ReviewPath;
    var archive := Read(a.fs, env.json, archivePath);
    assert Read(b.fs, env.json, archivePath) == archive;
    var c, closurePath := ArchiveCall(env, archive), ClosurePath(archive);
    ArchiveReady(env, a, archivePath, approvedA);
    ArchiveReady(env, b, archivePath, approvedB);
    RecordPins(env.host, a.fs, b.fs, ClosureStamp(archive), closurePath);
    RecordPins(env.host, a.fs, b.fs, ReportStamp(archive), TextAt(ReportStamp(archive), ["path"]));
    ClosurePins(env, a, b, closurePath, None, c.requireClean, approvedA, approvedB);
    if closurePath == PathOf(env, c.dir, CLOSURE) {
      ReadyChecks(env, a, c);
      ReadyChecks(env, b, c);
      ClosurePins(env, a, b, closurePath, Some(PathOf(env, c.dir, REVIEW)), c.requireClean, true, true);
      ReviewedPins(env, a, b, c);
    }
  }

  /** One release archive, valid as ready in two worlds, is from one commit, one branch and one remote; where it
      was made with a clean tree required, the tree was clean. */
  lemma {:induction false} ArchivePinsSource(env: Env, a: World, b: World, archivePath: string, approvedA: bool,
        approvedB: bool)
    requires NoCollision(env.host, a.fs, b.fs) && SameFile(a.fs, b.fs, archivePath)
    requires ArchiveValid(env, a, archivePath, true, approvedA) && ArchiveValid(env, b, archivePath, true, approvedB)
    ensures a.commit == b.commit && a.branch == b.branch && a.remote == b.remote
    ensures |a.commit| == 40 && (forall c | c in a.commit :: '0' <= c <= '9' || 'a' <= c <= 'f')
    ensures var archive := Read(a.fs, env.json, archivePath);
            At(archive, ["requireClean"]) == Some(Bool(true)) ==>
              At(Read(a.fs, env.json, ClosurePath(archive)), ["source", "cleanTree"]) == Some(Bool(true))
  {
    hide NoCollision, ArchiveValid, PathOf, ReviewValid, Ready, TextAt, At, ClosureStamp, ReportStamp, HasFormat,
      ClosureReviewFields, ClosureArtifacts, Stamped, ReviewApproved, ArtifactPath, IsTimestamp;
    var archive := Read(a.fs, env.json, archivePath);
    assert Read(b.fs, env.json, archivePath) == archive;
    ArchiveReady(env, a, archivePath, approvedA);
    ArchiveReady(env, b, archivePath, approvedB);
    RecordPins(env.host, a.fs, b.fs, ClosureStamp(archive), ClosurePath(archive));
  }

  /** A valid archive records its two files, its closure archive is valid, and its gate is ready. */
  lemma {:induction false} ArchiveReady(env: Env, w: World, archivePath: string, approved: bool)
    requires ArchiveValid(env, w, archivePath, true, approved)
    ensures var archive := Read(w.fs, env.json, archivePath);
            && Ready(env, w, ArchiveCall(env, archive))
            && Recorded(env.host, w.fs, ClosureStamp(archive), ClosurePath(archive))
            && Recorded(env.host, w.fs, ReportStamp(archive), TextAt(ReportStamp(archive), ["path"]))
            && ClosureValid(env, w, ClosurePath(archive), None, ArchiveCall(env, archive).requireClean, approved)
  {
    hide Recorded, GateReportValid, ClosureValid, Ready, At, TextAt, HasFormat, IsTimestamp, ArchiveCall,
      ClosureStamp, ReportStamp,
      ArchiveAgrees;
    var archive := Read(w.fs, env.json, archivePath);
    ReadyReportMeansReadyGate(env, w, ArchiveCall(env, archive), TextAt(ReportStamp(archive), ["path"]));
  }

  lemma {:induction false} ReviewedPins(env: Env, a: World, b: World, c: Call)
    requires NoCollision(env.host, a.fs, b.fs) && SameFile(a.fs, b.fs, PathOf(env, c.dir, REVIEW))
    requires Ready(env, a, c) && Ready(env, b, c)
    ensures SameReviewed(env, a.fs, b.fs, c.dir)
  {
    hide NoCollision, PathOf, ReviewValid, ClosureValid, EvidencePackValid, WorkspaceValid, AttachmentCheck,
      PhaseGateReportValid,
      DecisionCheck, SignoffCheck, WaiverCheck, Ready, SameArtifacts, SamePack, SameIntake, REVIEW_ARTIFACTS,
          ArtifactPath,
      GATE_FILES, CHECK_NAMES;
    var dir := c.dir;
    ReadyChecks(env, a, c);
    ReadyChecks(env, b, c);
    var review := Read(a.fs, env.json, PathOf(env, dir, REVIEW));
    ReviewPins(env, a, b, PathOf(env, dir, REVIEW));
    ArtifactNames();
    NamedArtifact(a.fs, b.fs, review, REVIEW_ARTIFACTS, "phaseEvidenceManifest");
    NamedArtifact(a.fs, b.fs, review, REVIEW_ARTIFACTS, "phaseEvidenceIntake");
    NamedArtifact(a.fs, b.fs, review, REVIEW_ARTIFACTS, "phaseAttachmentInventory");
    if ArtifactPath(review, "phaseGateValidation") == PathOf(env, dir, PHASE_GATE_REPORT) {
      PackIsDefault(env, a, dir, review);
      PackPinned(env, a.fs, b.fs, dir);
    }
    if ArtifactPath(review, "phaseAttachmentInventory") == PathOf(env, dir, INVENTORY_FILE) {
      InventoryIsDefault(env, a, dir, review);
      IntakePinned(env, a.fs, b.fs, dir);
    }
  }

  lemma {:induction false} NamedArtifact(
      a: FileSystem, b: FileSystem, manifest: Option<Value>, names: seq<string>, name: string)
    requires SameArtifacts(a, b, manifest, names) && name in names
    ensures SameFile(a, b, ArtifactPath(manifest, name))
  {
  }

  lemma {:induction false} PackPinned(env: Env, a: FileSystem, b: FileSystem, dir: string)
    requires NoCollision(env.host, a, b) && SameFile(a, b, PathOf(env, dir, PACK))
    requires EvidencePackValid(env, a, PathOf(env, dir, PACK)) && EvidencePackValid(env, b, PathOf(env, dir, PACK))
    requires WorkspaceValid(env, a, PathOf(env, dir, WORKSPACE_MANIFEST), PathOf(env, dir, BUNDLE))
    requires WorkspaceValid(env, b, PathOf(env, dir, WORKSPACE_MANIFEST), PathOf(env, dir, BUNDLE))
    requires ArtifactPath(Read(a, env.json, PathOf(env, dir, PACK)), "deploymentWorkspaceManifest")
             == PathOf(env, dir, WORKSPACE_MANIFEST)
    ensures SamePack(env, a, b, dir)
  {
    hide NoCollision, PathOf, EvidencePackValid, WorkspaceValid, SameArtifacts, SameWorkspace, ArtifactPath,
      PACK_ARTIFACTS;
    ArtifactNames();
    PackPins(env, a, b, PathOf(env, dir, PACK));
    NamedArtifact(a, b, Read(a, env.json, PathOf(env, dir, PACK)), PACK_ARTIFACTS, "deploymentWorkspaceManifest");
    WorkspacePins(env, a, b, PathOf(env, dir, WORKSPACE_MANIFEST), PathOf(env, dir, BUNDLE));
  }

  lemma {:induction false} IntakePinned(env: Env, a: FileSystem, b: FileSystem, dir: string)
    requires NoCollision(env.host, a, b)
    requires AttachmentCheck(env, a, dir) && AttachmentCheck(env, b, dir)
    requires SameFile(a, b, PathOf(env, dir, INVENTORY_FILE)) && SameFile(a, b, PathOf(env, dir, INTAKE_FILE))
    ensures SameIntake(env, a, b, dir)
  {
    hide InventoryValid, NoCollision, SameAttachments, PathOf;
    var inventory := Read(a, env.inventory, PathOf(env, dir, INVENTORY_FILE)).value;
    var intake := Read(a, env.intake, PathOf(env, dir, INTAKE_FILE)).value;
    AttachmentsPin(env, a, b, inventory, intake, PathOf(env, dir, INTAKE_FILE));
  }
}
