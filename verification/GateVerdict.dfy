/** What the release gate's verdict means for the files, the validators and the documents it read. */
module GateVerdict {
  import opened Wrappers
  import opened Text
  import opened Json
  import opened Files
  import opened WaiverRegister
  import opened EvidenceChain
  import opened ReleaseGate
  import Signoffs

  // ---------------------------------------------------------------- a ready gate

  predicate Has(env: Env, w: World, c: Call, file: string) {
    PathOf(env, c.dir, file) in w.fs
  }

  predicate FilesPresent(env: Env, w: World, c: Call) {
    && Has(env, w, c, BUNDLE) && Has(env, w, c, WORKSPACE_MANIFEST) && Has(env, w, c, STATUS_REPORT)
    && Has(env, w, c, REDACTION_REPORT) && Has(env, w, c, REQUESTS) && Has(env, w, c, READINESS)
    && Has(env, w, c, HANDOFF) && Has(env, w, c, COMPLETION) && Has(env, w, c, PACK)
    && Has(env, w, c, PHASE_GATE_REPORT) && Has(env, w, c, ACTIONS) && Has(env, w, c, GAPS)
    && Has(env, w, c, DECISION) && Has(env, w, c, SIGNOFF) && Has(env, w, c, INTAKE_FILE)
    && Has(env, w, c, INVENTORY_FILE) && Has(env, w, c, REGISTER_FILE) && Has(env, w, c, REVIEW)
    && Has(env, w, c, CLOSURE)
  }

  predicate ValidatorsAccept(env: Env, w: World, c: Call) {
    && WorkspaceValid(env, w.fs, PathOf(env, c.dir, WORKSPACE_MANIFEST), PathOf(env, c.dir, BUNDLE))
    && EvidencePackValid(env, w.fs, PathOf(env, c.dir, PACK)) && PhaseGateReportValid(env, w, c.dir)
    && DecisionCheck(env, w.fs, c.dir) && SignoffCheck(env, w.fs, c.dir) && AttachmentCheck(env, w.fs, c.dir)
    && WaiverCheck(env, w, c.dir) && ReviewValid(env, w, PathOf(env, c.dir, REVIEW), true)
    && ClosureValid(env, w, PathOf(env, c.dir, CLOSURE), Some(PathOf(env, c.dir, REVIEW)), c.requireClean, true)
  }

  /** The ten validators that are not modelled further. */
  predicate OthersSucceed(env: Env, w: World, c: Call) {
    && env.succeeds("deploymentEvidence", c.target, w) && env.succeeds("deploymentStatus", c.target, w)
    && env.succeeds("deploymentRedaction", c.target, w) && env.succeeds("externalEvidence", c.target, w)
    && env.succeeds("phaseReadiness", c.target, w) && env.succeeds("phaseCompletion", c.target, w)
    && env.succeeds("phaseHandoff", c.target, w) && env.succeeds("phaseActions", c.target, w)
    && env.succeeds("phaseGaps", c.target, w) && env.succeeds("phaseIntake", c.target, w)
  }

  /** The documents agree with the call, the review is ready and approves, and no validator's result blocks. */
  predicate DocumentsAgree(env: Env, w: World, c: Call) {
    var bundle := Read(w.fs, env.json, PathOf(env, c.dir, BUNDLE));
    var review := Read(w.fs, env.json, PathOf(env, c.dir, REVIEW));
    var closure := Read(w.fs, env.json, PathOf(env, c.dir, CLOSURE));
    && At(bundle, ["status"]) == Some(Str(c.target)) && At(closure, ["review", "target"]) == Some(Str(c.target))
    && Truthy(At(review, ["ready"])) && At(review, ["blockerCount"]) == Some(Number(0.0))
    && At(review, ["remainingPhaseCount"]) == Some(Number(0.0))
    && At(review, ["remainingItemCount"]) == Some(Number(0.0))
    && At(review, ["decision"]) == Some(Str("approve-phase-closure"))
    && (c.requireClean ==> Truthy(At(closure, ["source", "cleanTree"])))
  }

  predicate NothingRaised(env: Env, w: World, c: Call) {
    && !env.raises("phase-readiness", c.target, w)
    && !env.raises("deployment-status-production-requirements", c.target, w)
    && !env.raises("deployment-redaction", c.target, w)
  }

  predicate TargetKnown(c: Call) {
    c.target == "pilot" || c.target == "production"
  }

  predicate StatusReadable(env: Env, w: World, c: Call) {
    Read(w.fs, env.json, PathOf(env, c.dir, STATUS_REPORT)).Some?
  }

  lemma {:induction false} FilesAt()
    ensures var g := GATE_FILES;
            && |g| == 19 && g[0].file == BUNDLE && g[1].file == WORKSPACE_MANIFEST && g[2].file == STATUS_REPORT
            && g[3].file == REDACTION_REPORT && g[4].file == REQUESTS && g[5].file == READINESS
            && g[6].file == HANDOFF && g[7].file == COMPLETION && g[8].file == PACK
            && g[9].file == PHASE_GATE_REPORT && g[10].file == ACTIONS && g[11].file == GAPS
            && g[12].file == DECISION && g[13].file == SIGNOFF && g[14].file == INTAKE_FILE
            && g[15].file == INVENTORY_FILE && g[16].file == REGISTER_FILE && g[17].file == REVIEW
            && g[18].file == CLOSURE
  {
    hide BUNDLE, WORKSPACE_MANIFEST, STATUS_REPORT, REDACTION_REPORT, REQUESTS, READINESS, HANDOFF, COMPLETION, PACK,
      PHASE_GATE_REPORT, ACTIONS, GAPS, DECISION, SIGNOFF, INTAKE_FILE, INVENTORY_FILE, REGISTER_FILE, REVIEW, CLOSURE;
  }

  lemma {:induction false} FilesListed(env: Env, w: World, c: Call)
    ensures FilesPresent(env, w, c) <==> forall f | f in GATE_FILES :: PathOf(env, c.dir, f.file) in w.fs
  {
    hide BUNDLE, WORKSPACE_MANIFEST, STATUS_REPORT, REDACTION_REPORT, REQUESTS, READINESS, HANDOFF, COMPLETION, PACK,
      PHASE_GATE_REPORT, ACTIONS, GAPS, DECISION, SIGNOFF, INTAKE_FILE, INVENTORY_FILE, REGISTER_FILE, REVIEW, CLOSURE,
      PathOf, GATE_FILES;
    FilesAt();
    assert (forall f | f in GATE_FILES :: Has(env, w, c, f.file))
      <==> (forall i | 0 <= i < 19 :: Has(env, w, c, GATE_FILES[i].file));
  }

  lemma {:induction false} NamesAt()
    ensures var n := CHECK_NAMES;
            && |n| == 19 && n[0] == "deploymentWorkspace" && n[1] == "deploymentEvidence" && n[2] == "deploymentStatus"
            && n[3] == "deploymentRedaction" && n[4] == "externalEvidence" && n[5] == "phaseReadiness"
            && n[6] == "phaseCompletion" && n[7] == "phaseHandoff" && n[8] == "phaseEvidence" && n[9] == "phaseGate"
            && n[10] == "phaseActions" && n[11] == "phaseGaps" && n[12] == "phaseDecision"
            && n[13] == "phaseSignoffs" && n[14] == "phaseIntake" && n[15] == "phaseAttachments"
            && n[16] == "phaseWaivers" && n[17] == "phaseReview" && n[18] == "phaseClosure"
  {
  }

  lemma {:induction false} ModelledChecksMean(env: Env, w: World, c: Call)
    ensures ValidatorsAccept(env, w, c) <==>
            && CheckOk(env, w, c, "deploymentWorkspace") && CheckOk(env, w, c, "phaseEvidence")
            && CheckOk(env, w, c, "phaseGate") && CheckOk(env, w, c, "phaseDecision")
            && CheckOk(env, w, c, "phaseSignoffs") && CheckOk(env, w, c, "phaseAttachments")
            && CheckOk(env, w, c, "phaseWaivers") && CheckOk(env, w, c, "phaseReview")
            && CheckOk(env, w, c, "phaseClosure")
  {
    hide WorkspaceValid, EvidencePackValid, PhaseGateReportValid, DecisionCheck, SignoffCheck, AttachmentCheck,
      WaiverCheck, ReviewValid, ClosureValid, PathOf;
  }

  lemma {:induction false} OtherChecksMean(env: Env, w: World, c: Call)
    ensures OthersSucceed(env, w, c) <==>
            && CheckOk(env, w, c, "deploymentEvidence") && CheckOk(env, w, c, "deploymentStatus")
            && CheckOk(env, w, c, "deploymentRedaction") && CheckOk(env, w, c, "externalEvidence")
            && CheckOk(env, w, c, "phaseReadiness") && CheckOk(env, w, c, "phaseCompletion")
            && CheckOk(env, w, c, "phaseHandoff") && CheckOk(env, w, c, "phaseActions")
            && CheckOk(env, w, c, "phaseGaps") && CheckOk(env, w, c, "phaseIntake")
  {
    hide WorkspaceValid, EvidencePackValid, PhaseGateReportValid, DecisionCheck, SignoffCheck, AttachmentCheck,
      WaiverCheck, ReviewValid, ClosureValid, PathOf;
  }

  lemma {:induction false} ChecksListed(env: Env, w: World, c: Call)
    ensures ValidatorsAccept(env, w, c) && OthersSucceed(env, w, c) <==>
            forall n | n in CHECK_NAMES :: CheckOk(env, w, c, n)
  {
    hide CHECK_NAMES, CheckOk, ValidatorsAccept, OthersSucceed;
    ModelledChecksMean(env, w, c);
    OtherChecksMean(env, w, c);
    NamesAt();
    assert (forall n | n in CHECK_NAMES :: CheckOk(env, w, c, n))
      <==> (forall i | 0 <= i < 19 :: CheckOk(env, w, c, CHECK_NAMES[i]));
  }

  // ---------------------------------------------------------------- ready, exactly

  /** With every file and every check, the documents are there and have their formats. */
  lemma {:induction false} DocumentsThere(env: Env, w: World, c: Call)
    requires ValidatorsAccept(env, w, c)
    ensures Document(env, w.fs, PathOf(env, c.dir, BUNDLE)) == Read(w.fs, env.json, PathOf(env, c.dir, BUNDLE))
    ensures Document(env, w.fs, PathOf(env, c.dir, REVIEW)) == Read(w.fs, env.json, PathOf(env, c.dir, REVIEW))
    ensures Document(env, w.fs, PathOf(env, c.dir, CLOSURE)) == Read(w.fs, env.json, PathOf(env, c.dir, CLOSURE))
    ensures Read(w.fs, env.json, PathOf(env, c.dir, BUNDLE)).Some?
    ensures Read(w.fs, env.json, PathOf(env, c.dir, REVIEW)).Some?
    ensures Read(w.fs, env.json, PathOf(env, c.dir, CLOSURE)).Some?
    ensures HasFormat(Read(w.fs, env.json, PathOf(env, c.dir, REVIEW)), "sentinel-phase-review-bundle-manifest-v1")
    ensures HasFormat(Read(w.fs, env.json, PathOf(env, c.dir, CLOSURE)), "sentinel-phase-closure-archive-manifest-v1")
    ensures ClosureReviewFields(Read(w.fs, env.json, PathOf(env, c.dir, CLOSURE)),
                                Read(w.fs, env.json, PathOf(env, c.dir, REVIEW)))
  {
    hide PathOf, HasFormat, At, Truthy, BUNDLE, REVIEW, CLOSURE, WORKSPACE_MANIFEST, PACK, EvidencePackValid,
      PhaseGateReportValid, DecisionCheck, SignoffCheck, AttachmentCheck, WaiverCheck, TextAt, IsTimestamp,
      WorkspaceStamped, WorkspacePath, EvidenceNames, AllStamped, ReadReviewed, ReviewFormats, ReviewLinks, ReviewState,
      SummaryValue, SummarizeForReview, ClosureReviewFields, ClosureArtifacts, Stamped, IsCommit, ArtifactPath;
    FormattedIsTruthy(Read(w.fs, env.json, PathOf(env, c.dir, BUNDLE)), "sentinel-deployment-evidence-bundle-v1");
    FormattedIsTruthy(Read(w.fs, env.json, PathOf(env, c.dir, REVIEW)), "sentinel-phase-review-bundle-manifest-v1");
    FormattedIsTruthy(Read(w.fs, env.json, PathOf(env, c.dir, CLOSURE)), "sentinel-phase-closure-archive-manifest-v1");
  }

  lemma {:induction false} ReviewReadyExactly(review: Option<Value>)
    ensures !ReviewNotReady(review) <==>
            && Truthy(At(review, ["ready"])) && At(review, ["blockerCount"]) == Some(Number(0.0))
            && At(review, ["remainingPhaseCount"]) == Some(Number(0.0))
            && At(review, ["remainingItemCount"]) == Some(Number(0.0))
  {
    hide At, Truthy;
  }

  lemma {:induction false} SummariesRepeated(closure: Option<Value>, review: Option<Value>)
    requires ClosureReviewFields(closure, review)
    ensures At(closure, ["review", "evidenceKeySummary"]) == At(review, ["evidenceKeySummary"])
    ensures At(closure, ["review", "commandCoverageSummary"]) == At(review, ["commandCoverageSummary"])
  {
    hide At;
  }

  lemma {:induction false} LateExactly(env: Env, w: World, c: Call)
    requires ValidatorsAccept(env, w, c) && OthersSucceed(env, w, c)
    ensures LateBlockers(env, w, c) == [] <==> DocumentsAgree(env, w, c) && NothingRaised(env, w, c)
  {
    hide PathOf, HasFormat, At, Truthy, BUNDLE, REVIEW, CLOSURE, CheckOk, Document, ClosureReviewFields,
      ValidatorsAccept, ReviewNotReady, LateBlockers;
    DocumentsThere(env, w, c);
    OtherChecksMean(env, w, c);
    ReviewReadyExactly(Read(w.fs, env.json, PathOf(env, c.dir, REVIEW)));
    WhenEmpty(env, w, c);
  }

  /** No late blocker: none of the eight conditions holds. */
  lemma {:induction false} WhenEmpty(env: Env, w: World, c: Call)
    ensures var bundle := Document(env, w.fs, PathOf(env, c.dir, BUNDLE));
            var review := Document(env, w.fs, PathOf(env, c.dir, REVIEW));
            var closure := Document(env, w.fs, PathOf(env, c.dir, CLOSURE));
            LateBlockers(env, w, c) == [] <==>
            && (bundle.Some? ==> At(bundle, ["status"]) == Some(Str(c.target)))
            && !(CheckOk(env, w, c, "phaseReadiness") && env.raises("phase-readiness", c.target, w))
            && !env.raises("deployment-status-production-requirements", c.target, w)
            && !(CheckOk(env, w, c, "deploymentRedaction") && env.raises("deployment-redaction", c.target, w))
            && (review.Some? ==> !ReviewNotReady(review) && At(review, ["decision"]) == Some(Str(Signoffs.APPROVE)))
            && (closure.Some? ==> At(closure, ["review", "target"]) == Some(Str(c.target)))
            && (closure.Some? && c.requireClean ==> Truthy(At(closure, ["source", "cleanTree"])))
  {
    hide PathOf, At, Truthy, BUNDLE, REVIEW, CLOSURE, CheckOk, Document, ReviewNotReady, Signoffs.APPROVE;
    LateLength(env, w, c);
  }

  lemma {:induction false} LateLength(env: Env, w: World, c: Call)
    ensures LateBlockers(env, w, c) == [] <==> |LateBlockers(env, w, c)| == 0
  {
  }

  lemma {:induction false} StopsExactly(env: Env, w: World, c: Call)
    requires ValidatorsAccept(env, w, c) && Has(env, w, c, STATUS_REPORT)
    ensures !GateStops(env, w, c) <==> TargetKnown(c) && StatusReadable(env, w, c)
  {
    hide PathOf, HasFormat, At, Truthy, BUNDLE, REVIEW, CLOSURE, STATUS_REPORT, Document, ValidatorsAccept,
      ClosureReviewFields;
    DocumentsThere(env, w, c);
    SummariesRepeated(Read(w.fs, env.json, PathOf(env, c.dir, CLOSURE)), Read(w.fs, env.json, PathOf(env, c.dir,
        REVIEW)));
    assert StatusReadable(env, w, c) <==> !Unreadable(env, w.fs, PathOf(env, c.dir, STATUS_REPORT));
  }

  /** The gate is ready exactly when the target is known, the status report is JSON, the nineteen files are
      there, the nineteen validators accept, the documents agree with the call and with each other, and no
      validator's result blocks. */
  lemma {:induction false} ReadyExactly(env: Env, w: World, c: Call)
    ensures Ready(env, w, c) <==>
            && TargetKnown(c) && StatusReadable(env, w, c) && FilesPresent(env, w, c)
            && ValidatorsAccept(env, w, c) && OthersSucceed(env, w, c)
            && DocumentsAgree(env, w, c) && NothingRaised(env, w, c)
  {
    hide GATE_FILES, CHECK_NAMES, CheckOk, GateStops, LateBlockers, Warnings, PathOf, ValidatorsAccept, OthersSucceed,
      DocumentsAgree, NothingRaised, TargetKnown, StatusReadable;
    FilesListed(env, w, c);
    ChecksListed(env, w, c);
    NoneMissing(env, w.fs, c.dir, GATE_FILES);
    NoneFailed(env, w, c, CHECK_NAMES);
    if ValidatorsAccept(env, w, c) && OthersSucceed(env, w, c) {
      LateExactly(env, w, c);
      if FilesPresent(env, w, c) {
        StopsExactly(env, w, c);
      }
    }
    var a, b, d := MissingBlockers(env, w.fs, c.dir, GATE_FILES), FailedBlockers(env, w, c, CHECK_NAMES),
        LateBlockers(env, w, c);
    assert |a + b + d| == |a| + |b| + |d|;
  }

  /** A ready gate has one target: two ready calls on one directory in one world name the same. */
  lemma {:induction false} OneTarget(env: Env, w: World, c: Call, d: Call)
    requires Ready(env, w, c) && Ready(env, w, d) && c.dir == d.dir
    ensures c.target == d.target
  {
    hide Ready, ValidatorsAccept, OthersSucceed, NothingRaised, FilesPresent, At, PathOf;
    ReadyExactly(env, w, c);
    ReadyExactly(env, w, d);
  }

  // ---------------------------------------------------------------- the blockers of any verdict

  /** Artifact blockers have a full stop in their names, blockers from the documents have a hyphen and no full
      stop, and checks have neither. */
  predicate IsArtifactName(b: string) {
    '.' in b
  }

  predicate IsCheckName(b: string) {
    '.' !in b && '-' !in b
  }

  lemma {:induction false} CheckNamesPlain()
    ensures forall i, k | 0 <= i < |CHECK_NAMES| && 0 <= k < |CHECK_NAMES[i]| :: 'A' <= CHECK_NAMES[i][k] <= 'z'
  {
  }

  lemma {:induction false} CheckNamesApart(b: string)
    requires b in CHECK_NAMES
    ensures IsCheckName(b)
  {
    CheckNamesPlain();
    hide CHECK_NAMES;
  }

  lemma {:induction false} MissingListed(env: Env, fs: FileSystem, dir: string, files: seq<GateFile>, b: string)
    ensures b in MissingBlockers(env, fs, dir, files) <==>
            exists f :: f in files && b == "artifact." + f.name && PathOf(env, dir, f.file) !in fs
  {
    hide PathOf;
    if files != [] {
      var init, last := files[..|files| - 1], files[|files| - 1];
      MissingListed(env, fs, dir, init, b);
      assert files == init + [last];
    }
  }

  lemma {:induction false} FailedListed(env: Env, w: World, c: Call, names: seq<string>, b: string)
    ensures b in FailedBlockers(env, w, c, names) <==> b in names && !CheckOk(env, w, c, b)
  {
    hide CheckOk;
    if names != [] {
      var init, last := names[..|names| - 1], names[|names| - 1];
      FailedListed(env, w, c, init, b);
      assert names == init + [last];
    }
  }

  /** The conditions on the documents and on the validators' results under which the gate blocks, by name. */
  predicate DocumentBlocks(env: Env, w: World, c: Call, b: string) {
    var bundle := Document(env, w.fs, PathOf(env, c.dir, BUNDLE));
    var review := Document(env, w.fs, PathOf(env, c.dir, REVIEW));
    var closure := Document(env, w.fs, PathOf(env, c.dir, CLOSURE));
    || (b == "deployment-target" && bundle.Some? && At(bundle, ["status"]) != Some(Str(c.target)))
    || (b == "phase-readiness" && CheckOk(env, w, c, "phaseReadiness") && env.raises("phase-readiness", c.target, w))
    || (b == "deployment-status-production-requirements"
        && env.raises("deployment-status-production-requirements", c.target, w))
    || (b == "deployment-redaction" && CheckOk(env, w, c, "deploymentRedaction")
        && env.raises("deployment-redaction", c.target, w))
    || (b == "phase-review" && review.Some? && ReviewNotReady(review))
    || (b == "phase-decision" && review.Some? && At(review, ["decision"]) != Some(Str("approve-phase-closure")))
    || (b == "closure-target" && closure.Some? && At(closure, ["review", "target"]) != Some(Str(c.target)))
    || (b == "source-provenance" && closure.Some? && c.requireClean
        && !Truthy(At(closure, ["source", "cleanTree"])))
  }

  lemma {:induction false} LateListed(env: Env, w: World, c: Call, b: string)
    ensures b in LateBlockers(env, w, c) <==> DocumentBlocks(env, w, c, b)
  {
    hide PathOf, At, Truthy, BUNDLE, REVIEW, CLOSURE, CheckOk, Document, ReviewNotReady;
  }

  lemma {:induction false} HyphenatedName(b: string, k: nat)
    requires k < |b| && b[k] == '-' && '.' !in b
    ensures !IsArtifactName(b) && !IsCheckName(b)
  {
  }

  lemma {:induction false} ConditionNamesApart(b: string)
    requires b in ["phase-readiness", "phase-review", "phase-decision", "closure-target"]
    ensures !IsArtifactName(b) && !IsCheckName(b)
  {
    HyphenatedName(b, if b == "closure-target" then 7 else 5);
  }

  lemma {:induction false} ResultNamesApart(b: string)
    requires b in ["deployment-target", "deployment-status-production-requirements", "deployment-redaction",
                   "source-provenance"]
    ensures !IsArtifactName(b) && !IsCheckName(b)
  {
    HyphenatedName(b, if b == "source-provenance" then 6 else 10);
  }

  lemma {:induction false} DocumentNamesApart(env: Env, w: World, c: Call, b: string)
    requires DocumentBlocks(env, w, c, b)
    ensures !IsArtifactName(b) && !IsCheckName(b)
  {
    hide PathOf, At, Truthy, BUNDLE, REVIEW, CLOSURE, CheckOk, Document, ReviewNotReady, IsArtifactName, IsCheckName;
    if b in ["phase-readiness", "phase-review", "phase-decision", "closure-target"] {
      ConditionNamesApart(b);
    } else {
      ResultNamesApart(b);
    }
  }

  /** The verdict names a blocker exactly for its own reason: an artifact that is missing, a check that did not
      succeed, or a condition on the documents. */
  lemma {:induction false} BlockersExactly(env: Env, w: World, c: Call, b: string)
    requires Judge(env, w, c).Success?
    ensures b in Judge(env, w, c).value.blockers <==>
            if IsArtifactName(b) then
              exists f :: f in GATE_FILES && b == "artifact." + f.name && PathOf(env, c.dir, f.file) !in w.fs
            else if IsCheckName(b) then b in CHECK_NAMES && !CheckOk(env, w, c, b)
            else DocumentBlocks(env, w, c, b)
  {
    hide GATE_FILES, CHECK_NAMES, CheckOk, GateStops, LateBlockers, Warnings, PathOf, DocumentBlocks;
    MissingListed(env, w.fs, c.dir, GATE_FILES, b);
    FailedListed(env, w, c, CHECK_NAMES, b);
    LateListed(env, w, c, b);
    if b in CHECK_NAMES {
      CheckNamesApart(b);
    }
    if DocumentBlocks(env, w, c, b) {
      DocumentNamesApart(env, w, c, b);
    }
    forall f: GateFile
      ensures IsArtifactName("artifact." + f.name)
    {
      assert ("artifact." + f.name)[8] == '.';
    }
  }

  /** The names under which the nineteen files are missed. */
  lemma {:induction false} FileNames()
    ensures var g := GATE_FILES;
            && |g| == 19 && g[0].name == "bundle" && g[1].name == "workspaceManifest"
            && g[2].name == "deploymentStatus" && g[3].name == "deploymentRedaction"
            && g[4].name == "externalRequests" && g[5].name == "phaseReadiness" && g[6].name == "phaseHandoff"
            && g[7].name == "phaseCompletion" && g[8].name == "phaseEvidence" && g[9].name == "phaseGate"
            && g[10].name == "phaseActions" && g[11].name == "phaseGaps" && g[12].name == "phaseDecision"
            && g[13].name == "phaseSignoffs" && g[14].name == "phaseIntake" && g[15].name == "phaseAttachments"
            && g[16].name == "phaseWaivers" && g[17].name == "phaseReview" && g[18].name == "phaseClosure"
  {
  }

  /** The nineteen files the gate asks for. */
  lemma {:induction false} FilesNamed()
    ensures var g := GATE_FILES;
            && |g| == 19 && g[0].file == "deployment-evidence-bundle.json"
            && g[1].file == "deployment-evidence-workspace-manifest.json"
            && g[2].file == "deployment-evidence-status.json" && g[3].file == "deployment-redaction-report.json"
            && g[4].file == "external-evidence-requests.json" && g[5].file == "phase-readiness.json"
            && g[6].file == "phase-handoff-checklist.md" && g[7].file == "phase-completion-audit.json"
            && g[8].file == "phase-evidence-pack-manifest.json" && g[9].file == "phase-gate-validation.json"
            && g[10].file == "phase-action-register.json" && g[11].file == "phase-gap-matrix.json"
            && g[12].file == "phase-decision-record.json" && g[13].file == "phase-signoff-matrix.json"
            && g[14].file == "phase-evidence-intake.json" && g[15].file == "phase-attachment-inventory.json"
            && g[16].file == "phase-waiver-register.json" && g[17].file == "phase-review-bundle-manifest.json"
            && g[18].file == "phase-closure-archive-manifest.json"
  {
    FilesAt();
    hide GATE_FILES;
  }

  /** A ready gate warns exactly when it does not ask for a clean tree and the closure archive was not made
      from one. */
  lemma {:induction false} ReadyWarns(env: Env, w: World, c: Call)
    requires Ready(env, w, c)
    ensures Judge(env, w, c).Success?
    ensures var closure := Read(w.fs, env.json, PathOf(env, c.dir, CLOSURE));
            Judge(env, w, c).value.warnings ==
            if !c.requireClean && !Truthy(At(closure, ["source", "cleanTree"])) then ["source-provenance"] else []
  {
    hide GATE_FILES, CHECK_NAMES, CheckOk, GateStops, LateBlockers, PathOf, At, Truthy, Document, ValidatorsAccept,
      OthersSucceed, DocumentsAgree, NothingRaised, FilesPresent;
    ReadyExactly(env, w, c);
    DocumentsThere(env, w, c);
  }

  predicate NotJson(env: Env, w: World, c: Call, file: string) {
    Has(env, w, c, file) && Read(w.fs, env.json, PathOf(env, c.dir, file)) == None
  }

  /** The closure archive repeats a summary of the review otherwise than the review holds it. */
  predicate OtherSummary(closure: Value, review: Option<Value>, name: string) {
    Truthy(At(review, [name])) && At(Some(closure), ["review", name]) != At(review, [name])
  }

  /** The gate gives no verdict when the target is unknown, when a document it reads is there but is not JSON,
      when the review or the closure archive is not one, or when the archive repeats another summary than the
      review holds. */
  lemma {:induction false} NoVerdictExactly(env: Env, w: World, c: Call)
    ensures var review := Document(env, w.fs, PathOf(env, c.dir, REVIEW));
            var closure := Document(env, w.fs, PathOf(env, c.dir, CLOSURE));
            Judge(env, w, c).Failure? <==>
            || !TargetKnown(c)
            || NotJson(env, w, c, BUNDLE) || NotJson(env, w, c, STATUS_REPORT)
            || NotJson(env, w, c, REVIEW) || NotJson(env, w, c, CLOSURE)
            || (review.Some? && !HasFormat(review, "sentinel-phase-review-bundle-manifest-v1"))
            || (closure.Some? && !HasFormat(closure, "sentinel-phase-closure-archive-manifest-v1"))
            || (closure.Some? && OtherSummary(closure.value, review, "evidenceKeySummary"))
            || (closure.Some? && OtherSummary(closure.value, review, "commandCoverageSummary"))
  {
    hide PathOf, At, Truthy, Document, HasFormat, BUNDLE, STATUS_REPORT, REVIEW, CLOSURE, LateBlockers, Warnings,
      MissingBlockers, FailedBlockers, GATE_FILES, CHECK_NAMES;
  }
}
