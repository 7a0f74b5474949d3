/** What a ready release gate promises about every file the intake expects. */
module ReleaseSafety {
  import opened Wrappers
  import opened Json
  import opened Files
  import opened Attachments
  import opened Expiry
  import opened Waivers
  import opened WaiverRegister
  import opened EvidenceChain
  import opened ReleaseGate
  import Signoffs

  /** The file is on disk as recorded, with no recorded finding. */
  predicate Attached(host: Host, fs: FileSystem, path: string, file: AttachedFile) {
    && file.resolvedPath == path && file.findings == []
    && file.sha256.Some? && Matches(host, fs, path, file.bytes, file.sha256.value)
  }

  /** The waiver is an approved missing-evidence waiver for this very file, not yet expired. */
  predicate WaivesFile(host: Host, now: int, w: Waiver, a: Attachment, file: AttachedFile) {
    && w.status == "approved" && w.waiverType == MISSING
    && w.targetPath == file.targetPath && w.phase == a.phase && w.ownerRole == a.ownerRole
    && w.evidenceKey == NonEmpty(file.evidenceKey)
    && Approved(host, now, w)
  }

  /** With no findings anywhere, a file has one draft if it is missing and none otherwise. */
  lemma {:induction false} DraftsWithoutFindings(a: Attachment, file: AttachedFile)
    requires file.findings == []
    ensures FileDrafts(a, file) == if file.status == "missing" then [DraftFor(a, file, None)] else []
  {
  }

  lemma {:induction false} NoFindingsRecorded(
      host: Host, fs: FileSystem, inventory: Inventory, intake: Intake, intakePath: string)
    requires InventoryValid(host, fs, inventory, intake, intakePath, false, true)
    ensures forall i, j | 0 <= i < |inventory.attachments| && 0 <= j < |inventory.attachments[i].files| ::
              inventory.attachments[i].files[j].findings == []
  {
    hide Tally, Total, IsTimestamp, INVENTORY_FORMAT, INTAKE_FORMAT, FileValid;
    forall i | 0 <= i < |inventory.attachments|
      ensures inventory.attachments[i].counts == Tally(inventory.attachments[i].files)
    {
      assert AttachmentValid(host, fs, inventory.evidenceDir, inventory.attachments[i], intake.items[i]);
    }
    TotalsZero(inventory.attachments);
  }

  lemma {:induction false} MissingFileWaived(
      host: Host, now: int, register: Register, inventory: Inventory, inventoryPath: string,
      decision: Signoffs.DecisionRecord, decisionPath: string, i: nat, j: nat)
    requires RegisterValid(host, now, register, inventory, inventoryPath, decision, decisionPath, true)
    requires i < |inventory.attachments| && j < |inventory.attachments[i].files|
    requires inventory.attachments[i].files[j].findings == [] && inventory.attachments[i].files[j].status == "missing"
    ensures var k := Position(inventory.attachments, i, j);
            k < |register.waivers|
            && WaivesFile(host, now, register.waivers[k], inventory.attachments[i], inventory.attachments[i].files[j])
  {
    hide Drafts, Position, IsTimestamp, Summarize, WaiverId, IsPlaceholder, IsIsoDate;
    var a, file := inventory.attachments[i], inventory.attachments[i].files[j];
    OwnWaivers(register.waivers, inventory.attachments, i, j);
    DraftsWithoutFindings(a, file);
    var k := Position(inventory.attachments, i, j);
    assert FileDrafts(a, file)[0] == DraftFor(a, file, None);
    assert Answers(register.waivers[k + 0], k + 0 + 1, FileDrafts(a, file)[0]);
  }

  /** The fate of one expected file. */
  predicate Accounted(
    host: Host, w: World, register: Register, attachments: seq<Attachment>, i: nat, j: nat, path: string)
    requires i < |attachments| && j < |attachments[i].files|
  {
    var file := attachments[i].files[j];
    if path in w.fs then Attached(host, w.fs, path, file)
    else
      var k := Position(attachments, i, j);
      k < |register.waivers| && WaivesFile(host, w.now, register.waivers[k], attachments[i], file)
  }

  ghost predicate Safe(env: Env, w: World, intake: Intake, inventory: Inventory, register: Register) {
    var attachments := inventory.attachments;
    && |attachments| == |intake.items|
    && (forall i | 0 <= i < |attachments| :: |attachments[i].files| == |intake.items[i].expectedFiles|)
    && (forall i, j | 0 <= i < |attachments| && 0 <= j < |attachments[i].files| ::
          Accounted(env.host, w, register, attachments, i, j,
                    env.host.resolve(inventory.evidenceDir, intake.items[i].expectedFiles[j].targetPath)))
    && |register.waivers| == SumMissing(attachments)
    && (forall k | 0 <= k < |register.waivers| :: WaivesOne(attachments, k))
    && (forall k, i, j, i', j' | WaiverOf(attachments, i, j, k) && WaiverOf(attachments, i', j', k) ::
         i == i' && j == j')
  }

  ghost predicate WaivesOne(attachments: seq<Attachment>, k: nat) {
    exists i, j :: WaiverOf(attachments, i, j, k)
  }

  /** The k-th waiver stands at the place of a missing file. */
  predicate WaiverOf(attachments: seq<Attachment>, i: nat, j: nat, k: nat) {
    && i < |attachments| && j < |attachments[i].files|
    && attachments[i].files[j].status == "missing" && Position(attachments, i, j) == k
  }

  lemma {:induction false} OwnerIsMissing(attachments: seq<Attachment>, i: nat, j: nat, k: nat)
    requires i < |attachments| && j < |attachments[i].files| ==> attachments[i].files[j].findings == []
    ensures Owns(attachments, i, j, k) <==> WaiverOf(attachments, i, j, k)
  {
    hide Position;
    if i < |attachments| && j < |attachments[i].files| {
      DraftsWithoutFindings(attachments[i], attachments[i].files[j]);
    }
  }

  /** With no findings, the waivers of an accepted register and the missing files are one to one. */
  lemma {:induction false} OneToOne(attachments: seq<Attachment>, count: nat)
    requires forall i, j | 0 <= i < |attachments|
             && 0 <= j < |attachments[i].files| :: attachments[i].files[j].findings == []
    requires forall k | 0 <= k < count :: Owned(attachments, k)
    ensures forall k | 0 <= k < count :: WaivesOne(attachments, k)
    ensures forall k, i, j, i', j' | WaiverOf(attachments, i, j, k) && WaiverOf(attachments, i', j', k) ::
              i == i' && j == j'
  {
    hide Owns, WaiverOf;
    forall k | 0 <= k < count
      ensures WaivesOne(attachments, k)
    {
      assert Owned(attachments, k);
      var i: nat, j: nat :| Owns(attachments, i, j, k);
      OwnerIsMissing(attachments, i, j, k);
    }
    forall k, i, j, i', j' | WaiverOf(attachments, i, j, k) && WaiverOf(attachments, i', j', k)
      ensures i == i' && j == j'
    {
      OwnerIsMissing(attachments, i, j, k);
      OwnerIsMissing(attachments, i', j', k);
      OneOwner(attachments, k, i, j, i', j');
    }
  }

  lemma {:induction false} ChecksMeanSafe(
      env: Env, w: World, intake: Intake, intakePath: string, inventory: Inventory, inventoryPath: string,
      register: Register, decision: Signoffs.DecisionRecord, decisionPath: string)
    requires InventoryValid(env.host, w.fs, inventory, intake, intakePath, false, true)
    requires RegisterValid(env.host, w.now, register, inventory, inventoryPath, decision, decisionPath, true)
    ensures Safe(env, w, intake, inventory, register)
  {
    hide Position, RegisterValid, Tally, Total, IsTimestamp, INVENTORY_FORMAT, INTAKE_FORMAT, SumMissing, SumFindings,
      FileDrafts, WaivesFile, FileWaived, Owned, WaivesOne, WaiverOf;
    var attachments := inventory.attachments;
    NoFindingsRecorded(env.host, w.fs, inventory, intake, intakePath);
    forall i | 0 <= i < |attachments|
      ensures AttachmentValid(env.host, w.fs, inventory.evidenceDir, attachments[i], intake.items[i])
    {
    }
    forall i, j | 0 <= i < |attachments| && 0 <= j < |attachments[i].files|
      ensures Accounted(env.host, w, register, attachments, i, j,
                        env.host.resolve(inventory.evidenceDir, intake.items[i].expectedFiles[j].targetPath))
    {
      assert FileValid(env.host, w.fs, inventory.evidenceDir, attachments[i].files[j],
             intake.items[i].expectedFiles[j]);
      if attachments[i].files[j].resolvedPath !in w.fs {
        MissingFileWaived(env.host, w.now, register, inventory, inventoryPath, decision, decisionPath, i, j);
      }
    }
    WaiversCorrespond(env.host, w.now, register, inventory, inventoryPath, decision, decisionPath, true);
    NoFindingsSum(attachments);
    OneToOne(attachments, |register.waivers|);
  }

  lemma {:induction false} NoFindingsSum(attachments: seq<Attachment>)
    requires forall i, j | 0 <= i < |attachments|
             && 0 <= j < |attachments[i].files| :: attachments[i].files[j].findings == []
    ensures SumFindings(attachments) == 0
  {
    if attachments != [] {
      var n := |attachments| - 1;
      NoFindingsSum(attachments[..n]);
      TallyZero(attachments[n].files);
    }
  }

  /** The path the review manifest lists for a document. */
  function ReviewedPath(env: Env, w: World, dir: string, name: string): string {
    ArtifactPath(Read(w.fs, env.json, PathOf(env, dir, REVIEW)), name)
  }

  /** The review bundle lists the waiver register the gate checks. */
  predicate ReviewsOwnRegister(env: Env, w: World, dir: string) {
    ReviewedPath(env, w, dir, "phaseWaiverRegister") == PathOf(env, dir, REGISTER_FILE)
  }

  /** An approval reference and a compensating control, neither of them a placeholder. */
  predicate HasReferences(v: Waiver) {
    && NonEmpty(v.approvalReference).Some? && !IsPlaceholder(v.approvalReference.value)
    && NonEmpty(v.compensatingControl).Some? && !IsPlaceholder(v.compensatingControl.value)
  }

  /** Every waiver of the gate's own register has its references. */
  predicate ReferencesConcrete(env: Env, w: World, dir: string) {
    var register := Read(w.fs, env.register, PathOf(env, dir, REGISTER_FILE));
    register.Some? && forall v | v in register.value.waivers :: HasReferences(v)
  }

  /** When the review bundle lists the gate's own waiver register, its references are concrete: the review
      check asks for what the register check leaves open. */
  lemma {:induction false} ReviewedWaiversAreConcrete(env: Env, w: World, dir: string)
    requires ReviewValid(env, w, PathOf(env, dir, REVIEW), true) && ReviewsOwnRegister(env, w, dir)
    ensures ReferencesConcrete(env, w, dir)
  {
    hide PathOf, ArtifactPath, AllStamped, ReviewFormats, ReviewLinks, ReviewState, At, IsPlaceholder, SummaryValue,
      SummarizeForReview;
  }

  ghost predicate SafeRelease(env: Env, w: World, dir: string) {
    var intake := Read(w.fs, env.intake, PathOf(env, dir, INTAKE_FILE));
    var inventory := Read(w.fs, env.inventory, PathOf(env, dir, INVENTORY_FILE));
    var register := Read(w.fs, env.register, PathOf(env, dir, REGISTER_FILE));
    && intake.Some? && inventory.Some? && register.Some?
    && Safe(env, w, intake.value, inventory.value, register.value)
    && (ReviewsOwnRegister(env, w, dir) ==> ReferencesConcrete(env, w, dir))
  }

  /** Release safety. When the gate is ready, every file the intake expects is on disk with its recorded
      size and hash and no recorded finding, or it is absent and has a waiver of its own: approved, not a
      placeholder, with an expiry in the future. The waivers and the absent files correspond one to one:
      every waiver stands at the place of exactly one absent file. Where the review lists the register the
      gate checks, every waiver has its references. */
  lemma {:induction false} ReadyGateIsSafe(env: Env, w: World, c: Call)
    requires Ready(env, w, c)
    ensures SafeRelease(env, w, c.dir)
  {
    hide Ready, WorkspaceValid, EvidencePackValid, PhaseGateReportValid, DecisionCheck, SignoffCheck, ReviewValid,
      ClosureValid, PathOf, InventoryValid, RegisterValid, Safe, ReviewsOwnRegister, ReferencesConcrete;
    ReadyChecks(env, w, c);
    var intake := Read(w.fs, env.intake, PathOf(env, c.dir, INTAKE_FILE)).value;
    var inventory := Read(w.fs, env.inventory, PathOf(env, c.dir, INVENTORY_FILE)).value;
    var register := Read(w.fs, env.register, PathOf(env, c.dir, REGISTER_FILE)).value;
    var decision := Read(w.fs, env.decision, PathOf(env, c.dir, DECISION)).value;
    ChecksMeanSafe(env, w, intake, PathOf(env, c.dir, INTAKE_FILE), inventory, PathOf(env, c.dir, INVENTORY_FILE),
                   register, decision, PathOf(env, c.dir, DECISION));
    if ReviewsOwnRegister(env, w, c.dir) {
      ReviewedWaiversAreConcrete(env, w, c.dir);
    }
  }

  // ---------------------------------------------------------------- signoff

  /** With no late blocker, a review manifest that is there approves closure. */
  lemma {:induction false} NoLateBlocker(env: Env, w: World, c: Call)
    requires LateBlockers(env, w, c) == []
    ensures var review := Document(env, w.fs, PathOf(env, c.dir, REVIEW));
            review.Some? ==> At(review, ["decision"]) == Some(Str(Signoffs.APPROVE))
  {
    hide Document, PathOf, At, ReviewNotReady, CheckOk;
  }

  /** The review bundle lists the decision record the gate checks. */
  predicate ReviewsOwnDecision(env: Env, w: World, dir: string) {
    ReviewedPath(env, w, dir, "phaseDecisionRecord") == PathOf(env, dir, DECISION)
  }

  /** A review of the gate's own waiver register is a review of its own decision record. */
  lemma {:induction false} OwnRegisterOwnDecision(env: Env, w: World, dir: string)
    requires ReviewValid(env, w, PathOf(env, dir, REVIEW), true) && WaiverCheck(env, w, dir)
    requires ReviewsOwnRegister(env, w, dir)
    ensures ReviewsOwnDecision(env, w, dir)
  {
    hide PathOf, ArtifactPath, ReviewApproved, AllStamped, ReviewFormats, At, HasFormat, IsTimestamp, SummaryValue,
      SummarizeForReview, Drafts, Summarize, Answers, Approved, ReviewState;
  }

  /** The review manifest records the decision of the decision record it lists. */
  lemma {:induction false} ReviewedDecision(env: Env, w: World, dir: string)
    requires ReviewValid(env, w, PathOf(env, dir, REVIEW), true) && ReviewsOwnDecision(env, w, dir)
    ensures var review := Read(w.fs, env.json, PathOf(env, dir, REVIEW));
            var decision := Read(w.fs, env.decision, PathOf(env, dir, DECISION));
            && decision.Some? && At(review, ["decision"]) == Some(Str(decision.value.decision))
            && HasFormat(review, "sentinel-phase-review-bundle-manifest-v1")
  {
    hide PathOf, ArtifactPath, ReviewApproved, AllStamped, ReviewFormats, ReviewLinks, At, HasFormat, IsTimestamp,
      SummaryValue,
      SummarizeForReview;
  }

  /** What a decision record and a sign-off matrix say about the actions and the gaps. */
  predicate SignedOffExactly(env: Env, fs: FileSystem, dir: string) {
    var decision := Read(fs, env.decision, PathOf(env, dir, DECISION));
    var actions := Read(fs, env.actions, PathOf(env, dir, ACTIONS));
    var gaps := Read(fs, env.gaps, PathOf(env, dir, GAPS));
    var matrix := Read(fs, env.matrix, PathOf(env, dir, SIGNOFF));
    && decision.Some? && actions.Some? && gaps.Some? && matrix.Some?
    && (decision.value.decision == Signoffs.APPROVE
        <==> Signoffs.Pending(actions.value.actions) == [] && Signoffs.MissingIn(gaps.value.phases) == [])
    && matrix.value.ready
    && forall a | a in matrix.value.approvals ::
         a.status == if decision.value.decision == Signoffs.APPROVE then Signoffs.READY else Signoffs.BLOCKED
  }

  /** On no assumption about paths: in a ready gate the decision record approves closure exactly when no
      action is pending and no artifact is missing, and every approval is ready exactly then, and blocked
      otherwise. */
  lemma {:induction false} ReadyGateDecides(env: Env, w: World, c: Call)
    requires Ready(env, w, c)
    ensures SignedOffExactly(env, w.fs, c.dir)
  {
    hide Ready, WorkspaceValid, EvidencePackValid, AttachmentCheck, WaiverCheck, ReviewValid, ClosureValid, PathOf,
      RegeneratedGate,
      Signoffs.DecisionValid, Signoffs.MatrixValid, Signoffs.Pending, Signoffs.MissingIn;
    ReadyChecks(env, w, c);
    var gatePath, actionsPath := PathOf(env, c.dir, PHASE_GATE_REPORT), PathOf(env, c.dir, ACTIONS);
    var gapsPath, decisionPath := PathOf(env, c.dir, GAPS), PathOf(env, c.dir, DECISION);
    var decision, gate := Read(w.fs, env.decision, decisionPath).value, Read(w.fs, env.gate, gatePath).value;
    var actions, gaps := Read(w.fs, env.actions, actionsPath).value, Read(w.fs, env.gaps, gapsPath).value;
    var matrix := Read(w.fs, env.matrix, PathOf(env, c.dir, SIGNOFF)).value;
    Signoffs.ApprovalNeedsEverything(env.host, decision, gatePath, actionsPath, gapsPath, gate, actions, gaps);
    MatrixFollows(env.host, matrix, decisionPath, gatePath, actionsPath, gapsPath, decision, gate, actions, gaps);
  }

  lemma {:induction false} MatrixFollows(
      host: Host, matrix: Signoffs.Matrix, decisionPath: string, gatePath: string, actionsPath: string,
          gapsPath: string,
      decision: Signoffs.DecisionRecord, gate: Signoffs.PhaseGate, actions: Signoffs.ActionRegister,
          gaps: Signoffs.GapMatrix)
    requires Signoffs.DecisionValid(host, decision, gatePath, actionsPath, gapsPath, gate, actions, gaps)
    requires Signoffs.MatrixValid(host, matrix, decisionPath, actionsPath, decision, actions)
    ensures matrix.ready == gate.state.ready
    ensures forall a | a in matrix.approvals ::
              a.status == if decision.decision == Signoffs.APPROVE then Signoffs.READY else Signoffs.BLOCKED
  {
    hide Signoffs.Pending, Signoffs.MissingIn, IsTimestamp;
    Signoffs.SignoffAllOrNothing(
      host, matrix, decisionPath, gatePath, actionsPath, gapsPath, decision, gate, actions, gaps);
  }

  predicate Approves(env: Env, fs: FileSystem, dir: string) {
    var decision := Read(fs, env.decision, PathOf(env, dir, DECISION));
    decision.Some? && decision.value.decision == Signoffs.APPROVE
  }

  /** A ready gate whose review lists the gate's own decision record is signed off: the record approves
      closure, no action is pending, no artifact is missing, and every approval is ready. */
  lemma {:induction false} ReadyGateIsSignedOff(env: Env, w: World, c: Call)
    requires Ready(env, w, c) && ReviewsOwnDecision(env, w, c.dir)
    ensures SignedOffExactly(env, w.fs, c.dir) && Approves(env, w.fs, c.dir)
  {
    hide Ready, WorkspaceValid, EvidencePackValid, PhaseGateReportValid, AttachmentCheck, WaiverCheck, ReviewValid,
      ClosureValid, PathOf,
      ArtifactPath, At, HasFormat, LateBlockers, GateStops, GATE_FILES, CHECK_NAMES, CheckOk, DecisionCheck,
          SignoffCheck,
      SignedOffExactly;
    ReadyChecks(env, w, c);
    ReadyMeansAllChecks(env, w, c);
    NoLateBlocker(env, w, c);
    ReviewedDecision(env, w, c.dir);
    FormattedIsTruthy(Read(w.fs, env.json, PathOf(env, c.dir, REVIEW)), "sentinel-phase-review-bundle-manifest-v1");
    ReadyGateDecides(env, w, c);
  }
}
