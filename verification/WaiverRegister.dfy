/** The waiver register as a document: prepared from an inventory, validated against it, and checked
    for approval by the register validator and again by the review and closure checks. */
module WaiverRegister {
  import opened Wrappers
  import opened Text
  import opened Files
  import opened Attachments
  import opened Waivers
  import opened Expiry
  import opened Counting
  import Signoffs

  function CountStatus(waivers: seq<Waiver>, status: string): nat {
    if waivers == [] then 0 else (if waivers[0].status == status then 1 else 0) + CountStatus(waivers[1..], status)
  }

  function CountType(waivers: seq<Waiver>, waiverType: string): nat {
    if waivers == [] then 0 else (if waivers[0].waiverType == waiverType then 1 else 0) + CountType(waivers[1..],
        waiverType)
  }

  function Summarize(waivers: seq<Waiver>, commands: Commands): RegisterSummary {
    RegisterSummary(
      |waivers|, CountStatus(waivers, "proposed"), CountStatus(waivers, "approved"), CountStatus(waivers, "rejected"),
      CountType(waivers, MISSING), CountType(waivers, FINDING), commands)
  }

  method PrepareRegister(
    inventory: Inventory, inventoryPath: string, decision: Signoffs.DecisionRecord, decisionPath: string,
    generatedAt: string) returns (register: Register)
    ensures register == PreparedRegister(inventory, inventoryPath, decision, decisionPath, generatedAt)
  {
    hide ProposeAll, Drafts;
    var waivers := PrepareWaivers(inventory.attachments);
    register := Register(
      REGISTER_FORMAT, generatedAt, inventoryPath, decisionPath, inventory.environment, inventory.owner,
      decision.decision, Summarize(waivers, inventory.commands), waivers);
  }

  function PreparedRegister(
    inventory: Inventory, inventoryPath: string, decision: Signoffs.DecisionRecord, decisionPath: string,
    generatedAt: string): Register
  {
    var waivers := ProposeAll(Drafts(inventory.attachments));
    Register(
      REGISTER_FORMAT, generatedAt, inventoryPath, decisionPath, inventory.environment, inventory.owner,
      decision.decision, Summarize(waivers, inventory.commands), waivers)
  }

  // ---------------------------------------------------------------- validation

  /** /replace-with/i */
  predicate IsPlaceholder(s: string) {
    exists i | 0 <= i < |s| :: StartsAt(s, i, "replace-with")
  }

  /** A waiver says what a draft demands, in place and in order. */
  predicate Answers(w: Waiver, n: nat, d: Draft) {
    && w.id == WaiverId(n)
    && w.phase == d.phase && w.title == d.title && w.ownerRole == d.ownerRole && w.blockerType == d.blockerType
    && w.evidenceKey == d.evidenceKey && w.evidenceKeys == d.evidenceKeys && w.commandScripts == d.commandScripts
    && w.waiverType == d.waiverType && w.targetPath == d.targetPath
    && w.status in {"proposed", "approved", "rejected"}
    && w.reason != "" && w.requiredApproval != ""
  }

  /** --require-approved. A reference that is absent or empty is not a placeholder. */
  predicate Approved(host: Host, now: int, w: Waiver) {
    && w.status == "approved"
    && !IsPlaceholder(w.approvalReference.GetOr("undefined"))
    && !IsPlaceholder(w.compensatingControl.GetOr("undefined"))
    && w.expiresAt.Some? && IsIsoDate(w.expiresAt.value)
    && host.dateParse(w.expiresAt.value).Some? && host.dateParse(w.expiresAt.value).value > now
  }

  predicate RegisterValid(
    host: Host, now: int, register: Register, inventory: Inventory, inventoryPath: string,
    decision: Signoffs.DecisionRecord, decisionPath: string, requireApproved: bool)
  {
    var expected := Drafts(inventory.attachments);
    && register.format == REGISTER_FORMAT && IsTimestamp(host, register.generatedAt)
    && inventory.format == INVENTORY_FORMAT && decision.format == Signoffs.DECISION_FORMAT
    && register.inventoryPath == inventoryPath && register.decisionPath == decisionPath
    && register.environment == inventory.environment && register.owner == inventory.owner
    && register.decision == decision.decision
    && |register.waivers| == |expected|
    && register.summary == Summarize(register.waivers, inventory.commands)
    && (forall k | 0 <= k < |expected| :: Answers(register.waivers[k], k + 1, expected[k]))
    && (requireApproved ==> forall k | 0 <= k < |expected| :: Approved(host, now, register.waivers[k]))
  }

  /** The validator as the script runs it: rebuild the expected waivers, then compare one by one. */
  method ValidateRegister(
    host: Host, now: int, register: Register, inventory: Inventory, inventoryPath: string,
    decision: Signoffs.DecisionRecord, decisionPath: string, requireApproved: bool) returns (valid: bool)
    ensures valid <==> RegisterValid(host, now, register, inventory, inventoryPath, decision, decisionPath,
            requireApproved)
  {
    hide Answers, Approved, Drafts, Summarize, IsTimestamp, REGISTER_FORMAT, INVENTORY_FORMAT;
    var expected := BuildExpected(inventory.attachments);
    valid := register.format == REGISTER_FORMAT && IsTimestamp(host, register.generatedAt)
      && inventory.format == INVENTORY_FORMAT && decision.format == Signoffs.DECISION_FORMAT
      && register.inventoryPath == inventoryPath && register.decisionPath == decisionPath
      && register.environment == inventory.environment && register.owner == inventory.owner
      && register.decision == decision.decision
      && |register.waivers| == |expected|
      && register.summary == Summarize(register.waivers, inventory.commands);
    if !valid {
      return;
    }
    for k := 0 to |register.waivers|
      invariant forall l | 0 <= l < k :: Answers(register.waivers[l], l + 1, expected[l])
      invariant requireApproved ==> forall l | 0 <= l < k :: Approved(host, now, register.waivers[l])
    {
      if !Answers(register.waivers[k], k + 1, expected[k]) || (requireApproved
          && !Approved(host, now, register.waivers[k])) {
        return false;
      }
    }
  }

  /** For every inventory the prepared register is accepted. */
  lemma {:induction false} PreparedRegisterValid(
      host: Host, now: int, inventory: Inventory, inventoryPath: string,
      decision: Signoffs.DecisionRecord, decisionPath: string, generatedAt: string)
    requires inventory.format == INVENTORY_FORMAT && decision.format == Signoffs.DECISION_FORMAT
    requires IsTimestamp(host, generatedAt)
    ensures RegisterValid(
      host, now, PreparedRegister(inventory, inventoryPath, decision, decisionPath, generatedAt),
      inventory, inventoryPath, decision, decisionPath, false)
  {
    hide Drafts, Summarize, IsTimestamp, Answers, Propose, Approved;
    var drafts := Drafts(inventory.attachments);
    forall k | 0 <= k < |drafts|
      ensures Answers(Propose(k + 1, drafts[k]), k + 1, drafts[k])
    {
      ProposalAnswers(k + 1, drafts[k]);
    }
  }

  lemma {:induction false} ProposalAnswers(n: nat, d: Draft)
    ensures Answers(Propose(n, d), n, d)
  {
    hide WaiverId;
    assert MISSING_REASON != "";
    if d.finding.Some? {
      assert FindingReason(d.finding.value) != "";
    }
  }

  /** In an accepted register the waivers and the missing files and findings correspond one to one, in
      order: each file finds its own waivers at its position, and every waiver belongs to a file. */
  lemma {:induction false} WaiversCorrespond(
      host: Host, now: int, register: Register, inventory: Inventory, inventoryPath: string,
      decision: Signoffs.DecisionRecord, decisionPath: string, requireApproved: bool)
    requires RegisterValid(host, now, register, inventory, inventoryPath, decision, decisionPath, requireApproved)
    ensures |register.waivers| == SumMissing(inventory.attachments) + SumFindings(inventory.attachments)
    ensures forall k, l | 0 <= k < l < |register.waivers| :: register.waivers[k].id != register.waivers[l].id
    ensures forall i, j | 0 <= i < |inventory.attachments| && 0 <= j < |inventory.attachments[i].files| ::
              FileWaived(register.waivers, inventory.attachments, i, j)
    ensures forall k | 0 <= k < |register.waivers| :: Owned(inventory.attachments, k)
  {
    hide Drafts, FilesDrafts, FileDrafts, Summarize, IsTimestamp, Approved, WaiverId, FileWaived, SumMissing,
      SumFindings, Owns;
    forall k | 0 <= k < |register.waivers|
      ensures Owned(inventory.attachments, k)
    {
      var i, j := DraftOwner(inventory.attachments, k);
    }
    DraftCount(inventory.attachments);
    forall k, l | 0 <= k < l < |register.waivers|
      ensures register.waivers[k].id != register.waivers[l].id
    {
      if WaiverId(k + 1) == WaiverId(l + 1) {
        WaiverIdsDistinct(k + 1, l + 1);
      }
    }
    forall i, j | 0 <= i < |inventory.attachments| && 0 <= j < |inventory.attachments[i].files|
      ensures FileWaived(register.waivers, inventory.attachments, i, j)
    {
      OwnWaivers(register.waivers, inventory.attachments, i, j);
    }
  }

  /** The waivers at a file's position answer exactly that file's drafts. */
  predicate FileWaived(waivers: seq<Waiver>, attachments: seq<Attachment>, i: nat, j: nat)
    requires i < |attachments| && j < |attachments[i].files|
  {
    var start := Position(attachments, i, j);
    var own := FileDrafts(attachments[i], attachments[i].files[j]);
    && start + |own| <= |waivers|
    && forall k | 0 <= k < |own| :: Answers(waivers[start + k], start + k + 1, own[k])
  }

  lemma {:induction false} OwnWaivers(waivers: seq<Waiver>, attachments: seq<Attachment>, i: nat, j: nat)
    requires i < |attachments| && j < |attachments[i].files|
    requires |waivers| == |Drafts(attachments)|
    requires forall k | 0 <= k < |waivers| :: Answers(waivers[k], k + 1, Drafts(attachments)[k])
    ensures FileWaived(waivers, attachments, i, j)
  {
    hide Drafts, FilesDrafts, FileDrafts, Answers, Position;
    DraftsAt(attachments, i, j);
    var start := Position(attachments, i, j);
    var own := FileDrafts(attachments[i], attachments[i].files[j]);
    forall k | 0 <= k < |own|
      ensures Answers(waivers[start + k], start + k + 1, own[k])
    {
      assert Drafts(attachments)[start..start + |own|][k] == Drafts(attachments)[start + k];
    }
  }

  // ---------------------------------------------------------------- what is proposed

  /** The waiver proposed for a file, for this reason. */
  predicate Proposes(w: Waiver, a: Attachment, file: AttachedFile, waiverType: string, reason: string) {
    && w.waiverType == waiverType && w.reason == reason && w.status == "proposed"
    && w.phase == a.phase && w.title == a.title && w.ownerRole == a.ownerRole && w.blockerType == a.blockerType
    && w.evidenceKeys == a.evidenceKeys && w.commandScripts == a.commandScripts
    && w.targetPath == file.targetPath
    && w.evidenceKey == (if file.evidenceKey == Some("") then None else file.evidenceKey)
    && w.requiredApproval == "securityOwner" && w.expiresAt == Some("replace-with-expiry-date")
    && w.approvalReference == Some("replace-with-change-or-risk-reference")
    && w.compensatingControl == Some("replace-with-compensating-control")
  }

  /** At a file's position the prepared register proposes a waiver for the missing file, if it is missing, and then
      one for each of its findings, in order, with its rule and line. */
  lemma {:induction false} ProposedForFile(
      inventory: Inventory, inventoryPath: string, decision: Signoffs.DecisionRecord, decisionPath: string,
      generatedAt: string, i: nat, j: nat)
    requires i < |inventory.attachments| && j < |inventory.attachments[i].files|
    ensures var waivers := PreparedRegister(inventory, inventoryPath, decision, decisionPath, generatedAt).waivers;
            var a, file := inventory.attachments[i], inventory.attachments[i].files[j];
            var start, missing := Position(inventory.attachments, i, j), if file.status == "missing" then 1 else 0;
            && start + missing + |file.findings| <= |waivers|
            && (missing == 1 ==>
                  Proposes(waivers[start], a, file, "missing-evidence",
                           "Required evidence file has not been attached to the intake folder."))
            && forall k | 0 <= k < |file.findings| ::
                 Proposes(waivers[start + missing + k], a, file, "redaction-finding",
                          "Attachment triggered redaction rule " + file.findings[k].rule + " on line "
                          + Decimal(file.findings[k].lineNumber) + ".")
  {
    hide Drafts, FileDrafts, Position, Proposes, Summarize, Propose, DraftFor;
    var a, file := inventory.attachments[i], inventory.attachments[i].files[j];
    var start, missing := Position(inventory.attachments, i, j), if file.status == "missing" then 1 else 0;
    DraftsOfFile(a, file);
    ProposedAt(inventory.attachments, i, j);
    if missing == 1 {
      MissingProposed(start + 1, a, file);
    }
    forall k | 0 <= k < |file.findings|
      ensures Proposes(ProposeAll(Drafts(inventory.attachments))[start + missing + k], a, file, "redaction-finding",
                       "Attachment triggered redaction rule " + file.findings[k].rule + " on line "
                       + Decimal(file.findings[k].lineNumber) + ".")
    {
      FindingProposed(start + missing + k + 1, a, file, file.findings[k]);
    }
  }

  lemma {:induction false} DraftsOfFile(a: Attachment, file: AttachedFile)
    ensures var own, missing := FileDrafts(a, file), if file.status == "missing" then 1 else 0;
            && (missing == 1 ==> own[0] == DraftFor(a, file, None))
            && forall k | 0 <= k < |file.findings| :: own[missing + k] == DraftFor(a, file, Some(file.findings[k]))
  {
    hide DraftFor;
  }

  lemma {:induction false} ProposedAt(attachments: seq<Attachment>, i: nat, j: nat)
    requires i < |attachments| && j < |attachments[i].files|
    ensures var own, start := FileDrafts(attachments[i], attachments[i].files[j]), Position(attachments, i, j);
            && start + |own| <= |Drafts(attachments)|
            && forall k | 0 <= k < |own| :: ProposeAll(Drafts(attachments))[start + k] == Propose(start + k + 1, own[k])
  {
    hide Drafts, FileDrafts, Position, Propose;
    DraftsAt(attachments, i, j);
    var own, start := FileDrafts(attachments[i], attachments[i].files[j]), Position(attachments, i, j);
    assert forall k | 0 <= k < |own| :: own[k] == Drafts(attachments)[start..start + |own|][k];
  }

  lemma {:induction false} MissingProposed(n: nat, a: Attachment, file: AttachedFile)
    ensures Proposes(Propose(n, DraftFor(a, file, None)), a, file, "missing-evidence",
                     "Required evidence file has not been attached to the intake folder.")
  {
    hide WaiverId;
  }

  lemma {:induction false} FindingProposed(n: nat, a: Attachment, file: AttachedFile, f: Finding)
    ensures Proposes(Propose(n, DraftFor(a, file, Some(f))), a, file, "redaction-finding",
                     "Attachment triggered redaction rule " + f.rule + " on line " + Decimal(f.lineNumber) + ".")
  {
    hide WaiverId, Decimal;
  }

  // ---------------------------------------------------------------- the validator against the generator

  /** A waiver that agrees with a proposed one apart from what its approvers fill in. */
  predicate WaiverAlike(w: Waiver, proposed: Waiver) {
    && proposed == w.(status := proposed.status, reason := proposed.reason,
                      requiredApproval := proposed.requiredApproval, expiresAt := proposed.expiresAt,
                      approvalReference := proposed.approvalReference,
                      compensatingControl := proposed.compensatingControl)
    && w.status in {"proposed", "approved", "rejected"} && w.reason != "" && w.requiredApproval != ""
  }

  predicate RegistersAlike(register: Register, generated: Register) {
    && generated == register.(summary := generated.summary, waivers := generated.waivers)
    && register.summary == Summarize(register.waivers, generated.summary.commands)
    && |register.waivers| == |generated.waivers|
    && forall k | 0 <= k < |register.waivers| :: WaiverAlike(register.waivers[k], generated.waivers[k])
  }

  /** The validator accepts exactly the registers that the generator would write from the same inventory and decision
      at the same time, apart from status, reason, approval and expiry of the waivers, and the counts of these. */
  lemma {:induction false} RegisterExactly(
      host: Host, now: int, register: Register, inventory: Inventory, inventoryPath: string,
      decision: Signoffs.DecisionRecord, decisionPath: string)
    ensures RegisterValid(host, now, register, inventory, inventoryPath, decision, decisionPath, false) <==>
            && inventory.format == "sentinel-phase-attachment-inventory-v1"
            && decision.format == "sentinel-phase-decision-record-v1"
            && register.format == "sentinel-phase-waiver-register-v1" && IsTimestamp(host, register.generatedAt)
            && RegistersAlike(register,
                 PreparedRegister(inventory, inventoryPath, decision, decisionPath, register.generatedAt))
  {
    hide Drafts, Summarize, IsTimestamp, Answers, Propose, Approved, WaiverAlike;
    var drafts := Drafts(inventory.attachments);
    if |register.waivers| == |drafts| {
      forall k | 0 <= k < |drafts|
        ensures Answers(register.waivers[k], k + 1, drafts[k]) <==>
                WaiverAlike(register.waivers[k], Propose(k + 1, drafts[k]))
      {
        AnswersExactly(register.waivers[k], k + 1, drafts[k]);
      }
    }
    SummaryCommands(ProposeAll(drafts), inventory.commands);
  }

  lemma {:induction false} SummaryCommands(waivers: seq<Waiver>, commands: Commands)
    ensures Summarize(waivers, commands).commands == commands
  {
  }

  lemma {:induction false} AnswersExactly(w: Waiver, n: nat, d: Draft)
    ensures Answers(w, n, d) <==> WaiverAlike(w, Propose(n, d))
  {
    hide WaiverId, FindingReason;
  }

  function WithStatus(waivers: seq<Waiver>, status: string): set<int> {
    set k | 0 <= k < |waivers| && waivers[k].status == status
  }

  lemma {:induction false} CountsAppend(waivers: seq<Waiver>, last: Waiver, name: string)
    ensures CountStatus(waivers + [last], name) == CountStatus(waivers, name) + if last.status == name then 1 else 0
    ensures CountType(waivers + [last], name) == CountType(waivers, name) + if last.waiverType == name then 1 else 0
  {
    if waivers == [] {
      assert [] + [last] == [last];
      assert [last][1..] == [];
    } else {
      assert (waivers + [last])[1..] == waivers[1..] + [last];
      CountsAppend(waivers[1..], last, name);
    }
  }

  lemma {:induction false} NoneCounted(name: string)
    ensures CountStatus([], name) == 0 && CountType([], name) == 0
  {
  }

  lemma {:induction false} WithStatusLast(waivers: seq<Waiver>, name: string)
    requires waivers != []
    ensures var last := waivers[|waivers| - 1];
            |WithStatus(waivers, name)| == |WithStatus(waivers[..|waivers| - 1], name)|
              + if last.status == name then 1 else 0
  {
    var n := |waivers| - 1;
    OneMore(WithStatus(waivers, name), WithStatus(waivers[..n], name), n, waivers[n].status == name);
  }

  lemma {:induction false} StatusCounted(waivers: seq<Waiver>, name: string)
    ensures CountStatus(waivers, name) == |WithStatus(waivers, name)|
  {
    hide CountStatus;
    if waivers == [] {
      NoneCounted(name);
      assert WithStatus(waivers, name) == {};
    } else {
      var n := |waivers| - 1;
      StatusCounted(waivers[..n], name);
      CountsAppend(waivers[..n], waivers[n], name);
      assert waivers[..n] + [waivers[n]] == waivers;
      hide WithStatus;
      WithStatusLast(waivers, name);
    }
  }

  /** Every waiver is counted under its status and under its type. */
  lemma {:induction false} CountsPartition(waivers: seq<Waiver>)
    requires forall w | w in waivers :: w.status in {"proposed", "approved", "rejected"}
    requires forall w | w in waivers :: w.waiverType in {MISSING, FINDING}
    ensures CountStatus(waivers, "proposed") + CountStatus(waivers, "approved") + CountStatus(waivers, "rejected")
            == |waivers|
    ensures CountType(waivers, MISSING) + CountType(waivers, FINDING) == |waivers|
  {
    if waivers != [] {
      assert waivers[0] in waivers;
      CountsPartition(waivers[1..]);
    }
  }

  /** The drafts for missing files among these. */
  function MissingDrafts(drafts: seq<Draft>): nat {
    if drafts == [] then 0
    else MissingDrafts(drafts[..|drafts| - 1]) + if drafts[|drafts| - 1].waiverType == MISSING then 1 else 0
  }

  lemma {:induction false} MissingDraftsAppend(a: seq<Draft>, b: seq<Draft>)
    ensures MissingDrafts(a + b) == MissingDrafts(a) + MissingDrafts(b)
  {
    if b == [] {
      assert a + b == a;
    } else {
      var n := |b| - 1;
      assert (a + b)[..|a + b| - 1] == a + b[..n];
      MissingDraftsAppend(a, b[..n]);
    }
  }

  lemma {:induction false} NoMissingDrafts(drafts: seq<Draft>)
    requires forall d | d in drafts :: d.waiverType == FINDING
    ensures MissingDrafts(drafts) == 0
  {
    if drafts != [] {
      assert drafts[|drafts| - 1] in drafts;
      NoMissingDrafts(drafts[..|drafts| - 1]);
    }
  }

  lemma {:induction false} OneMissingDraft(d: Draft)
    ensures MissingDrafts([]) == 0
    ensures MissingDrafts([d]) == if d.waiverType == MISSING then 1 else 0
  {
    assert [d][..0] == [];
  }

  lemma {:induction false} FileMissingDrafts(a: Attachment, file: AttachedFile)
    ensures MissingDrafts(FileDrafts(a, file)) == if file.status == "missing" then 1 else 0
    ensures forall d | d in FileDrafts(a, file) :: d.waiverType in {MISSING, FINDING}
  {
    hide MissingDrafts;
    var findings := seq(|file.findings|, k requires 0 <= k < |file.findings| =>
      DraftFor(a, file, Some(file.findings[k])));
    var missing := if file.status == "missing" then [DraftFor(a, file, None)] else [];
    assert FileDrafts(a, file) == missing + findings;
    MissingDraftsAppend(missing, findings);
    NoMissingDrafts(findings);
    OneMissingDraft(DraftFor(a, file, None));
  }

  lemma {:induction false} FilesMissingDrafts(a: Attachment, files: seq<AttachedFile>)
    ensures MissingDrafts(FilesDrafts(a, files)) == MissingCount(files)
    ensures forall d | d in FilesDrafts(a, files) :: d.waiverType in {MISSING, FINDING}
  {
    hide FileDrafts, MISSING, FINDING;
    if files != [] {
      var n := |files| - 1;
      FilesMissingDrafts(a, files[..n]);
      FileMissingDrafts(a, files[n]);
      MissingDraftsAppend(FilesDrafts(a, files[..n]), FileDrafts(a, files[n]));
      CountSplit(files[..n], files[n]);
      assert files[..n] + [files[n]] == files;
    }
  }

  lemma {:induction false} MissingDraftCount(attachments: seq<Attachment>)
    ensures MissingDrafts(Drafts(attachments)) == SumMissing(attachments)
    ensures forall d | d in Drafts(attachments) :: d.waiverType in {MISSING, FINDING}
  {
    hide FilesDrafts, MISSING, FINDING;
    if attachments != [] {
      var last := attachments[|attachments| - 1];
      MissingDraftCount(attachments[..|attachments| - 1]);
      FilesMissingDrafts(last, last.files);
      MissingDraftsAppend(Drafts(attachments[..|attachments| - 1]), FilesDrafts(last, last.files));
    }
  }

  lemma {:induction false} TypesCounted(waivers: seq<Waiver>, drafts: seq<Draft>)
    requires |waivers| == |drafts|
    requires forall k | 0 <= k < |waivers| :: waivers[k].waiverType == drafts[k].waiverType
    ensures CountType(waivers, MISSING) == MissingDrafts(drafts)
  {
    hide MISSING, CountType;
    if waivers == [] {
      NoneCounted(MISSING);
    } else {
      var n := |waivers| - 1;
      TypesCounted(waivers[..n], drafts[..n]);
      CountsAppend(waivers[..n], waivers[n], MISSING);
      assert waivers[..n] + [waivers[n]] == waivers;
    }
  }

  /** The summary of an accepted register adds up in three ways: to the waivers, by their status and by their type;
      and to what the inventory counts as missing files and as findings. */
  lemma {:induction false} SummaryAddsUp(
      host: Host, now: int, register: Register, inventory: Inventory, inventoryPath: string,
      decision: Signoffs.DecisionRecord, decisionPath: string, requireApproved: bool)
    requires RegisterValid(host, now, register, inventory, inventoryPath, decision, decisionPath, requireApproved)
    ensures var s := register.summary;
            && s.waiverCount == |register.waivers| && s.commands == inventory.commands
            && s.proposedCount + s.approvedCount + s.rejectedCount == s.waiverCount
            && s.missingEvidenceCount + s.redactionFindingCount == s.waiverCount
            && s.missingEvidenceCount == SumMissing(inventory.attachments)
            && s.redactionFindingCount == SumFindings(inventory.attachments)
            && s.proposedCount == |WithStatus(register.waivers, "proposed")|
            && s.approvedCount == |WithStatus(register.waivers, "approved")|
    ensures requireApproved ==> register.summary.approvedCount == register.summary.waiverCount
  {
    hide Drafts, IsTimestamp, WaiverId, MISSING, FINDING, SumMissing, SumFindings, CountStatus, CountType;
    var drafts := Drafts(inventory.attachments);
    MissingDraftCount(inventory.attachments);
    DraftCount(inventory.attachments);
    TypesCounted(register.waivers, drafts);
    assert forall k | 0 <= k < |drafts| :: drafts[k] in drafts;
    CountsPartition(register.waivers);
    StatusCounted(register.waivers, "proposed");
    StatusCounted(register.waivers, "approved");
    if requireApproved {
      AllApproved(register.waivers);
    }
  }

  lemma {:induction false} AllApproved(waivers: seq<Waiver>)
    requires forall w | w in waivers :: w.status == "approved"
    ensures CountStatus(waivers, "approved") == |waivers|
  {
    if waivers != [] {
      assert waivers[0] in waivers;
      AllApproved(waivers[1..]);
    }
  }

  // ---------------------------------------------------------------- approval, asked twice

  /** The stricter question of the review bundle and closure checks: the references must be there, and
      the expiry date must come after today's date as a string. */
  predicate ReviewApproved(today: string, w: Waiver) {
    && w.status == "approved"
    && IsIsoDate(w.expiresAt.GetOr("")) && Less(today, w.expiresAt.GetOr(""))
    && NonEmpty(w.approvalReference).Some? && !IsPlaceholder(w.approvalReference.value)
    && NonEmpty(w.compensatingControl).Some? && !IsPlaceholder(w.compensatingControl.value)
  }

  /** The register validator accepts an approval without any reference: dropping the references of an
      accepted register keeps it accepted, although the review check then refuses every waiver. */
  lemma {:induction false} ReferencesMayBeMissing(
      host: Host, now: int, today: string, register: Register, inventory: Inventory, inventoryPath: string,
      decision: Signoffs.DecisionRecord, decisionPath: string)
    requires RegisterValid(host, now, register, inventory, inventoryPath, decision, decisionPath, true)
    ensures var bare := register.(waivers := WithoutReferences(register.waivers));
            && RegisterValid(host, now, bare, inventory, inventoryPath, decision, decisionPath, true)
            && forall w | w in bare.waivers :: !ReviewApproved(today, w)
  {
    hide Drafts, IsTimestamp, WaiverId, IsIsoDate, Less;
    var bare := WithoutReferences(register.waivers);
    SameCounts(register.waivers);
    UndefinedIsNoPlaceholder();
  }

  function WithoutReferences(waivers: seq<Waiver>): (r: seq<Waiver>)
    ensures |r| == |waivers|
    ensures forall k | 0 <= k < |r| :: r[k] == waivers[k].(approvalReference := None, compensatingControl := None)
  {
    if waivers == [] then []
    else [waivers[0].(approvalReference := None, compensatingControl := None)] + WithoutReferences(waivers[1..])
  }

  lemma {:induction false} SameCounts(waivers: seq<Waiver>)
    ensures forall s: string :: CountStatus(WithoutReferences(waivers), s) == CountStatus(waivers, s)
    ensures forall t: string :: CountType(WithoutReferences(waivers), t) == CountType(waivers, t)
  {
    if waivers != [] {
      SameCounts(waivers[1..]);
      assert WithoutReferences(waivers)[1..] == WithoutReferences(waivers[1..]);
    }
  }

  lemma {:induction false} UndefinedIsNoPlaceholder()
    ensures !IsPlaceholder("undefined")
  {
  }

  /** On calendar dates the two approval questions differ in nothing but the references. */
  lemma {:induction false} ApprovalsCompared(host: Host, now: int, today: Date, expiry: Date, w: Waiver)
    requires Calendar(expiry) && IsToday(today, now) && w.expiresAt == Some(Format(expiry))
    requires host.dateParse(Format(expiry)) == Some(Timestamp(expiry))
    ensures ReviewApproved(Format(today), w) <==>
            && Approved(host, now, w)
            && NonEmpty(w.approvalReference).Some? && NonEmpty(w.compensatingControl).Some?
  {
    hide Format, Timestamp, IsPlaceholder, Less;
    FormatIsIsoDate(expiry);
    ExpiryTestsCoincide(expiry, today, now);
  }

  // ---------------------------------------------------------------- the packaged waiver summary

  datatype WaiverSummary = WaiverSummary(waiverCount: nat, proposedCount: nat, approvedCount: nat, expiredCount: nat)

  /** waiver.expiresAt <= today: never true of an absent date. */
  predicate Expired(w: Waiver, today: string) {
    w.expiresAt.Some? && AtMost(w.expiresAt.value, today)
  }

  function CountExpired(waivers: seq<Waiver>, today: string): nat {
    if waivers == [] then 0 else (if Expired(waivers[0], today) then 1 else 0) + CountExpired(waivers[1..], today)
  }

  function SummarizeForReview(waivers: seq<Waiver>, today: string): WaiverSummary {
    WaiverSummary(|waivers|, CountStatus(waivers, "proposed"), CountStatus(waivers, "approved"),
        CountExpired(waivers, today))
  }

  function ExpiredAt(waivers: seq<Waiver>, today: string): set<int> {
    set k | 0 <= k < |waivers| && waivers[k].expiresAt.Some? && AtMost(waivers[k].expiresAt.value, today)
  }

  lemma {:induction false} ExpiredAppend(waivers: seq<Waiver>, last: Waiver, today: string)
    ensures CountExpired(waivers + [last], today)
            == CountExpired(waivers, today) + if Expired(last, today) then 1 else 0
  {
    hide AtMost;
    if waivers == [] {
      assert [] + [last] == [last];
      assert [last][1..] == [];
    } else {
      assert (waivers + [last])[1..] == waivers[1..] + [last];
      ExpiredAppend(waivers[1..], last, today);
    }
  }

  lemma {:induction false} ExpiredLast(waivers: seq<Waiver>, today: string)
    requires waivers != []
    ensures var n := |waivers| - 1;
            |ExpiredAt(waivers, today)|
            == |ExpiredAt(waivers[..n], today)| + if Expired(waivers[n], today) then 1 else 0
  {
    hide AtMost;
    var n := |waivers| - 1;
    OneMore(ExpiredAt(waivers, today), ExpiredAt(waivers[..n], today), n, Expired(waivers[n], today));
  }

  lemma {:induction false} ExpiredCounted(waivers: seq<Waiver>, today: string)
    ensures CountExpired(waivers, today) == |ExpiredAt(waivers, today)|
  {
    hide AtMost, Expired;
    if waivers == [] {
      assert ExpiredAt(waivers, today) == {};
    } else {
      hide CountExpired, ExpiredAt;
      var n := |waivers| - 1;
      ExpiredCounted(waivers[..n], today);
      ExpiredAppend(waivers[..n], waivers[n], today);
      ExpiredLast(waivers, today);
      assert waivers[..n] + [waivers[n]] == waivers;
    }
  }

  /** The packaged summary counts all waivers, the proposed ones, the approved ones, and those whose expiry date has
      come, whatever their status. */
  lemma {:induction false} SummaryCounts(waivers: seq<Waiver>, today: string)
    ensures var s := SummarizeForReview(waivers, today);
            && s.waiverCount == |waivers| && s.expiredCount == |ExpiredAt(waivers, today)|
            && s.proposedCount == |WithStatus(waivers, "proposed")|
            && s.approvedCount == |WithStatus(waivers, "approved")|
  {
    ExpiredCounted(waivers, today);
    StatusCounted(waivers, "proposed");
    StatusCounted(waivers, "approved");
    hide CountStatus, CountExpired, WithStatus, ExpiredAt;
  }

  /** A review manifest packaged on one day still matches on a later day exactly when no waiver expires
      after the first and up to the second. */
  lemma {:induction false} SummaryHoldsUntilExpiry(waivers: seq<Waiver>, packaged: string, checked: string)
    requires AtMost(packaged, checked)
    ensures SummarizeForReview(waivers, packaged) == SummarizeForReview(waivers, checked) <==>
            forall w | w in waivers && w.expiresAt.Some? ::
              !(Less(packaged, w.expiresAt.value) && AtMost(w.expiresAt.value, checked))
  {
    ExpiredGrows(waivers, packaged, checked);
  }

  lemma {:induction false} ExpiredGrows(waivers: seq<Waiver>, packaged: string, checked: string)
    requires AtMost(packaged, checked)
    ensures CountExpired(waivers, packaged) <= CountExpired(waivers, checked)
    ensures CountExpired(waivers, packaged) == CountExpired(waivers, checked) <==>
            forall w | w in waivers && w.expiresAt.Some? ::
              !(Less(packaged, w.expiresAt.value) && AtMost(w.expiresAt.value, checked))
  {
    hide Less;
    if waivers != [] {
      ExpiredGrows(waivers[1..], packaged, checked);
      var w := waivers[0];
      assert waivers == [w] + waivers[1..];
      if w.expiresAt.Some? {
        var e := w.expiresAt.value;
        LessTotal(packaged, checked);
        LessTotal(e, packaged);
        LessTotal(e, checked);
        if Less(checked, e) && Less(packaged, checked) {
          LessTransitive(packaged, checked, e);
        }
        if Less(packaged, checked) && Less(e, packaged) {
          LessTransitive(e, packaged, checked);
        }
      }
    }
  }
}
