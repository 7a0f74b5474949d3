/** The waiver register: one waiver for every missing file and every redaction finding. */
module Waivers {
  import opened Wrappers
  import opened Text
  import opened Files
  import opened Attachments

  datatype Waiver = Waiver(
    id: string, phase: string, title: string, ownerRole: string, blockerType: string,
    evidenceKey: Option<string>, evidenceKeys: seq<string>, commandScripts: seq<string>,
    waiverType: string, status: string, targetPath: string, reason: string, requiredApproval: string,
    expiresAt: Option<string>, approvalReference: Option<string>, compensatingControl: Option<string>)

  /** What a waiver must say, apart from its id and its approval. */
  datatype Draft = Draft(
    phase: string, title: string, ownerRole: string, blockerType: string,
    evidenceKey: Option<string>, evidenceKeys: seq<string>, commandScripts: seq<string>,
    waiverType: string, targetPath: string, finding: Option<Finding>)

  datatype RegisterSummary = RegisterSummary(
    waiverCount: nat, proposedCount: nat, approvedCount: nat, rejectedCount: nat,
    missingEvidenceCount: nat, redactionFindingCount: nat, commands: Commands)

  datatype Register = Register(
    format: string, generatedAt: string, inventoryPath: string, decisionPath: string,
    environment: string, owner: string, decision: string, summary: RegisterSummary, waivers: seq<Waiver>)

  const REGISTER_FORMAT := "sentinel-phase-waiver-register-v1"
  const MISSING := "missing-evidence"
  const FINDING := "redaction-finding"

  // ---------------------------------------------------------------- the expected waivers

  function DraftFor(a: Attachment, file: AttachedFile, finding: Option<Finding>): Draft {
    Draft(a.phase, a.title, a.ownerRole, a.blockerType, NonEmpty(file.evidenceKey),
          a.evidenceKeys, a.commandScripts, if finding == None then MISSING else FINDING, file.targetPath, finding)
  }

  /** One missing-evidence draft if the file is missing, then one draft per finding. */
  function FileDrafts(a: Attachment, file: AttachedFile): (drafts: seq<Draft>)
    ensures |drafts| == (if file.status == "missing" then 1 else 0) + |file.findings|
  {
    (if file.status == "missing" then [DraftFor(a, file, None)] else [])
    + seq(|file.findings|, k requires 0 <= k < |file.findings| => DraftFor(a, file, Some(file.findings[k])))
  }

  function FilesDrafts(a: Attachment, files: seq<AttachedFile>): seq<Draft> {
    if files == [] then []
    else FilesDrafts(a, files[..|files| - 1]) + FileDrafts(a, files[|files| - 1])
  }

  function Drafts(attachments: seq<Attachment>): seq<Draft> {
    if attachments == [] then []
    else
      var last := attachments[|attachments| - 1];
      Drafts(attachments[..|attachments| - 1]) + FilesDrafts(last, last.files)
  }

  /** Where the drafts of file j of attachment i start. */
  function Position(attachments: seq<Attachment>, i: nat, j: nat): nat
    requires i < |attachments| && j < |attachments[i].files|
  {
    |Drafts(attachments[..i])| + |FilesDrafts(attachments[i], attachments[i].files[..j])|
  }

  function SumMissing(attachments: seq<Attachment>): nat {
    if attachments == [] then 0
    else SumMissing(attachments[..|attachments| - 1]) + MissingCount(attachments[|attachments| - 1].files)
  }

  function SumFindings(attachments: seq<Attachment>): nat {
    if attachments == [] then 0
    else SumFindings(attachments[..|attachments| - 1]) + FindingCount(attachments[|attachments| - 1].files)
  }

  lemma {:induction false} CountSplit(files: seq<AttachedFile>, last: AttachedFile)
    ensures MissingCount(files + [last]) == MissingCount(files) + if last.status == "missing" then 1 else 0
    ensures FindingCount(files + [last]) == FindingCount(files) + |last.findings|
  {
    if files == [] {
      assert [] + [last] == [last];
      assert [last][1..] == [];
    } else {
      assert (files + [last])[1..] == files[1..] + [last];
      CountSplit(files[1..], last);
    }
  }

  lemma {:induction false} FilesDraftCount(a: Attachment, files: seq<AttachedFile>)
    ensures |FilesDrafts(a, files)| == MissingCount(files) + FindingCount(files)
  {
    hide FileDrafts;
    if files != [] {
      var n := |files| - 1;
      FilesDraftCount(a, files[..n]);
      CountSplit(files[..n], files[n]);
      assert files[..n] + [files[n]] == files;
    }
  }

  /** As many waivers as missing files and findings together. */
  lemma {:induction false} DraftCount(attachments: seq<Attachment>)
    ensures |Drafts(attachments)| == SumMissing(attachments) + SumFindings(attachments)
  {
    hide FilesDrafts;
    if attachments != [] {
      var last := attachments[|attachments| - 1];
      DraftCount(attachments[..|attachments| - 1]);
      FilesDraftCount(last, last.files);
    }
  }

  lemma {:induction false} FilesDraftsAt(a: Attachment, files: seq<AttachedFile>, j: nat)
    requires j < |files|
    ensures var start := |FilesDrafts(a, files[..j])|;
            && start + |FileDrafts(a, files[j])| <= |FilesDrafts(a, files)|
            && FilesDrafts(a, files)[start..start + |FileDrafts(a, files[j])|] == FileDrafts(a, files[j])
  {
    hide FileDrafts;
    var n := |files| - 1;
    if j < n {
      FilesDraftsAt(a, files[..n], j);
      assert files[..n][..j] == files[..j] && files[..n][j] == files[j];
    }
  }

  /** The drafts of a file are found, in order, at its position. */
  lemma {:induction false} DraftsAt(attachments: seq<Attachment>, i: nat, j: nat)
    requires i < |attachments| && j < |attachments[i].files|
    ensures var start := Position(attachments, i, j);
            var own := FileDrafts(attachments[i], attachments[i].files[j]);
            start + |own| <= |Drafts(attachments)| && Drafts(attachments)[start..start + |own|] == own
  {
    hide FileDrafts, FilesDrafts;
    var n := |attachments| - 1;
    if i < n {
      DraftsAt(attachments[..n], i, j);
      assert attachments[..n][..i] == attachments[..i] && attachments[..n][i] == attachments[i];
    } else {
      FilesDraftsAt(attachments[i], attachments[i].files, j);
      assert attachments[..i] == attachments[..n];
    }
  }

  /** Positions grow with the file order, by exactly the number of drafts in between. */
  lemma {:induction false} PositionsIncrease(attachments: seq<Attachment>, i: nat, j: nat, i': nat, j': nat)
    requires i < |attachments| && j < |attachments[i].files|
    requires i' < |attachments| && j' < |attachments[i'].files|
    requires i < i' || (i == i' && j < j')
    ensures Position(attachments, i, j) + |FileDrafts(attachments[i], attachments[i].files[j])|
            <= Position(attachments, i', j')
  {
    hide FileDrafts, FilesDrafts;
    if i == i' {
      FilesDraftsAt(attachments[i], attachments[i].files[..j'], j);
      assert attachments[i].files[..j'][..j] == attachments[i].files[..j];
    } else {
      DraftsAt(attachments[..i'], i, j);
      assert attachments[..i'][..i] == attachments[..i];
    }
  }

  /** The k-th draft is one of the drafts of file j of attachment i. */
  predicate Owns(attachments: seq<Attachment>, i: nat, j: nat, k: nat) {
    && i < |attachments| && j < |attachments[i].files|
    && var start := Position(attachments, i, j);
       start <= k < start + |FileDrafts(attachments[i], attachments[i].files[j])|
  }

  ghost predicate Owned(attachments: seq<Attachment>, k: nat) {
    exists i, j :: Owns(attachments, i, j, k)
  }

  lemma {:induction false} FilesDraftOwner(a: Attachment, files: seq<AttachedFile>, k: nat) returns (j: nat)
    requires k < |FilesDrafts(a, files)|
    ensures j < |files|
    ensures |FilesDrafts(a, files[..j])| <= k < |FilesDrafts(a, files[..j])| + |FileDrafts(a, files[j])|
  {
    hide FileDrafts;
    var n := |files| - 1;
    if k < |FilesDrafts(a, files[..n])| {
      j := FilesDraftOwner(a, files[..n], k);
      assert files[..n][..j] == files[..j];
    } else {
      j := n;
    }
  }

  /** Every draft belongs to a file. */
  lemma {:induction false} DraftOwner(attachments: seq<Attachment>, k: nat) returns (i: nat, j: nat)
    requires k < |Drafts(attachments)|
    ensures Owns(attachments, i, j, k)
  {
    hide FileDrafts, FilesDrafts;
    var n := |attachments| - 1;
    if k < |Drafts(attachments[..n])| {
      i, j := DraftOwner(attachments[..n], k);
      assert attachments[..n][..i] == attachments[..i];
    } else {
      i := n;
      j := FilesDraftOwner(attachments[n], attachments[n].files, k - |Drafts(attachments[..n])|);
    }
  }

  /** And to one file only. */
  lemma {:induction false} OneOwner(attachments: seq<Attachment>, k: nat, i: nat, j: nat, i': nat, j': nat)
    requires Owns(attachments, i, j, k) && Owns(attachments, i', j', k)
    ensures i == i' && j == j'
  {
    hide FileDrafts, FilesDrafts, Drafts, Position;
    if i < i' || (i == i' && j < j') {
      PositionsIncrease(attachments, i, j, i', j');
    } else if i' < i || (i == i' && j' < j) {
      PositionsIncrease(attachments, i', j', i, j);
    }
  }

  /** The validator's nested loops. */
  method BuildExpected(attachments: seq<Attachment>) returns (expected: seq<Draft>)
    ensures expected == Drafts(attachments)
  {
    hide FileDrafts, FilesDrafts, Drafts, DraftFor, PartialDrafts;
    expected := [];
    NoDrafts(attachments);
    for i := 0 to |attachments|
      invariant expected == Drafts(attachments[..i])
    {
      var a := attachments[i];
      ghost var done := expected;
      NoFileDrafts(a, done);
      for j := 0 to |a.files|
        invariant expected == done + FilesDrafts(a, a.files[..j])
      {
        var file := a.files[j];
        ghost var before := expected;
        NoFindings(a, file, before);
        if file.status == "missing" {
          expected := expected + [DraftFor(a, file, None)];
        }
        for k := 0 to |file.findings|
          invariant expected == before + PartialDrafts(a, file, k)
        {
          expected := expected + [DraftFor(a, file, Some(file.findings[k]))];
          FindingAdded(a, file, k, before);
        }
        FilesDraftsGrow(a, j, done);
      }
      assert a.files[..|a.files|] == a.files;
      DraftsGrow(attachments, i);
    }
    assert attachments[..|attachments|] == attachments;
  }

  // ---------------------------------------------------------------- the generator

  /** `WVR-${String(n).padStart(2, "0")}` */
  function WaiverId(n: nat): string {
    "WVR-" + PadTwo(Decimal(n))
  }

  /** Padded ids never repeat, however many waivers there are. */
  lemma {:induction false} WaiverIdsDistinct(a: nat, b: nat)
    requires a >= 1 && b >= 1 && WaiverId(a) == WaiverId(b)
    ensures a == b
  {
    assert WaiverId(a)[4..] == PadTwo(Decimal(a)) && WaiverId(b)[4..] == PadTwo(Decimal(b));
    PaddedInjective(a, b);
  }

  const MISSING_REASON := "Required evidence file has not been attached to the intake folder."

  function FindingReason(f: Finding): string {
    "Attachment triggered redaction rule " + f.rule + " on line " + Decimal(f.lineNumber) + "."
  }

  function Propose(n: nat, d: Draft): Waiver {
    Waiver(
      WaiverId(n), d.phase, d.title, d.ownerRole, d.blockerType, d.evidenceKey, d.evidenceKeys, d.commandScripts,
      d.waiverType, "proposed", d.targetPath,
      if d.finding.Some? then FindingReason(d.finding.value) else MISSING_REASON, "securityOwner",
      Some("replace-with-expiry-date"), Some("replace-with-change-or-risk-reference"),
      Some("replace-with-compensating-control"))
  }

  /** The proposed waivers for a list of drafts, numbered from one. */
  function ProposeAll(drafts: seq<Draft>): (waivers: seq<Waiver>)
    ensures |waivers| == |drafts|
    ensures forall k | 0 <= k < |drafts| :: waivers[k] == Propose(k + 1, drafts[k])
  {
    seq(|drafts|, k requires 0 <= k < |drafts| => Propose(k + 1, drafts[k]))
  }

  lemma {:induction false} ProposalGrows(drafts: seq<Draft>, d: Draft)
    ensures ProposeAll(drafts + [d]) == ProposeAll(drafts) + [Propose(|drafts| + 1, d)]
  {
    hide ProposeAll, Propose;
    var more := ProposeAll(drafts + [d]);
    assert forall k | 0 <= k < |drafts| :: more[k] == Propose(k + 1, drafts[k]);
  }

  /** The generator's nested loops: ids come from the number of waivers so far. */
  method PrepareWaivers(attachments: seq<Attachment>) returns (waivers: seq<Waiver>)
    ensures waivers == ProposeAll(Drafts(attachments))
  {
    hide FileDrafts, FilesDrafts, Drafts, ProposeAll;
    NoDrafts(attachments);
    waivers := [];
    assert ProposeAll([]) == [];
    for i := 0 to |attachments|
      invariant waivers == ProposeAll(Drafts(attachments[..i]))
    {
      var a := attachments[i];
      ghost var done := Drafts(attachments[..i]);
      NoFileDrafts(a, done);
      for j := 0 to |a.files|
        invariant waivers == ProposeAll(done + FilesDrafts(a, a.files[..j]))
      {
        waivers := PrepareForFile(a, a.files[j], waivers, done + FilesDrafts(a, a.files[..j]));
        FilesDraftsGrow(a, j, done);
      }
      assert a.files[..|a.files|] == a.files;
      DraftsGrow(attachments, i);
    }
    assert attachments[..|attachments|] == attachments;
  }

  /** The innermost part of the loops: pushes the waivers of one file. */
  method PrepareForFile(a: Attachment, file: AttachedFile, before: seq<Waiver>, ghost drafts: seq<Draft>)
    returns (waivers: seq<Waiver>)
    requires before == ProposeAll(drafts)
    ensures waivers == ProposeAll(drafts + FileDrafts(a, file))
  {
    hide ProposeAll, Propose, FileDrafts, DraftFor, PartialDrafts;
    waivers := before;
    NoFindings(a, file, drafts);
    if file.status == "missing" {
      ProposalGrows(drafts, DraftFor(a, file, None));
      waivers := waivers + [Propose(|waivers| + 1, DraftFor(a, file, None))];
    }
    for k := 0 to |file.findings|
      invariant waivers == ProposeAll(drafts + PartialDrafts(a, file, k))
    {
      var draft := DraftFor(a, file, Some(file.findings[k]));
      ProposalGrows(drafts + PartialDrafts(a, file, k), draft);
      waivers := waivers + [Propose(|waivers| + 1, draft)];
      FindingAdded(a, file, k, drafts);
    }
  }

  // ---------------------------------------------------------------- steps of the loops

  /** The drafts of a file after k of its findings. */
  ghost function PartialDrafts(a: Attachment, file: AttachedFile, k: nat): seq<Draft>
    requires k <= |file.findings|
  {
    (if file.status == "missing" then [DraftFor(a, file, None)] else [])
    + seq(k, n requires 0 <= n < k => DraftFor(a, file, Some(file.findings[n])))
  }

  lemma {:induction false} NoDrafts(attachments: seq<Attachment>)
    ensures Drafts(attachments[..0]) == []
  {
  }

  lemma {:induction false} NoFileDrafts(a: Attachment, done: seq<Draft>)
    ensures done + FilesDrafts(a, a.files[..0]) == done
  {
  }

  lemma {:induction false} NoFindings(a: Attachment, file: AttachedFile, before: seq<Draft>)
    ensures before + PartialDrafts(a, file, 0) == if file.status == "missing" then before + [DraftFor(a, file,
            None)] else before
    ensures PartialDrafts(a, file, |file.findings|) == FileDrafts(a, file)
  {
  }

  lemma {:induction false} FindingAdded(a: Attachment, file: AttachedFile, k: nat, before: seq<Draft>)
    requires k < |file.findings|
    ensures before + PartialDrafts(a, file, k) + [DraftFor(a, file, Some(file.findings[k]))]
         == before + PartialDrafts(a, file, k + 1)
  {
    hide DraftFor;
    var d := DraftFor(a, file, Some(file.findings[k]));
    assert PartialDrafts(a, file, k) + [d] == PartialDrafts(a, file, k + 1);
    assert before + PartialDrafts(a, file, k) + [d] == before + (PartialDrafts(a, file, k) + [d]);
  }

  lemma {:induction false} FilesDraftsGrow(a: Attachment, j: nat, done: seq<Draft>)
    requires j < |a.files|
    ensures done + FilesDrafts(a, a.files[..j + 1]) == done + FilesDrafts(a, a.files[..j]) + FileDrafts(a, a.files[j])
  {
    hide FileDrafts;
    var next := a.files[..j + 1];
    assert next[..|next| - 1] == a.files[..j] && next[|next| - 1] == a.files[j];
    assert done + (FilesDrafts(a, a.files[..j]) + FileDrafts(a, a.files[j]))
        == done + FilesDrafts(a, a.files[..j]) + FileDrafts(a, a.files[j]);
  }

  lemma {:induction false} DraftsGrow(attachments: seq<Attachment>, i: nat)
    requires i < |attachments|
    ensures Drafts(attachments[..i + 1]) == Drafts(attachments[..i]) + FilesDrafts(attachments[i], attachments[i].files)
  {
    hide FilesDrafts;
    var next := attachments[..i + 1];
    assert next[..|next| - 1] == attachments[..i] && next[|next| - 1] == attachments[i];
  }
}
