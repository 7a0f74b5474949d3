/** Every release of the family is ready, and this settles when a ready gate guarantees references. */
module ReadyRelease {
  import opened Wrappers
  import opened Text
  import opened Json
  import opened Files
  import opened Attachments
  import opened Waivers
  import opened Expiry
  import opened WaiverRegister
  import opened EvidenceChain
  import opened ReleaseGate
  import opened ReleaseSafety
  import opened ReleaseFamily
  import Signoffs
  import Keys

  // ---------------------------------------------------------------- places and stamps

  lemma {:induction false} Places(s: Setting)
    ensures forall name :: PathOf(EnvOf(s), DIR, name) == P(name)
    ensures EnvOf(s).host.resolve("", TEMPLATE_PATH) == Template() && EnvOf(s).host.resolve("", DIR) == DIR
    ensures forall base, name :: EnvOf(s).host.resolve(base, P(name)) == P(name)
  {
    EnvFacts(s);
    hide EnvOf;
    forall base, name
      ensures EnvOf(s).host.resolve(base, P(name)) == P(name)
    {
      ResolvedIsAbsolute(DIR, name);
    }
  }

  lemma {:induction false} PathsNonEmpty(s: Setting, path: string)
    requires path in Paths(s) && Free(s.reviewed)
    ensures path != ""
  {
    hide Resolve, GATE_FILES, PACK_ARTIFACTS, REVIEW_ARTIFACTS, PackFile, ReviewFile, TEMPLATE_PATH, DIR;
    if path == "" {
      assert forall d, p :: Resolve(d, p) != "" by {
        forall d, p ensures Resolve(d, p) != "" { ResolvedIsAbsolute(d, p); }
      }
    }
  }

  lemma {:induction false} EntryFields(s: Setting, path: string)
    ensures var e := Some(Entry(s, path));
            && At(e, ["path"]) == Some(Str(path)) && At(e, ["bytes"]) == Some(Number(|s.content(path)| as real))
            && At(e, ["sha256"]) == Some(Str(s.sha256(s.content(path))))
  {
    OneStep(Entry(s, path), "path");
    OneStep(Entry(s, path), "bytes");
    OneStep(Entry(s, path), "sha256");
  }

  lemma {:induction false} EntryStamped(s: Setting, path: string)
    requires Plausible(s) && path in Paths(s)
    ensures Stamped(HostOf(s), Fs(s), Some(Entry(s, path)), path) && TextAt(Some(Entry(s, path)), ["path"]) == path
  {
    hide Paths, Entry, At, Fs, EnvOf, Free, IsDigest, P;
    PathsNonEmpty(s, path);
    EntryFields(s, path);
    Contents(s, path);
  }

  // ---------------------------------------------------------------- the workspace

  lemma {:induction false} BundleFields(s: Setting)
    ensures var b := Some(BundleDoc(s));
            && HasFormat(b, BUNDLE_FORMAT) && At(b, ["environment"]) == Some(Str("prod"))
            && At(b, ["status"]) == Some(Str("production")) && At(b, ["owner"]) == Some(Str("ops"))
            && EvidenceNames(b) == s.evidence.Keys
            && forall n | n in s.evidence :: At(b, ["evidence", n]) == Some(Str(P(s.evidence[n])))
  {
    var b := BundleDoc(s);
    hide At, P, BUNDLE_FORMAT;
    OneStep(b, "format");
    OneStep(b, "environment");
    OneStep(b, "status");
    OneStep(b, "owner");
    OneStep(b, "evidence");
    forall n | n in s.evidence
      ensures At(Some(b), ["evidence", n]) == Some(Str(P(s.evidence[n])))
    {
      TwoSteps(b, "evidence", n);
    }
  }

  lemma {:induction false} WorkspaceHead(s: Setting)
    ensures var m := Some(WorkspaceDoc(s));
            && HasFormat(m, WORKSPACE_FORMAT) && TextAt(m, ["generatedAt"]) == NOW
            && At(m, ["environment"]) == Some(Str("prod")) && At(m, ["status"]) == Some(Str("production"))
            && At(m, ["owner"]) == Some(Str("ops")) && TextAt(m, ["outputDir"]) == DIR
  {
    var m := WorkspaceDoc(s);
    hide At, P, Entry, WORKSPACE_FORMAT, NOW, DIR;
    OneStep(m, "format");
    OneStep(m, "generatedAt");
    OneStep(m, "environment");
    OneStep(m, "status");
    OneStep(m, "owner");
    OneStep(m, "outputDir");
  }

  lemma {:induction false} WorkspaceEntries(s: Setting)
    ensures var m := Some(WorkspaceDoc(s));
            && At(m, ["bundle"]) == Some(Entry(s, P(BUNDLE))) && At(m, ["readme"]) == Some(Entry(s, P(README)))
            && TextAt(m, ["bundle", "path"]) == P(BUNDLE) && EvidenceNames(m) == s.evidence.Keys
            && forall n | n in s.evidence :: At(m, ["evidence", n]) == Some(Entry(s, P(s.evidence[n])))
  {
    var m := WorkspaceDoc(s);
    EntryFields(s, P(BUNDLE));
    OneStep(Entry(s, P(BUNDLE)), "path");
    hide At, P, Entry, WORKSPACE_FORMAT, NOW, DIR;
    OneStep(m, "bundle");
    OneStep(m, "readme");
    OneStep(m, "evidence");
    TwoSteps(m, "bundle", "path");
    forall n | n in s.evidence
      ensures At(Some(m), ["evidence", n]) == Some(Entry(s, P(s.evidence[n])))
    {
      TwoSteps(m, "evidence", n);
    }
  }

  lemma {:induction false} WorkspaceStamp(s: Setting, where: seq<string>, name: string)
    requires Plausible(s) && P(name) in Paths(s) && At(Some(WorkspaceDoc(s)), where) == Some(Entry(s, P(name)))
    ensures WorkspaceStamped(EnvOf(s), Fs(s), Some(WorkspaceDoc(s)), where)
    ensures WorkspacePath(EnvOf(s), Some(WorkspaceDoc(s)), At(Some(WorkspaceDoc(s)), where)) == P(name)
  {
    hide At, TextAt, P, Entry, WorkspaceDoc, Paths, EnvOf, Fs, Stamped, Plausible, HostOf, WorkspaceDir;
    Places(s);
    EnvFacts(s);
    EntryStamped(s, P(name));
  }

  lemma {:induction false} HelperFiles(s: Setting)
    ensures P(README) in Paths(s) && forall n | n in s.evidence :: P(s.evidence[n]) in Paths(s)
  {
    hide P, GATE_FILES, PACK_ARTIFACTS, REVIEW_ARTIFACTS, README;
  }

  lemma {:induction false} Dates(s: Setting)
    requires Plausible(s)
    ensures IsTimestamp(EnvOf(s).host, NOW) && IsTimestamp(HostOf(s), NOW)
  {
    EnvFacts(s);
    hide EnvOf, Free, IsDigest, Paths, P;
  }

  lemma {:induction false} WorkspaceAgrees(s: Setting)
    ensures var m, b := Some(WorkspaceDoc(s)), Some(BundleDoc(s));
            && HasFormat(m, "sentinel-deployment-evidence-workspace-manifest-v1")
            && HasFormat(b, "sentinel-deployment-evidence-bundle-v1")
            && TextAt(m, ["environment"]) != "" && TextAt(m, ["status"]) != "" && TextAt(m, ["owner"]) != ""
            && TextAt(m, ["outputDir"]) != ""
            && At(b, ["environment"]) == At(m, ["environment"]) && At(b, ["status"]) == At(m, ["status"])
            && At(b, ["owner"]) == At(m, ["owner"]) && EvidenceNames(m) == EvidenceNames(b)
  {
    hide At, WorkspaceDoc, BundleDoc, HasFormat, EvidenceNames, P, Entry;
    BundleFields(s);
    WorkspaceHead(s);
    WorkspaceEntries(s);
  }

  lemma {:induction false} EvidenceStamps(s: Setting)
    requires Plausible(s)
    ensures var env, m, b := EnvOf(s), Some(WorkspaceDoc(s)), Some(BundleDoc(s));
            forall name | name in EvidenceNames(m) ::
              && WorkspaceStamped(env, Fs(s), m, ["evidence", name])
              && WorkspacePath(env, m, At(m, ["evidence", name]))
                 == env.host.resolve(WorkspaceDir(env, m), TextAt(b, ["evidence", name]))
  {
    hide At, WorkspaceDoc, BundleDoc, EvidenceNames, P, Entry, EnvOf, Fs, Plausible, WorkspaceDir, WorkspaceStamped,
      WorkspacePath, HasFormat, Paths;
    BundleFields(s);
    WorkspaceEntries(s);
    Places(s);
    HelperFiles(s);
    forall n | n in s.evidence
      ensures WorkspaceStamped(EnvOf(s), Fs(s), Some(WorkspaceDoc(s)), ["evidence", n])
      ensures WorkspacePath(EnvOf(s), Some(WorkspaceDoc(s)), At(Some(WorkspaceDoc(s)), ["evidence", n]))
           == P(s.evidence[n])
    {
      WorkspaceStamp(s, ["evidence", n], s.evidence[n]);
    }
  }

  lemma {:induction false} WorkspaceReady(s: Setting)
    requires Plausible(s)
    ensures WorkspaceValid(EnvOf(s), Fs(s), P(WORKSPACE_MANIFEST), P(BUNDLE))
  {
    EvidenceFiles();
    hide At, TextAt, P, Entry, WorkspaceDoc, BundleDoc, Paths, EnvOf, Fs, Plausible, HostOf, WorkspaceDir,
      WorkspaceStamped, WorkspacePath, EvidenceNames, IsTimestamp, Read, HasFormat, Template, TEMPLATE_PATH, DIR, NOW,
      WORKSPACE_MANIFEST, BUNDLE, README, IsGateFile, WORKSPACE_FORMAT, BUNDLE_FORMAT;
    ReadManifests(s);
    Places(s);
    Dates(s);
    HelperFiles(s);
    OnDisk(s, BUNDLE);
    WorkspaceHead(s);
    WorkspaceAgrees(s);
    WorkspaceEntries(s);
    WorkspaceStamp(s, ["bundle"], BUNDLE);
    WorkspaceStamp(s, ["readme"], README);
    EvidenceStamps(s);
  }

  // ---------------------------------------------------------------- the evidence pack

  /** An artifact of a manifest whose artifacts are these entries. */
  lemma {:induction false} ArtifactOf(s: Setting, doc: Value, entries: map<string, Value>, name: string, path: string)
    requires Plausible(s) && path in Paths(s)
    requires Get(doc, "artifacts") == Some(Object(entries)) && name in entries && entries[name] == Entry(s, path)
    ensures ArtifactPath(Some(doc), name) == path
    ensures Stamped(HostOf(s), Fs(s), Artifact(Some(doc), name), ArtifactPath(Some(doc), name))
  {
    hide At, Entry, Stamped, Plausible, HostOf, Fs, Paths;
    TwoSteps(doc, "artifacts", name);
    EntryStamped(s, path);
  }

  lemma {:induction false} PackEntries(s: Setting)
    ensures Get(PackDoc(s), "artifacts") == Some(Object(map n | n in PACK_ARTIFACTS :: Entry(s, P(PackFile(n)))))
  {
    hide PACK_ARTIFACTS, PackFile, Entry, PACK_FORMAT, NOW, P;
  }

  lemma {:induction false} PackArtifact(s: Setting, name: string)
    requires Plausible(s) && name in PACK_ARTIFACTS
    ensures ArtifactPath(Some(PackDoc(s)), name) == P(PackFile(name))
    ensures Stamped(HostOf(s), Fs(s), Artifact(Some(PackDoc(s)), name), ArtifactPath(Some(PackDoc(s)), name))
  {
    hide PACK_ARTIFACTS, GATE_FILES, REVIEW_ARTIFACTS, PackFile, Entry, Artifact, ArtifactPath, Stamped, Plausible,
      HostOf, Fs, P, PackDoc, Template, ReviewFile;
    assert P(PackFile(name)) in Paths(s);
    var entries := map n | n in PACK_ARTIFACTS :: Entry(s, P(PackFile(n)));
    PackEntries(s);
    hide Paths;
    ArtifactOf(s, PackDoc(s), entries, name, P(PackFile(name)));
  }

  lemma {:induction false} PackNames()
    ensures "phaseReadiness" in PACK_ARTIFACTS && "deploymentWorkspaceManifest" in PACK_ARTIFACTS
    ensures "deploymentRedaction" in PACK_ARTIFACTS && "deploymentBundle" in PACK_ARTIFACTS
    ensures "phaseCompletionAudit" in PACK_ARTIFACTS && "externalRequests" in PACK_ARTIFACTS
    ensures "phaseHandoffChecklist" in PACK_ARTIFACTS
  {
    var p := PACK_ARTIFACTS;
    assert p[9] == "phaseReadiness" && p[0] == "deploymentWorkspaceManifest" && p[3] == "deploymentRedaction";
    assert p[1] == "deploymentBundle" && p[7] == "phaseCompletionAudit" && p[5] == "externalRequests";
    assert p[11] == "phaseHandoffChecklist" && |p| == 12;
    hide PACK_ARTIFACTS;
  }

  lemma {:induction false} PackTargets()
    ensures PackFile("phaseReadiness") == READINESS && PackFile("deploymentWorkspaceManifest") == WORKSPACE_MANIFEST
    ensures PackFile("deploymentRedaction") == REDACTION_REPORT && PackFile("deploymentBundle") == BUNDLE
    ensures PackFile("phaseCompletionAudit") == COMPLETION && PackFile("externalRequests") == REQUESTS
    ensures PackFile("phaseHandoffChecklist") == HANDOFF
  {
    hide READINESS, WORKSPACE_MANIFEST, REDACTION_REPORT, BUNDLE, COMPLETION, REQUESTS, HANDOFF;
  }

  lemma {:induction false} PackPaths(s: Setting)
    requires Plausible(s)
    ensures var m := Some(PackDoc(s));
            && ArtifactPath(m, "phaseReadiness") == P(READINESS)
            && ArtifactPath(m, "deploymentWorkspaceManifest") == P(WORKSPACE_MANIFEST)
            && ArtifactPath(m, "deploymentRedaction") == P(REDACTION_REPORT)
            && ArtifactPath(m, "deploymentBundle") == P(BUNDLE)
            && ArtifactPath(m, "phaseCompletionAudit") == P(COMPLETION)
            && ArtifactPath(m, "externalRequests") == P(REQUESTS)
            && ArtifactPath(m, "phaseHandoffChecklist") == P(HANDOFF)
    ensures AllStamped(HostOf(s), Fs(s), Some(PackDoc(s)), PACK_ARTIFACTS)
  {
    hide ArtifactPath, Artifact, PackDoc, Stamped, Plausible, HostOf, Fs, P, PACK_ARTIFACTS, PackFile, READINESS,
      WORKSPACE_MANIFEST, REDACTION_REPORT, BUNDLE, COMPLETION, REQUESTS, HANDOFF;
    PackNames();
    PackTargets();
    forall n | n in PACK_ARTIFACTS
      ensures ArtifactPath(Some(PackDoc(s)), n) == P(PackFile(n))
      ensures Stamped(HostOf(s), Fs(s), Artifact(Some(PackDoc(s)), n), ArtifactPath(Some(PackDoc(s)), n))
    {
      PackArtifact(s, n);
    }
  }

  lemma {:induction false} PackFields(s: Setting)
    ensures var m := Some(PackDoc(s));
            && HasFormat(m, PACK_FORMAT) && TextAt(m, ["generatedAt"]) == NOW
            && At(m, ["environment"]) == Some(Str("prod")) && At(m, ["target"]) == Some(Str("production"))
            && At(m, ["bundleStatus"]) == Some(Str("production")) && At(m, ["ready"]) == Some(Bool(true))
  {
    var m := PackDoc(s);
    hide At, Entry, PACK_ARTIFACTS, PackFile, PACK_FORMAT, NOW, P;
    OneStep(m, "format");
    OneStep(m, "generatedAt");
    OneStep(m, "environment");
    OneStep(m, "target");
    OneStep(m, "bundleStatus");
    OneStep(m, "ready");
  }

  lemma {:induction false} ReportFields(s: Setting)
    ensures var r, d := Some(ReadinessDoc(s)), Some(RedactionDoc(s));
            && HasFormat(r, READINESS_FORMAT) && At(r, ["target"]) == Some(Str("production"))
            && At(r, ["ready"]) == Some(Bool(true)) && At(r, ["bundle", "environment"]) == Some(Str("prod"))
            && At(r, ["bundle", "status"]) == Some(Str("production"))
            && HasFormat(d, REDACTION_FORMAT) && TextAt(d, ["bundle"]) == P(BUNDLE)
  {
    var r, d := ReadinessDoc(s), RedactionDoc(s);
    hide At, P, READINESS_FORMAT, REDACTION_FORMAT, BUNDLE;
    OneStep(r, "format");
    OneStep(r, "target");
    OneStep(r, "ready");
    TwoSteps(r, "bundle", "environment");
    TwoSteps(r, "bundle", "status");
    OneStep(d, "format");
    OneStep(d, "bundle");
  }

  lemma {:induction false} PackAgrees(s: Setting)
    ensures var m, r, d, w := Some(PackDoc(s)), Some(ReadinessDoc(s)), Some(RedactionDoc(s)), Some(WorkspaceDoc(s));
            && HasFormat(m, "sentinel-phase-evidence-pack-manifest-v1")
            && HasFormat(r, "sentinel-phase-readiness-report-v1")
            && HasFormat(w, "sentinel-deployment-evidence-workspace-manifest-v1")
            && HasFormat(d, "sentinel-deployment-redaction-report-v1")
            && At(w, ["environment"]) == At(r, ["bundle", "environment"])
            && At(w, ["status"]) == At(r, ["bundle", "status"])
            && At(m, ["environment"]) == At(r, ["bundle", "environment"]) && At(m, ["target"]) == At(r, ["target"])
            && At(m, ["bundleStatus"]) == At(r, ["bundle", "status"]) && At(m, ["ready"]) == At(r, ["ready"])
  {
    hide At, HasFormat, PackDoc, ReadinessDoc, RedactionDoc, WorkspaceDoc, TextAt, P;
    PackFields(s);
    ReportFields(s);
    WorkspaceHead(s);
  }

  lemma {:induction false} PackReady(s: Setting)
    requires Plausible(s)
    ensures EvidencePackValid(EnvOf(s), Fs(s), P(PACK))
  {
    hide At, TextAt, P, PackDoc, ReadinessDoc, RedactionDoc, WorkspaceDoc, BundleDoc, ReviewDoc, ClosureDoc, EnvOf,
      Fs, Plausible, HostOf, Read, HasFormat, AllStamped, ArtifactPath, PACK_ARTIFACTS, PACK, READINESS,
      WORKSPACE_MANIFEST, REDACTION_REPORT, BUNDLE, IsTimestamp, NOW, Template, READINESS_FORMAT, REDACTION_FORMAT,
      PACK_FORMAT, Entry;
    ReadManifests(s);
    Places(s);
    EnvFacts(s);
    Dates(s);
    PackPaths(s);
    PackAgrees(s);
    PackFields(s);
    ReportFields(s);
    WorkspaceEntries(s);
  }

  /** The saved phase gate report is the regenerated one. */
  lemma {:induction false} PhaseGateReady(s: Setting)
    requires Plausible(s)
    ensures PhaseGateReportValid(EnvOf(s), WorldOf(s), DIR)
  {
    hide At, TextAt, P, PackDoc, ReadinessDoc, RedactionDoc, WorkspaceDoc, BundleDoc, ReviewDoc, ClosureDoc,
      EnvOf, Fs, Plausible, HostOf, Read, HasFormat, AllStamped, ArtifactPath, PACK, READINESS, IntakeDoc,
      InventoryDoc, DecisionDoc, ActionsDoc, GapsDoc, MatrixDoc, OwnRegister, ReviewedRegister, DIR, Commit, TODAY,
      Signoffs.GATE_FORMAT, WORKSPACE_MANIFEST, REDACTION_REPORT, BUNDLE, COMPLETION, REQUESTS, HANDOFF,
      PHASE_GATE_REPORT, NOW, PathOf, Template, IsGateFile, Paths;
    EvidenceFiles();
    ReadManifests(s);
    ReadDocuments(s);
    Places(s);
    EnvFacts(s);
    PackPaths(s);
    PackAgrees(s);
    OnDisk(s, WORKSPACE_MANIFEST);
    OnDisk(s, BUNDLE);
    OnDisk(s, REQUESTS);
    OnDisk(s, COMPLETION);
    OnDisk(s, READINESS);
    OnDisk(s, HANDOFF);
  }

  // ---------------------------------------------------------------- the documents

  lemma {:induction false} Linked(s: Setting)
    ensures Signoffs.InputsLinked(P(PHASE_GATE_REPORT), GateDoc(), ActionsDoc(s), GapsDoc(s))
    ensures GapsDoc(s).environment != "" && GapsDoc(s).owner != "" && GapsDoc(s).status != ""
    ensures ActionsDoc(s).commands.scripts == GapsDoc(s).commands.scripts
  {
    hide P, PHASE_GATE_REPORT, PACK, Signoffs.GATE_FORMAT, Signoffs.REGISTER_FORMAT, Signoffs.GAP_FORMAT;
  }

  lemma {:induction false} DecisionReady(s: Setting)
    requires Plausible(s)
    ensures Signoffs.DecisionValid(HostOf(s), DecisionDoc(s), P(PHASE_GATE_REPORT), P(ACTIONS), P(GAPS),
                                   GateDoc(), ActionsDoc(s), GapsDoc(s))
  {
    hide Signoffs.DecisionValid, Signoffs.PrepareDecision, Signoffs.InputsLinked, P, NOW, HostOf, Plausible,
      PHASE_GATE_REPORT, ACTIONS, GAPS, IsTimestamp, GateDoc, ActionsDoc, GapsDoc;
    Dates(s);
    Linked(s);
    Signoffs.PreparedDecisionValid(HostOf(s), P(PHASE_GATE_REPORT), P(ACTIONS), P(GAPS), NOW, GateDoc(), ActionsDoc(s),
                                   GapsDoc(s));
  }

  lemma {:induction false} MatrixReady(s: Setting)
    requires Plausible(s)
    ensures Signoffs.MatrixValid(HostOf(s), MatrixDoc(s), P(DECISION), P(ACTIONS), DecisionDoc(s), ActionsDoc(s))
  {
    hide Signoffs.DecisionValid, Signoffs.MatrixValid, Signoffs.PrepareMatrix, P, NOW, HostOf, Plausible, DecisionDoc,
      GateDoc, ActionsDoc, GapsDoc, DECISION, ACTIONS, GAPS, PHASE_GATE_REPORT, IsTimestamp;
    DecisionReady(s);
    Dates(s);
    Signoffs.PreparedMatrixValid(HostOf(s), P(DECISION), P(PHASE_GATE_REPORT), P(ACTIONS), P(GAPS), NOW, DecisionDoc(s),
                                 GateDoc(), ActionsDoc(s), GapsDoc(s));
  }

  lemma {:induction false} InventoryReady(s: Setting)
    requires Plausible(s)
    ensures InventoryValid(HostOf(s), Fs(s), InventoryDoc(s), IntakeDoc(s), P(INTAKE_FILE), false, true)
  {
    hide InventoryValid, PrepareInventory, P, NOW, Fs, Paths, INTAKE_FILE, SIGNOFF, GAPS, IsTimestamp, EnvOf, DIR,
      Plausible, HostOf;
    Dates(s);
    forall i, j | 0 <= i < |s.items| && 0 <= j < |s.items[i].expectedFiles|
      ensures var path := HostOf(s).resolve(DIR, s.items[i].expectedFiles[j].targetPath);
              path in Fs(s) ==> HostOf(s).scan(Fs(s)[path]) == []
    {
      ExpectedFileClean(s, i, j);
    }
    PreparedInventoryValid(HostOf(s), Fs(s), DIR, P(INTAKE_FILE), IntakeDoc(s), NOW, false, true);
  }

  lemma {:induction false} ExpectedFileClean(s: Setting, i: nat, j: nat)
    requires Plausible(s) && i < |s.items| && j < |s.items[i].expectedFiles|
    ensures var path := HostOf(s).resolve(DIR, s.items[i].expectedFiles[j].targetPath);
            path == Target(s, i, j) && (path in Fs(s) ==> path in Paths(s) && HostOf(s).scan(Fs(s)[path]) == [])
  {
    hide Resolve, Paths, DIR, Free, IsDigest, OnePathEach, Signoffs.Pending, Signoffs.MissingIn;
    assert Clean(s, Target(s, i, j));
  }

  lemma {:induction false} ExpiryFacts()
    ensures IsIsoDate(EXPIRY) && Less(TODAY, EXPIRY)
  {
  }

  lemma {:induction false} WaiverApproved(s: Setting, w: Waiver)
    requires Plausible(s) && w.status == "approved" && w.expiresAt == Some(EXPIRY)
    requires w.approvalReference == Some("CHG-1") && w.compensatingControl == Some("manual review")
    ensures Approved(HostOf(s), WorldOf(s).now, w) && ReviewApproved(TODAY, w)
  {
    WaiverReferences(w);
    ExpiryFacts();
    hide IsPlaceholder, IsIsoDate, Less, Free, P, Paths, IsDigest, Fs, Commit, EXPIRY, TODAY, NOW;
  }

  lemma {:induction false} NotPlaceholder()
    ensures !IsPlaceholder("manual review")
  {
    var s := "manual review";
    assert |s| == 13 && s[0] == 'm' && s[1] == 'a';
    assert LowerChar("replace-with"[0]) == 'r';
  }

  lemma {:induction false} ReviewedWaivers(s: Setting)
    requires Plausible(s)
    ensures forall w | w in ReviewedRegister(s).waivers ::
              Approved(HostOf(s), WorldOf(s).now, w) && ReviewApproved(TODAY, w) && HasReferences(w)
  {
    hide Approved, ReviewApproved, HasReferences, PreparedRegister, Summarize, Plausible, HostOf, WorldOf, TODAY,
      EXPIRY, P, InventoryDoc, DecisionDoc, NOW, INVENTORY_FILE, DECISION;
    forall k | 0 <= k < |ReviewedRegister(s).waivers|
      ensures Approved(HostOf(s), WorldOf(s).now, ReviewedRegister(s).waivers[k])
      ensures ReviewApproved(TODAY, ReviewedRegister(s).waivers[k]) && HasReferences(ReviewedRegister(s).waivers[k])
    {
      WaiverApproved(s, ReviewedRegister(s).waivers[k]);
      WaiverReferences(ReviewedRegister(s).waivers[k]);
    }
  }

  /** Approving every waiver of an accepted register keeps it accepted. */
  lemma {:induction false} ApprovedRegisterValid(
      host: Host, now: int, prepared: Register, inventory: Inventory, inventoryPath: string,
      decision: Signoffs.DecisionRecord, decisionPath: string)
    requires RegisterValid(host, now, prepared, inventory, inventoryPath, decision, decisionPath, false)
    requires forall w | w in ApproveWaivers(prepared.waivers) :: Approved(host, now, w)
    ensures var waivers := ApproveWaivers(prepared.waivers);
            RegisterValid(host, now, prepared.(waivers := waivers, summary := Summarize(waivers, inventory.commands)),
                          inventory, inventoryPath, decision, decisionPath, true)
  {
    hide Drafts, IsTimestamp, Approved, Summarize, WaiverId, ApproveWaivers;
  }

  lemma {:induction false} ReviewedRegisterReady(s: Setting)
    requires Plausible(s)
    ensures RegisterValid(HostOf(s), WorldOf(s).now, ReviewedRegister(s), InventoryDoc(s), P(INVENTORY_FILE),
                          DecisionDoc(s), P(DECISION), true)
    ensures forall w | w in ReviewedRegister(s).waivers :: ReviewApproved(TODAY, w)
    ensures forall w | w in ReviewedRegister(s).waivers :: HasReferences(w)
  {
    hide IsTimestamp, Approved, ReviewApproved, Summarize, RegisterValid, PreparedRegister, ApproveWaivers, Plausible,
      P, HostOf, WorldOf, INVENTORY_FILE, DECISION, NOW, TODAY, HasReferences, InventoryDoc, DecisionDoc;
    Dates(s);
    ReviewedWaivers(s);
    DocumentFormats(s);
    PreparedRegisterValid(HostOf(s), WorldOf(s).now, InventoryDoc(s), P(INVENTORY_FILE), DecisionDoc(s), P(DECISION),
                          NOW);
    InventoryPlace(s);
    ApprovedRegisterValid(
      HostOf(s), WorldOf(s).now,
      PreparedRegister(InventoryDoc(s), P(INVENTORY_FILE), DecisionDoc(s), P(DECISION), NOW), InventoryDoc(s),
      P(INVENTORY_FILE), DecisionDoc(s), P(DECISION));
  }

  lemma {:induction false} InventoryPlace(s: Setting)
    ensures InventoryDoc(s).evidenceDir == DIR && InventoryDoc(s).commands == s.commands
  {
    hide P, Fs, NOW, INTAKE_FILE;
  }

  lemma {:induction false} WaiverReferences(w: Waiver)
    requires w.approvalReference == Some("CHG-1") && w.compensatingControl == Some("manual review")
    ensures HasReferences(w)
  {
    assert !IsPlaceholder("CHG-1");
    NotPlaceholder();
    hide IsPlaceholder;
  }

  lemma {:induction false} OwnRegisterReady(s: Setting)
    requires Plausible(s)
    ensures RegisterValid(HostOf(s), WorldOf(s).now, OwnRegister(s), InventoryDoc(s), P(INVENTORY_FILE),
                          DecisionDoc(s), P(DECISION), true)
  {
    hide RegisterValid, ReviewedRegister, HostOf, WorldOf, InventoryDoc, DecisionDoc, P, INVENTORY_FILE, DECISION,
      Plausible, HasReferences, REGISTER_FILE, TODAY;
    ReviewedRegisterReady(s);
    ReferencesMayBeMissing(HostOf(s), WorldOf(s).now, TODAY, ReviewedRegister(s), InventoryDoc(s), P(INVENTORY_FILE),
                           DecisionDoc(s), P(DECISION));
  }

  lemma {:induction false} DocumentChecks(s: Setting)
    requires Plausible(s)
    ensures DecisionCheck(EnvOf(s), Fs(s), DIR) && SignoffCheck(EnvOf(s), Fs(s), DIR)
    ensures AttachmentCheck(EnvOf(s), Fs(s), DIR) && WaiverCheck(EnvOf(s), WorldOf(s), DIR)
  {
    hide P, EnvOf, Fs, Plausible, HostOf, Read, PathOf, DIR, Signoffs.DecisionValid, Signoffs.MatrixValid,
      InventoryValid, RegisterValid, IntakeDoc, InventoryDoc, DecisionDoc, ActionsDoc, GapsDoc, GateDoc, MatrixDoc,
      OwnRegister, ReviewedRegister, DECISION, PHASE_GATE_REPORT, ACTIONS, GAPS, SIGNOFF, INTAKE_FILE, INVENTORY_FILE,
      REGISTER_FILE, Commit, TODAY, NOW;
    ReadDocuments(s);
    Places(s);
    EnvFacts(s);
    DecisionReady(s);
    MatrixReady(s);
    InventoryReady(s);
    OwnRegisterReady(s);
  }

  // ---------------------------------------------------------------- the review bundle

  lemma {:induction false} ReviewEntries(s: Setting)
    ensures Get(ReviewDoc(s), "artifacts")
            == Some(Object(map n | n in REVIEW_ARTIFACTS :: Entry(s, ReviewedAt(s, n))))
  {
    hide REVIEW_ARTIFACTS, ReviewedAt, Entry, REVIEW_FORMAT, NOW, ReviewFields;
  }

  lemma {:induction false} ReviewArtifact(s: Setting, name: string)
    requires Plausible(s) && name in REVIEW_ARTIFACTS
    ensures ArtifactPath(Some(ReviewDoc(s)), name) == ReviewedAt(s, name)
    ensures Stamped(HostOf(s), Fs(s), Artifact(Some(ReviewDoc(s)), name), ArtifactPath(Some(ReviewDoc(s)), name))
  {
    hide REVIEW_ARTIFACTS, GATE_FILES, PACK_ARTIFACTS, ReviewedAt, Entry, Artifact, ArtifactPath, Stamped, Plausible,
      HostOf, Fs, P, ReviewDoc, Template, PackFile;
    assert ReviewedAt(s, name) in Paths(s);
    var entries := map n | n in REVIEW_ARTIFACTS :: Entry(s, ReviewedAt(s, n));
    ReviewEntries(s);
    hide Paths;
    ArtifactOf(s, ReviewDoc(s), entries, name, ReviewedAt(s, name));
  }

  lemma {:induction false} ReviewNames()
    ensures "phaseEvidenceManifest" in REVIEW_ARTIFACTS && "phaseGateValidation" in REVIEW_ARTIFACTS
    ensures "phaseActionRegister" in REVIEW_ARTIFACTS && "phaseGapMatrix" in REVIEW_ARTIFACTS
    ensures "phaseDecisionRecord" in REVIEW_ARTIFACTS && "phaseSignoffMatrix" in REVIEW_ARTIFACTS
    ensures "phaseEvidenceIntake" in REVIEW_ARTIFACTS && "phaseAttachmentInventory" in REVIEW_ARTIFACTS
    ensures "phaseWaiverRegister" in REVIEW_ARTIFACTS
  {
    var r := REVIEW_ARTIFACTS;
    assert r[0] == "phaseEvidenceManifest" && r[1] == "phaseGateValidation" && r[3] == "phaseActionRegister";
    assert r[5] == "phaseGapMatrix" && r[7] == "phaseDecisionRecord" && r[9] == "phaseSignoffMatrix";
    assert r[11] == "phaseEvidenceIntake" && r[13] == "phaseAttachmentInventory" && r[15] == "phaseWaiverRegister";
    assert |r| == 17;
    hide REVIEW_ARTIFACTS;
  }

  lemma {:induction false} ReviewTargets(s: Setting)
    ensures ReviewedAt(s, "phaseEvidenceManifest") == P(PACK)
    ensures ReviewedAt(s, "phaseGateValidation") == P(PHASE_GATE_REPORT)
    ensures ReviewedAt(s, "phaseActionRegister") == P(ACTIONS) && ReviewedAt(s, "phaseGapMatrix") == P(GAPS)
    ensures ReviewedAt(s, "phaseDecisionRecord") == P(DECISION) && ReviewedAt(s, "phaseSignoffMatrix") == P(SIGNOFF)
    ensures ReviewedAt(s, "phaseEvidenceIntake") == P(INTAKE_FILE)
    ensures ReviewedAt(s, "phaseAttachmentInventory") == P(INVENTORY_FILE)
    ensures ReviewedAt(s, "phaseWaiverRegister") == s.reviewed
  {
    hide P, PACK, PHASE_GATE_REPORT, ACTIONS, GAPS, DECISION, SIGNOFF, INTAKE_FILE, INVENTORY_FILE;
  }

  lemma {:induction false} ReviewPaths(s: Setting)
    requires Plausible(s)
    ensures var r := Some(ReviewDoc(s));
            && ArtifactPath(r, "phaseEvidenceManifest") == P(PACK)
            && ArtifactPath(r, "phaseGateValidation") == P(PHASE_GATE_REPORT)
            && ArtifactPath(r, "phaseActionRegister") == P(ACTIONS) && ArtifactPath(r, "phaseGapMatrix") == P(GAPS)
            && ArtifactPath(r, "phaseDecisionRecord") == P(DECISION)
            && ArtifactPath(r, "phaseSignoffMatrix") == P(SIGNOFF)
            && ArtifactPath(r, "phaseEvidenceIntake") == P(INTAKE_FILE)
            && ArtifactPath(r, "phaseAttachmentInventory") == P(INVENTORY_FILE)
            && ArtifactPath(r, "phaseWaiverRegister") == s.reviewed
    ensures AllStamped(HostOf(s), Fs(s), Some(ReviewDoc(s)), REVIEW_ARTIFACTS)
  {
    hide REVIEW_ARTIFACTS, ReviewedAt, ReviewDoc, Artifact, ArtifactPath, Stamped, Fs, HostOf, P, Plausible, PACK,
      PHASE_GATE_REPORT, ACTIONS, GAPS, DECISION, SIGNOFF, INTAKE_FILE, INVENTORY_FILE;
    ReviewNames();
    ReviewTargets(s);
    forall n | n in REVIEW_ARTIFACTS
      ensures ArtifactPath(Some(ReviewDoc(s)), n) == ReviewedAt(s, n)
      ensures Stamped(HostOf(s), Fs(s), Artifact(Some(ReviewDoc(s)), n), ArtifactPath(Some(ReviewDoc(s)), n))
    {
      ReviewArtifact(s, n);
    }
  }

  function Documents(s: Setting): Reviewed {
    Reviewed(GateDoc(), ActionsDoc(s), GapsDoc(s), DecisionDoc(s), MatrixDoc(s), IntakeDoc(s), InventoryDoc(s),
             ReviewedRegister(s))
  }

  lemma {:induction false} DocumentsRead(s: Setting)
    requires Plausible(s)
    ensures ReadReviewed(EnvOf(s), Fs(s), Some(ReviewDoc(s))) == Some(Documents(s))
  {
    hide ArtifactPath, ReviewDoc, P, Read, EnvOf, Fs, Plausible, HostOf, AllStamped, IntakeDoc, InventoryDoc,
      DecisionDoc, ActionsDoc, GapsDoc, GateDoc, MatrixDoc, OwnRegister, ReviewedRegister, PACK, PHASE_GATE_REPORT,
      ACTIONS, GAPS, DECISION, SIGNOFF, INTAKE_FILE, INVENTORY_FILE, REGISTER_FILE, REVIEW_ARTIFACTS;
    ReviewPaths(s);
    ReadDocuments(s);
  }

  lemma {:induction false} DocumentLinks(s: Setting)
    ensures GateDoc().evidenceManifest == P(PACK) && ActionsDoc(s).phaseGatePath == P(PHASE_GATE_REPORT)
    ensures GapsDoc(s).phaseCount == |ActionsDoc(s).actions| && DecisionDoc(s).phaseGatePath == P(PHASE_GATE_REPORT)
    ensures DecisionDoc(s).actionRegisterPath == P(ACTIONS) && DecisionDoc(s).gapMatrixPath == P(GAPS)
    ensures MatrixDoc(s).decisionPath == P(DECISION) && MatrixDoc(s).actionRegisterPath == P(ACTIONS)
    ensures IntakeDoc(s).signoffMatrixPath == P(SIGNOFF) && IntakeDoc(s).gapMatrixPath == P(GAPS)
    ensures InventoryDoc(s).intakePath == P(INTAKE_FILE)
    ensures ReviewedRegister(s).inventoryPath == P(INVENTORY_FILE) && ReviewedRegister(s).decisionPath == P(DECISION)
  {
    hide P, NOW, PACK, PHASE_GATE_REPORT, ACTIONS, GAPS, DECISION, SIGNOFF, INTAKE_FILE, INVENTORY_FILE, DIR;
  }

  lemma {:induction false} DocumentsLinked(s: Setting)
    requires Plausible(s)
    ensures ReviewFormats(Documents(s)) && ReviewLinks(Some(ReviewDoc(s)), Documents(s))
  {
    hide ArtifactPath, ReviewDoc, P, HostOf, Fs, Plausible, PACK, PHASE_GATE_REPORT, ACTIONS, GAPS, DECISION, SIGNOFF,
      INTAKE_FILE, INVENTORY_FILE, AllStamped, IntakeDoc, InventoryDoc, DecisionDoc, ActionsDoc, GapsDoc, GateDoc,
      MatrixDoc, ReviewedRegister, REVIEW_ARTIFACTS;
    ReviewPaths(s);
    DocumentFormats(s);
    DocumentLinks(s);
  }

  /** A field that the review manifest shares with the closure archive. */
  lemma {:induction false} SharedField(s: Setting, name: string)
    requires name !in ["format", "generatedAt", "remainingPhaseCount", "remainingItemCount", "artifacts"]
    requires name !in ["manifest", "artifactCount", "artifactNames"]
    requires Lookup(ReviewFields(s), name).Some?
    ensures At(Some(ReviewDoc(s)), [name]) == Lookup(ReviewFields(s), name)
    ensures At(Some(ClosureReview(s)), [name]) == Lookup(ReviewFields(s), name)
  {
    hide ReviewFields, REVIEW_ARTIFACTS, Entry, At, ReviewedAt, KeysOf, ListOf, P, REVIEW_FORMAT, NOW;
    OneStep(ReviewDoc(s), name);
    OneStep(ClosureReview(s), name);
    assert name != ["format", "generatedAt", "remainingPhaseCount", "remainingItemCount", "artifacts"][0];
  }

  lemma {:induction false} SharedNames(s: Setting)
    ensures forall name | name in {
                "environment", "target", "ready", "validated", "decision", "blockerCount", "warningCount",
                "waiverSummary", "evidenceKeySummary", "commandCoverageSummary", "markdownCoverageSummary"} ::
              Lookup(ReviewFields(s), name).Some?
  {
    hide SummaryValue, SummarizeForReview, ReviewedRegister, Signoffs.APPROVE, TODAY;
  }

  lemma {:induction false} SharedVerdict(s: Setting)
    ensures var f := ReviewFields(s);
            && Lookup(f, "ready") == Some(Bool(true)) && Lookup(f, "validated") == Some(Bool(true))
            && Lookup(f, "decision") == Some(Str(Signoffs.APPROVE)) && Lookup(f, "blockerCount") == Some(Number(0.0))
            && Lookup(f, "warningCount") == Some(Number(0.0))
  {
    hide SummaryValue, SummarizeForReview, ReviewedRegister, Signoffs.APPROVE, TODAY;
  }

  lemma {:induction false} SharedValues(s: Setting)
    ensures var f := ReviewFields(s);
            && Lookup(f, "environment") == Some(Str("prod")) && Lookup(f, "target") == Some(Str("production"))
            && Lookup(f, "waiverSummary")
               == Some(SummaryValue(SummarizeForReview(ReviewedRegister(s).waivers, TODAY)))
  {
    hide SummaryValue, SummarizeForReview, ReviewedRegister, Signoffs.APPROVE, TODAY;
  }

  lemma {:induction false} ReviewValues(s: Setting)
    ensures var r := Some(ReviewDoc(s));
            && At(r, ["environment"]) == Some(Str("prod")) && At(r, ["target"]) == Some(Str("production"))
            && At(r, ["ready"]) == Some(Bool(true)) && At(r, ["validated"]) == Some(Bool(true))
            && At(r, ["decision"]) == Some(Str(Signoffs.APPROVE)) && At(r, ["blockerCount"]) == Some(Number(0.0))
            && At(r, ["warningCount"]) == Some(Number(0.0))
            && At(r, ["waiverSummary"])
               == Some(SummaryValue(SummarizeForReview(ReviewedRegister(s).waivers, TODAY)))
  {
    hide At, ReviewDoc, ClosureReview, SummaryValue, SummarizeForReview, ReviewedRegister, ReviewFields, Lookup,
      Signoffs.APPROVE, TODAY;
    SharedVerdict(s);
    SharedValues(s);
    SharedField(s, "environment");
    SharedField(s, "target");
    SharedField(s, "ready");
    SharedField(s, "validated");
    SharedField(s, "decision");
    SharedField(s, "blockerCount");
    SharedField(s, "warningCount");
    SharedField(s, "waiverSummary");
  }

  lemma {:induction false} ReviewOwnValues(s: Setting)
    ensures var r := Some(ReviewDoc(s));
            && HasFormat(r, REVIEW_FORMAT) && TextAt(r, ["generatedAt"]) == NOW
            && At(r, ["remainingPhaseCount"]) == Some(Number(0.0)) && At(r, ["remainingItemCount"]) == Some(Number(0.0))
  {
    var r := ReviewDoc(s);
    hide At, Entry, REVIEW_ARTIFACTS, ReviewedAt, ReviewFields, NOW, REVIEW_FORMAT;
    OneStep(r, "format");
    OneStep(r, "generatedAt");
    OneStep(r, "remainingPhaseCount");
    OneStep(r, "remainingItemCount");
  }

  lemma {:induction false} ClosureApproved(s: Setting)
    requires Plausible(s)
    ensures DecisionDoc(s).decision == Signoffs.APPROVE && GateDoc().state == State()
    ensures DecisionDoc(s).keys.actionKeys == MatrixDoc(s).summary.evidenceKeys
  {
    hide P, Signoffs.Cover, Signoffs.APPROVE, Keys.Unique, Keys.SortedUnique, Signoffs.KeysOf, Signoffs.GATE_FORMAT,
      Signoffs.Pending, Signoffs.MissingIn, IsDigest, Free, OnePathEach, Clean, Signoffs.ApproveAll, Signoffs.Approvals;
  }

  lemma {:induction false} ReviewStateAgrees(s: Setting)
    requires Plausible(s)
    ensures ReviewState(Some(ReviewDoc(s)), Some(PackDoc(s)), Documents(s))
  {
    hide At, ReviewDoc, PackDoc, HasFormat, DecisionDoc, MatrixDoc, InventoryDoc, ReviewedRegister, IntakeDoc,
      ActionsDoc, GapsDoc, GateDoc, SummaryValue, SummarizeForReview, TODAY, NOW, Signoffs.APPROVE, TextAt;
    ReviewValues(s);
    ReviewOwnValues(s);
    PackFields(s);
    ClosureApproved(s);
  }

  lemma {:induction false} ReviewReady(s: Setting)
    requires Plausible(s)
    ensures ReviewValid(EnvOf(s), WorldOf(s), P(REVIEW), true)
  {
    hide At, TextAt, ReviewDoc, PackDoc, WorkspaceDoc, BundleDoc, ReadinessDoc, RedactionDoc, ClosureDoc, DecisionDoc,
      MatrixDoc, InventoryDoc, ReviewedRegister, IntakeDoc, ActionsDoc, GapsDoc, GateDoc, SummaryValue,
      SummarizeForReview, AllStamped, REVIEW_ARTIFACTS, ReviewFormats, ReviewLinks, ReviewState, ReadReviewed, EnvOf,
      HostOf, Fs, Read, P, PACK, REVIEW, IsTimestamp, ReviewApproved, RegisterValid, ArtifactPath, HasFormat, Plausible,
      NOW, TODAY, Template, Commit, Signoffs.APPROVE, Keys.SortedUnique, HasReferences;
    ReadManifests(s);
    EnvFacts(s);
    Dates(s);
    ReviewPaths(s);
    DocumentsRead(s);
    DocumentsLinked(s);
    ReviewValues(s);
    ReviewOwnValues(s);
    ReviewStateAgrees(s);
    PackAgrees(s);
    ClosureApproved(s);
    ReviewedRegisterReady(s);
  }

  // ---------------------------------------------------------------- the closure archive

  lemma {:induction false} ClosureReviewAt(s: Setting, name: string)
    ensures At(Some(ClosureDoc(s)), ["review", name]) == At(Some(ClosureReview(s)), [name])
  {
    hide ClosureReview, At, SourceFields, CLOSURE_FORMAT, NOW;
    TwoSteps(ClosureDoc(s), "review", name);
    OneStep(ClosureReview(s), name);
  }

  lemma {:induction false} ClosureShared(s: Setting)
    ensures ClosureReviewFields(Some(ClosureDoc(s)), Some(ReviewDoc(s)))
  {
    hide ReviewDoc, ClosureDoc, ClosureReview, ReviewFields, At, Entry, Lookup;
    SharedNames(s);
    forall name | name in {
        "environment", "target", "ready", "validated", "decision", "blockerCount", "warningCount",
        "waiverSummary", "evidenceKeySummary", "commandCoverageSummary", "markdownCoverageSummary"}
      ensures At(Some(ClosureDoc(s)), ["review", name]) == At(Some(ReviewDoc(s)), [name])
    {
      ClosureReviewAt(s, name);
      SharedField(s, name);
    }
  }

  lemma {:induction false} ClosureHead(s: Setting)
    ensures var c := Some(ClosureDoc(s));
            && HasFormat(c, CLOSURE_FORMAT) && TextAt(c, ["generatedAt"]) == NOW
  {
    hide At, SourceFields, ClosureReview, CLOSURE_FORMAT, NOW;
    OneStep(ClosureDoc(s), "format");
    OneStep(ClosureDoc(s), "generatedAt");
  }

  lemma {:induction false} ClosureOwnFields(s: Setting)
    ensures var r, names := ClosureReview(s), KeysOf(Some(ReviewDoc(s)), "artifacts");
            && Get(r, "manifest") == Some(Entry(s, P(REVIEW)))
            && Get(r, "artifactCount") == Some(Number(|names| as real))
            && Get(r, "artifactNames") == Some(List(ListOf(names)))
  {
    hide Entry, ReviewFields, KeysOf, ListOf, ReviewDoc, P, REVIEW;
  }

  lemma {:induction false} ClosureOwn(s: Setting)
    ensures At(Some(ClosureDoc(s)), ["review", "manifest"]) == Some(Entry(s, P(REVIEW)))
    ensures ClosureArtifacts(Some(ClosureDoc(s)), Some(ReviewDoc(s)))
  {
    var r := ClosureReview(s);
    hide At, Entry, ReviewFields, SourceFields, KeysOf, ListOf, ClosureDoc, ClosureReview, ReviewDoc, Lookup, Get,
      REVIEW, P;
    ClosureOwnFields(s);
    ClosureReviewAt(s, "manifest");
    ClosureReviewAt(s, "artifactCount");
    ClosureReviewAt(s, "artifactNames");
    OneStep(r, "manifest");
    OneStep(r, "artifactCount");
    OneStep(r, "artifactNames");
  }

  lemma {:induction false} ClosureTarget(s: Setting)
    ensures At(Some(ClosureDoc(s)), ["review", "target"]) == Some(Str("production"))
  {
    hide At, ReviewFields, ClosureDoc, ClosureReview, ReviewDoc, Lookup, SummaryValue, SummarizeForReview,
      ReviewedRegister, TODAY;
    SharedValues(s);
    SharedField(s, "target");
    ClosureReviewAt(s, "target");
  }

  lemma {:induction false} SourceValues(s: Setting)
    ensures var c := Some(ClosureDoc(s));
            && At(c, ["source", "commit"]) == Some(Str(Commit())) && At(c, ["source", "branch"]) == Some(Str("main"))
            && At(c, ["source", "remote"]) == Some(Str("origin"))
            && At(c, ["source", "cleanTree"]) == Some(Bool(true))
            && At(c, ["source", "statusPorcelain"]) == Some(Str(""))
  {
    hide At, Commit, ClosureReview, CLOSURE_FORMAT, NOW;
    TwoSteps(ClosureDoc(s), "source", "commit");
    TwoSteps(ClosureDoc(s), "source", "branch");
    TwoSteps(ClosureDoc(s), "source", "remote");
    TwoSteps(ClosureDoc(s), "source", "cleanTree");
    TwoSteps(ClosureDoc(s), "source", "statusPorcelain");
  }

  lemma {:induction false} CommitShape()
    ensures IsCommit(Commit())
  {
  }

  lemma {:induction false} ClosureReady(s: Setting, clean: bool)
    requires Plausible(s)
    ensures ClosureValid(EnvOf(s), WorldOf(s), P(CLOSURE), Some(P(REVIEW)), clean, true)
  {
    hide At, ReviewDoc, ClosureDoc, PackDoc, WorkspaceDoc, BundleDoc, ReadinessDoc, RedactionDoc, HasFormat,
      ReviewedRegister, OwnRegister, EnvOf, HostOf, Fs, Read, P, REVIEW, CLOSURE, IsTimestamp, ReviewApproved,
      RegisterValid, ArtifactPath, Stamped, ClosureReviewFields, ClosureArtifacts, IsCommit, Entry, Commit, Plausible,
      NOW, TODAY, Template, AllStamped, HasReferences, Paths, IsGateFile, IntakeDoc, InventoryDoc, DecisionDoc,
      ActionsDoc, GapsDoc, GateDoc, MatrixDoc;
    PhaseFiles();
    ReadManifests(s);
    ReadDocuments(s);
    EnvFacts(s);
    Dates(s);
    ClosureShared(s);
    ClosureHead(s);
    ClosureOwn(s);
    SourceValues(s);
    CommitShape();
    ReviewPaths(s);
    ReviewOwnValues(s);
    ReviewedRegisterReady(s);
    OnDisk(s, REVIEW);
    EntryStamped(s, P(REVIEW));
  }

  // ---------------------------------------------------------------- the gate

  lemma {:induction false} GateDocuments(s: Setting)
    requires Plausible(s)
    ensures var e, w := EnvOf(s), WorldOf(s);
            && Document(e, w.fs, P(BUNDLE)) == Some(BundleDoc(s)) && Document(e, w.fs, P(REVIEW)) == Some(ReviewDoc(s))
            && Document(e, w.fs, P(CLOSURE)) == Some(ClosureDoc(s))
  {
    hide ReviewDoc, ClosureDoc, PackDoc, WorkspaceDoc, BundleDoc, ReadinessDoc, RedactionDoc, HasFormat, EnvOf, Fs,
      Read, P, REVIEW, CLOSURE, BUNDLE, Plausible, Template, Commit, TODAY, At, Truthy;
    ReadManifests(s);
    BundleFields(s);
    ReviewOwnValues(s);
    ClosureHead(s);
    FormattedIsTruthy(Some(BundleDoc(s)), BUNDLE_FORMAT);
    FormattedIsTruthy(Some(ReviewDoc(s)), REVIEW_FORMAT);
    FormattedIsTruthy(Some(ClosureDoc(s)), CLOSURE_FORMAT);
  }

  lemma {:induction false} NeverUnreadable(s: Setting, name: string)
    requires Plausible(s) && IsGateFile(name)
    ensures !Unreadable(EnvOf(s), Fs(s), P(name))
  {
    hide P, IsGateFile, EnvOf, Fs, Parse, Paths, DocumentAt;
    OnDisk(s, name);
    Contents(s, P(name));
  }

  function CallOf(clean: bool): Call {
    Call(DIR, "production", clean)
  }

  lemma {:induction false} GateContinues(s: Setting, clean: bool)
    requires Plausible(s)
    ensures !GateStops(EnvOf(s), WorldOf(s), CallOf(clean))
  {
    EvidenceFiles();
    PhaseFiles();
    hide ReviewDoc, ClosureDoc, BundleDoc, EnvOf, Fs, PathOf, P, BUNDLE, REVIEW, CLOSURE, STATUS_REPORT, HasFormat, At,
      Document, Unreadable, ClosureArtifacts, Entry, DIR, Plausible, IsGateFile, Commit, TODAY, NOW, SummaryValue,
      SummarizeForReview, ReviewedRegister, Signoffs.APPROVE;
    Places(s);
    GateDocuments(s);
    ReviewOwnValues(s);
    ClosureHead(s);
    ClosureShared(s);
    NeverUnreadable(s, BUNDLE);
    NeverUnreadable(s, STATUS_REPORT);
    NeverUnreadable(s, REVIEW);
    NeverUnreadable(s, CLOSURE);
  }

  lemma {:induction false} ReviewIsReady(s: Setting)
    ensures !ReviewNotReady(Some(ReviewDoc(s))) && At(Some(ReviewDoc(s)), ["decision"]) == Some(Str(Signoffs.APPROVE))
  {
    hide ReviewDoc, HasFormat, At, TextAt, SummaryValue, SummarizeForReview, Signoffs.APPROVE, NOW, TODAY,
      ReviewedRegister;
    ReviewValues(s);
    ReviewOwnValues(s);
  }

  lemma {:induction false} NoLateBlockers(s: Setting, clean: bool)
    requires Plausible(s)
    ensures LateBlockers(EnvOf(s), WorldOf(s), CallOf(clean)) == []
  {
    hide ReviewDoc, ClosureDoc, BundleDoc, EnvOf, Fs, PathOf, P, BUNDLE, REVIEW, CLOSURE, At, Document, CheckOk,
      ReviewNotReady, ClosureArtifacts, Entry, Signoffs.APPROVE, DIR, Plausible, Commit, TODAY, HasFormat,
      EvidenceNames, HostOf, State;
    Places(s);
    GateDocuments(s);
    BundleFields(s);
    ReviewIsReady(s);
    ClosureTarget(s);
    SourceValues(s);
    EnvFacts(s);
    var env, w, c := EnvOf(s), WorldOf(s), CallOf(clean);
    assert !env.raises("phase-readiness", c.target, w) && !env.raises("deployment-redaction", c.target, w);
    assert !env.raises("deployment-status-production-requirements", c.target, w);
    assert |LateBlockers(env, w, c)| == 0;
  }

  lemma {:induction false} EveryCheck(s: Setting, clean: bool, name: string)
    requires Plausible(s)
    ensures CheckOk(EnvOf(s), WorldOf(s), CallOf(clean), name)
  {
    hide WorkspaceValid, EvidencePackValid, PhaseGateReportValid, DecisionCheck, SignoffCheck, AttachmentCheck,
      WaiverCheck, ReviewValid, ClosureValid, PathOf, P, Fs, EnvOf, REVIEW, CLOSURE, DIR, WORKSPACE_MANIFEST, BUNDLE,
      PACK, Plausible, HostOf, State, Commit, TODAY;
    Places(s);
    WorkspaceReady(s);
    PackReady(s);
    PhaseGateReady(s);
    DocumentChecks(s);
    ReviewReady(s);
    ClosureReady(s, clean);
    EnvFacts(s);
  }

  lemma {:induction false} EveryFile(s: Setting)
    requires Plausible(s)
    ensures forall f | f in GATE_FILES :: PathOf(EnvOf(s), DIR, f.file) in Fs(s)
  {
    hide GATE_FILES, PathOf, EnvOf, Fs, P, DIR, Plausible, Paths;
    Places(s);
    forall f | f in GATE_FILES
      ensures PathOf(EnvOf(s), DIR, f.file) in Fs(s)
    {
      OnDisk(s, f.file);
    }
  }

  /** The gate is ready in every release of the family, whether or not it requires a clean tree. */
  lemma {:induction false} ReleaseReady(s: Setting, clean: bool)
    requires Plausible(s)
    ensures Ready(EnvOf(s), WorldOf(s), CallOf(clean))
  {
    hide GATE_FILES, CHECK_NAMES, CheckOk, GateStops, LateBlockers, Warnings, PathOf, EnvOf, Fs, P, DIR, Plausible,
      Commit, TODAY;
    var e, w, c := EnvOf(s), WorldOf(s), CallOf(clean);
    EveryFile(s);
    NoneMissing(e, w.fs, c.dir, GATE_FILES);
    forall n | n in CHECK_NAMES
      ensures CheckOk(e, w, c, n)
    {
      EveryCheck(s, clean, n);
    }
    NoneFailed(e, w, c, CHECK_NAMES);
    NoLateBlockers(s, clean);
    GateContinues(s, clean);
  }

  // ---------------------------------------------------------------- when references are guaranteed

  /** The review lists the register of the setting. */
  lemma {:induction false} ReleaseReviews(s: Setting)
    requires Plausible(s)
    ensures ReviewedPath(EnvOf(s), WorldOf(s), DIR, "phaseWaiverRegister") == s.reviewed
  {
    hide EnvOf, Fs, PathOf, P, DIR, Plausible, Commit, TODAY, Read, REVIEW, ReviewDoc, ClosureDoc, PackDoc,
      WorkspaceDoc, BundleDoc, ReadinessDoc, RedactionDoc, ArtifactPath, AllStamped, HostOf, REVIEW_ARTIFACTS, Template;
    Places(s);
    ReadManifests(s);
    ReviewPaths(s);
  }

  /** The register has a waiver: the absent file needs one. */
  lemma {:induction false} AbsentFileWaived(s: Setting)
    requires Plausible(s) && SomeAbsent(s)
    ensures |OwnRegister(s).waivers| > 0
  {
    hide SafeRelease, EnvOf, Fs, P, DIR, Plausible, Commit, TODAY, Ready, HostOf, OwnRegister, WaivesFile, Attached,
      Position, InventoryDoc, ReviewsOwnRegister, ReferencesConcrete, INTAKE_FILE, INVENTORY_FILE, REGISTER_FILE,
      WaivesOne, WaiverOf, PathOf, Target, Paths;
    var i: nat, j: nat :| i < |s.items| && j < |s.items[i].expectedFiles| && Target(s, i, j) !in Paths(s);
    ReleaseReady(s, true);
    ReadyGateIsSafe(EnvOf(s), WorldOf(s), CallOf(true));
    ReleaseIsSafe(s);
    ExpectedFileClean(s, i, j);
    EnvFacts(s);
    InventoryPlace(s);
    assert IntakeDoc(s).items == s.items;
    assert Accounted(EnvOf(s).host, WorldOf(s), OwnRegister(s), InventoryDoc(s).attachments, i, j, Target(s, i, j));
  }

  lemma {:induction false} ReleaseIsSafe(s: Setting)
    requires Plausible(s) && SafeRelease(EnvOf(s), WorldOf(s), DIR)
    ensures Safe(EnvOf(s), WorldOf(s), IntakeDoc(s), InventoryDoc(s), OwnRegister(s))
  {
    hide EnvOf, Fs, P, DIR, Plausible, Commit, TODAY, HostOf, OwnRegister, InventoryDoc, IntakeDoc, Safe, PathOf,
      ReviewsOwnRegister, ReferencesConcrete, INTAKE_FILE, INVENTORY_FILE, REGISTER_FILE, DecisionDoc, ActionsDoc,
      GapsDoc, GateDoc, MatrixDoc, ReviewedRegister, Read;
    Places(s);
    ReadDocuments(s);
  }

  lemma {:induction false} NoReferences(w: Waiver)
    requires w.approvalReference == None
    ensures !HasReferences(w)
  {
  }

  lemma {:induction false} OwnReferences(s: Setting)
    requires Plausible(s) && SomeAbsent(s)
    ensures (forall v | v in OwnRegister(s).waivers :: HasReferences(v)) <==> s.reviewed == P(REGISTER_FILE)
  {
    hide P, Plausible, SomeAbsent, HostOf, InventoryDoc, ReviewedRegister, HasReferences, RegisterValid, ReviewApproved,
      REGISTER_FILE, DecisionDoc, WorldOf, TODAY, INVENTORY_FILE, DECISION, WithoutReferences;
    AbsentFileWaived(s);
    ReviewedRegisterReady(s);
    if s.reviewed != P(REGISTER_FILE) {
      NoReferences(OwnRegister(s).waivers[0]);
    }
  }

  /** Where some expected file is absent, the gate's own register has its references exactly when it is the one
      under review. */
  lemma {:induction false} ReleaseReferences(s: Setting)
    requires Plausible(s) && SomeAbsent(s)
    ensures ReferencesConcrete(EnvOf(s), WorldOf(s), DIR) <==> s.reviewed == P(REGISTER_FILE)
  {
    hide EnvOf, Fs, P, DIR, Plausible, Commit, TODAY, HostOf, InventoryDoc, IntakeDoc, PathOf, REGISTER_FILE,
      DecisionDoc, ActionsDoc, GapsDoc, GateDoc, MatrixDoc, OwnRegister, ReviewedRegister, Read, HasReferences;
    Places(s);
    ReadDocuments(s);
    OwnReferences(s);
  }

  /** Every ready gate of the evidence directory whose review lists this register has references. */
  ghost predicate Guaranteed(path: string) {
    forall env: Env, w: World, c: Call ::
      && Resolves(env.host) && Coherent(env) && c.dir == DIR && Ready(env, w, c)
      && ReviewedPath(env, w, DIR, "phaseWaiverRegister") == path
      ==> ReferencesConcrete(env, w, DIR)
  }

  ghost predicate Resolves(host: Host) {
    forall dir, path :: host.resolve(dir, path) == Resolve(dir, path)
  }

  // ---------------------------------------------------------------- a plausible setting

  /** One byte sequence for each text: every character as so many zeros and a one, then a two. */
  function Spelled(text: string): (bytes: Bytes)
    ensures bytes != []
  {
    if text == "" then [2] else seq(text[0] as nat, _ => 0) + [1] + Spelled(text[1..])
  }

  lemma {:induction false} FirstOne(text: string)
    requires text != ""
    ensures var n := text[0] as nat;
            && |Spelled(text)| > n && Spelled(text)[n] == 1 && (forall k | 0 <= k < n :: Spelled(text)[k] == 0)
            && Spelled(text)[n + 1..] == Spelled(text[1..])
  {
  }

  lemma {:induction false} FirstTwo(text: string)
    ensures text == "" <==> Spelled(text)[0] == 2
  {
    if text != "" {
      FirstOne(text);
    }
  }

  lemma {:induction false} SpelledApart(a: string, b: string)
    requires Spelled(a) == Spelled(b)
    ensures a == b
  {
    hide Spelled;
    FirstTwo(a);
    FirstTwo(b);
    if a != "" && b != "" {
      FirstOne(a);
      FirstOne(b);
      assert a[0] as nat == b[0] as nat;
      SpelledApart(a[1..], b[1..]);
      assert a == [a[0]] + a[1..] && b == [b[0]] + b[1..];
    }
  }

  /** A digest: which of the first 64 bytes are ones. */
  function Marks(bytes: Bytes): string {
    seq(64, i => if 0 <= i < |bytes| && bytes[i] == 1 then '1' else '0')
  }

  lemma {:induction false} MarksAreDigests(bytes: Bytes)
    ensures IsDigest(Marks(bytes))
  {
  }

  /** A name longer than every path of the sample. */
  function AbsentName(path: string): string {
    seq(|path| + 60, _ => 'x')
  }

  function SampleItem(path: string): IntakeItem {
    IntakeItem("INTAKE-01", "Phase 2", "Approve the database", "databaseOwner", "postgres-ha-approval", "intake", [],
               [], [ExpectedFile("approval.json", None, README), ExpectedFile("plan.json", None, AbsentName(path))])
  }

  /** One complete action, one phase with nothing missing, and one intake item with a present and an absent file. */
  function SampleSetting(path: string): Setting {
    Setting(Marks, text => if text == NOW then Some(0) else if text == EXPIRY then Some(1) else None, _ => [], Spelled,
            _ => map[], map["postgresHa" := README], Commands(0, 0, []),
            [Signoffs.Action("ACT-01", "Phase 2", "Approve the database", "databaseOwner", "postgres-ha-approval",
                             "complete", [], [])],
            [Signoffs.GapPhase("Phase 2", "Approve the database", [],
                               [Signoffs.TemplateMapping("approval.json", true, None)])],
            [SampleItem(path)], {README}, _ => Null, path)
  }

  lemma {:induction false} ShortGateFiles()
    ensures forall i | 0 <= i < |GATE_FILES| :: |GATE_FILES[i].file| < 50
  {
  }

  lemma {:induction false} ShortArtifacts()
    ensures forall i | 0 <= i < |PACK_ARTIFACTS| :: |PACK_ARTIFACTS[i]| < 40
    ensures forall i | 0 <= i < |REVIEW_ARTIFACTS| :: |REVIEW_ARTIFACTS[i]| < 40
  {
  }

  lemma {:induction false} ShortFiles(name: string)
    requires |name| < 40
    ensures |PackFile(name)| < 50 && |ReviewFile(name)| < 50
  {
    NameShapes();
    hide BUNDLE, WORKSPACE_MANIFEST, STATUS_REPORT, REDACTION_REPORT, REQUESTS, READINESS, HANDOFF, COMPLETION, PACK,
      PHASE_GATE_REPORT, ACTIONS, GAPS, DECISION, SIGNOFF, INTAKE_FILE, INVENTORY_FILE;
  }

  lemma {:induction false} ShortPath(name: string)
    requires |name| < 50
    ensures |P(name)| < 60
  {
  }

  lemma {:induction false} ShortHelpers()
    ensures |README| < 50 && |Template()| < 60
  {
    TemplatePlace();
    hide Template;
  }

  /** Every path of the sample, but the reviewed register's, is short. */
  lemma {:induction false} ShortPaths(s: Setting, path: string)
    requires path in Paths(s)
    requires (forall n | n in s.evidence :: s.evidence[n] == README) && (forall n | n in s.attached :: n == README)
    ensures |path| < 60 || path == s.reviewed
  {
    hide P, GATE_FILES, PACK_ARTIFACTS, REVIEW_ARTIFACTS, PackFile, ReviewFile, README, Template;
    ShortGateFiles();
    ShortArtifacts();
    ShortHelpers();
    if f :| f in GATE_FILES && path == P(f.file) {
      ShortPath(f.file);
    } else if n :| n in PACK_ARTIFACTS && path == P(PackFile(n)) {
      ShortFiles(n);
      ShortPath(PackFile(n));
    } else if n :| n in REVIEW_ARTIFACTS && path == ReviewedAt(s, n) {
      ShortFiles(n);
      ShortPath(ReviewFile(n));
    } else {
      ShortPath(README);
    }
  }

  lemma {:induction false} SampleShape(path: string)
    ensures var s := SampleSetting(path);
            && s.reviewed == path && (forall n | n in s.evidence :: s.evidence[n] == README) && s.attached == {README}
            && |s.items| == 1 && |s.items[0].expectedFiles| == 2
            && s.items[0].expectedFiles[1].targetPath == AbsentName(path)
  {
    hide AbsentName, README, Spelled, Marks, NOW, EXPIRY;
  }

  lemma {:induction false} LongPath(name: string)
    requires name != "" && name[0] != '/'
    ensures |P(name)| > |name|
  {
    hide P, NameOf, Template;
    InDirectory(name);
  }

  lemma {:induction false} AbsentLong(path: string)
    ensures |AbsentName(path)| == |path| + 60 && AbsentName(path)[0] == 'x'
  {
  }

  lemma {:induction false} AbsentApart(path: string)
    ensures P(AbsentName(path)) !in Paths(SampleSetting(path))
  {
    hide *;
    var name := AbsentName(path);
    SampleShape(path);
    AbsentLong(path);
    LongPath(name);
    if P(name) in Paths(SampleSetting(path)) {
      ShortPaths(SampleSetting(path), P(name));
    }
  }

  lemma {:induction false} SampleAbsent(path: string)
    ensures SomeAbsent(SampleSetting(path))
  {
    hide P, Paths, SampleSetting, AbsentName;
    SampleShape(path);
    AbsentApart(path);
    assert Target(SampleSetting(path), 0, 1) == P(AbsentName(path));
  }

  lemma {:induction false} SampleFinished(path: string)
    ensures Signoffs.Pending(SampleSetting(path).actions) == []
    ensures Signoffs.MissingIn(SampleSetting(path).phases) == []
  {
    hide AbsentName, README, Spelled, Marks;
    var s := SampleSetting(path);
    assert s.actions[1..] == [] && s.phases[1..] == [] && s.phases[0].mappings[1..] == [];
  }

  /** There is a plausible setting for every path the gate reads no other document from. */
  lemma {:induction false} SettingExists(path: string)
    requires Free(path)
    ensures Plausible(SampleSetting(path))
  {
    assert NOW != EXPIRY;
    forall a, b | Spelled(a) == Spelled(b)
      ensures a == b
    {
      SpelledApart(a, b);
    }
    forall b
      ensures IsDigest(Marks(b))
    {
      MarksAreDigests(b);
    }
    SampleFinished(path);
    hide Spelled, Paths, P, Free, NOW, EXPIRY, Marks, IsDigest, Signoffs.Pending, Signoffs.MissingIn, README,
      SampleItem;
  }

  /** For every path the gate reads no other document from: the ready gates whose review lists the register at
      that path all have references if and only if that path is the gate's own register. */
  lemma {:induction false} ReferencesGuaranteedExactly(path: string)
    requires Free(path)
    ensures Guaranteed(path) <==> path == P(REGISTER_FILE)
  {
    hide Ready, Coherent, ReferencesConcrete, P, DIR, EnvOf, WorldOf, Resolve, SampleSetting, Plausible, SomeAbsent,
      ReviewedPath, Free, REGISTER_FILE;
    if path != P(REGISTER_FILE) {
      var s := SampleSetting(path);
      SettingExists(path);
      SampleAbsent(path);
      SampleReviewed(path);
      ReleaseReady(s, true);
      ReleaseCoherent(s);
      ReleaseReviews(s);
      ReleaseReferences(s);
      ReleaseResolves(s);
      assert CallOf(true).dir == DIR;
    } else {
      forall env: Env, w: World, c: Call |
        && Resolves(env.host) && Coherent(env) && c.dir == DIR && Ready(env, w, c)
        && ReviewedPath(env, w, DIR, "phaseWaiverRegister") == path
        ensures ReferencesConcrete(env, w, DIR)
      {
        OwnRegisterGuaranteed(env, w, c);
      }
    }
  }

  lemma {:induction false} SampleReviewed(path: string)
    ensures SampleSetting(path).reviewed == path
  {
  }

  lemma {:induction false} ReleaseResolves(s: Setting)
    ensures Resolves(EnvOf(s).host)
  {
    EnvFacts(s);
    hide EnvOf, Resolve;
  }

  lemma {:induction false} OwnRegisterGuaranteed(env: Env, w: World, c: Call)
    requires Resolves(env.host) && c.dir == DIR && Ready(env, w, c)
    requires ReviewedPath(env, w, DIR, "phaseWaiverRegister") == P(REGISTER_FILE)
    ensures ReferencesConcrete(env, w, DIR)
  {
    hide Ready, ReferencesConcrete, DIR, Resolve, ReviewedPath, REGISTER_FILE, ReviewValid, ClosureValid,
      WorkspaceValid, EvidencePackValid, PhaseGateReportValid, DecisionCheck, SignoffCheck, AttachmentCheck,
      WaiverCheck;
    ReadyChecks(env, w, c);
    ReviewedWaiversAreConcrete(env, w, DIR);
  }
}
