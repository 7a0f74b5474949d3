/** What a release archive says is so: its verdict is the gate's, its review is the review manifest's, and its
    source is what git reports. And the documents of a ready gate are about one environment and one target. */
module ArchiveClaims {
  import opened Wrappers
  import opened Json
  import opened Files
  import opened WaiverRegister
  import opened EvidenceChain
  import opened ReleaseGate
  import opened TamperEvidence
  import GateVerdict

  lemma {:induction false} AtOne(v: Value, name: string)
    ensures At(Some(v), [name]) == Get(v, name)
  {
    assert At(Some(v), [name]) == At(Get(v, name), []);
  }

  /** Setting the time aside leaves every other field. */
  lemma {:induction false} SameField(current: Value, report: Value, name: string)
    requires current.Object? && report.Object?
    requires WithoutTime(current) == WithoutTime(report) && name != "generatedAt"
    ensures Get(current, name) == Get(report, name)
  {
    assert Get(WithoutTime(current), name) == Get(current, name);
    assert Get(WithoutTime(report), name) == Get(report, name);
  }

  lemma {:induction false} FormattedObject(v: Option<Value>, format: string)
    requires HasFormat(v, format)
    ensures v.Some? && v.value.Object?
  {
    if v.Some? {
      AtOne(v.value, "format");
    }
  }

  lemma {:induction false} ReportFields(env: Env, w: World, c: Call, v: Verdict, generatedAt: string)
    ensures var report := ReportValue(env, w, c, v, generatedAt);
            && report.Object? && Get(report, "target") == Some(Str(c.target))
            && Get(report, "requireClean") == Some(Bool(c.requireClean))
            && Get(report, "evidenceDir") == Some(Str(c.dir)) && Get(report, "ready") == Some(Bool(v.blockers == []))
            && Get(report, "blockerCount") == Some(Number(|v.blockers| as real))
            && Get(report, "warningCount") == Some(Number(|v.warnings| as real))
  {
  }

  /** The report has the call, the verdict and the counts of the gate. */
  predicate SaysVerdict(env: Env, w: World, c: Call, report: Option<Value>) {
    hide Judge;
    var verdict := Judge(env, w, c);
    && verdict.Success?
    && At(report, ["evidenceDir"]) == Some(Str(c.dir)) && At(report, ["target"]) == Some(Str(c.target))
    && At(report, ["requireClean"]) == Some(Bool(c.requireClean))
    && At(report, ["ready"]) == Some(Bool(Ready(env, w, c)))
    && At(report, ["blockerCount"]) == Some(Number(|verdict.value.blockers| as real))
    && At(report, ["warningCount"]) == Some(Number(|verdict.value.warnings| as real))
  }

  /** A saved gate report that is valid now says what the gate would say now. */
  lemma {:induction false} ReportTells(env: Env, w: World, c: Call, reportPath: string, requireReady: bool)
    requires GateReportValid(env, w, c, reportPath, requireReady)
    ensures SaysVerdict(env, w, c, Read(w.fs, env.json, reportPath))
    ensures requireReady ==> Ready(env, w, c)
  {
    hide Judge, ReportValue, WithoutTime, Get, At, HasFormat;
    FormattedObject(Read(w.fs, env.json, reportPath), GATE_REPORT_FORMAT);
    var current := Read(w.fs, env.json, reportPath).value;
    var verdict := Judge(env, w, c).value;
    var report := ReportValue(env, w, c, verdict, "");
    ReportFields(env, w, c, verdict, "");
    forall name | name in {"evidenceDir", "target", "requireClean", "ready", "blockerCount", "warningCount"}
      ensures At(Some(current), [name]) == Get(report, name)
    {
      AtOne(current, name);
      SameField(current, report, name);
    }
  }

  lemma {:induction false} AtTwo(v: Option<Value>, a: string, b: string)
    ensures At(v, [a, b]) == At(At(v, [a]), [b])
  {
    assert [a, b][1..] == [b] && [a][1..] == [] && [b][1..] == [];
    if v.Some? {
      assert At(v, [a]) == At(Get(v.value, a), []);
    }
  }

  function ReviewOf(env: Env, fs: FileSystem, archive: Option<Value>): Option<Value> {
    var closure := Read(fs, env.json, TextAt(At(archive, ["closure", "manifest"]), ["path"]));
    Read(fs, env.json, TextAt(At(closure, ["review", "manifest"]), ["path"]))
  }

  /** The call of the gate that the archive is about. */
  function CallOf(env: Env, archive: Option<Value>): Call {
    Call(env.host.resolve("", TextAt(archive, ["evidenceDir"])), TextAt(archive, ["target"]),
         At(archive, ["requireClean"]) == Some(Bool(true)))
  }

  /** The file the entry names is there, with the recorded length and hash. */
  predicate FileRecorded(env: Env, fs: FileSystem, entry: Option<Value>) {
    var path := TextAt(entry, ["path"]);
    && path in fs && At(entry, ["bytes"]) == Some(Number(|fs[path]| as real))
    && At(entry, ["sha256"]) == Some(Str(env.host.sha256(fs[path])))
  }

  predicate TellsFiles(env: Env, w: World, archive: Option<Value>) {
    && FileRecorded(env, w.fs, At(archive, ["closure", "manifest"]))
    && FileRecorded(env, w.fs, At(archive, ["releaseGate", "report"]))
  }

  predicate TellsVerdict(env: Env, w: World, archive: Option<Value>) {
    hide Judge;
    var c := CallOf(env, archive);
    var verdict := Judge(env, w, c);
    && verdict.Success?
    && At(archive, ["target"]) == Some(Str(c.target)) && At(archive, ["requireClean"]) == Some(Bool(c.requireClean))
    && At(archive, ["ready"]) == Some(Bool(Ready(env, w, c)))
    && At(archive, ["releaseGate", "ready"]) == Some(Bool(Ready(env, w, c)))
    && (forall path | path in {["blockerCount"], ["releaseGate", "blockerCount"]} ::
          At(archive, path) == Some(Number(|verdict.value.blockers| as real)))
    && forall path | path in {["warningCount"], ["releaseGate", "warningCount"]} ::
         At(archive, path) == Some(Number(|verdict.value.warnings| as real))
  }

  predicate TellsReview(env: Env, w: World, archive: Option<Value>) {
    var review := ReviewOf(env, w.fs, archive);
    && At(archive, ["target"]) == At(review, ["target"])
    && forall name | name in {"decision", "ready", "validated", "waiverSummary", "evidenceKeySummary",
                              "commandCoverageSummary", "markdownCoverageSummary"} ::
         At(archive, ["closure", name]) == At(review, [name])
  }

  predicate TellsSource(w: World, archive: Option<Value>, clean: bool) {
    && At(archive, ["source", "commit"]) == Some(Str(w.commit))
    && At(archive, ["source", "branch"]) == Some(Str(w.branch))
    && At(archive, ["source", "remote"]) == Some(Str(w.remote))
    && (clean ==> At(archive, ["source", "cleanTree"]) == Some(Bool(true))
                  && At(archive, ["source", "statusPorcelain"]) == Some(Str("")))
  }

  /** Everything a valid archive says is true now, ready or not: its files are there as recorded, its verdict and
      its counts are those of the gate, what it repeats of the review is what the review manifest says, and its
      source is what git reports. */
  lemma {:induction false} ArchiveTells(
      env: Env, w: World, archivePath: string, requireReady: bool, requireApproved: bool)
    requires ArchiveValid(env, w, archivePath, requireReady, requireApproved)
    ensures var archive := Read(w.fs, env.json, archivePath);
            && TellsFiles(env, w, archive) && TellsVerdict(env, w, archive) && TellsReview(env, w, archive)
            && TellsSource(w, archive, At(archive, ["requireClean"]) == Some(Bool(true)))
            && (requireReady ==> Ready(env, w, CallOf(env, archive)))
  {
    hide ClosureValid, GateReportValid, ArchiveAgrees, Recorded, TellsFiles, TellsVerdict, TellsReview, TellsSource,
      Ready, At, HasFormat, IsTimestamp;
    var archive := Read(w.fs, env.json, archivePath);
    FilesTold(env, w, archivePath, requireReady, requireApproved);
    VerdictTold(env, w, archivePath, requireReady, requireApproved);
    ReviewTold(env, w, archivePath, requireReady, requireApproved);
    SourceTold(env, w, archivePath, requireReady, requireApproved);
    ReportTells(env, w, ArchiveCall(env, archive), TextAt(ReportStamp(archive), ["path"]), requireReady);
  }

  lemma {:induction false} FilesTold(
      env: Env, w: World, archivePath: string, requireReady: bool, requireApproved: bool)
    requires ArchiveValid(env, w, archivePath, requireReady, requireApproved)
    ensures TellsFiles(env, w, Read(w.fs, env.json, archivePath))
  {
    hide ClosureValid, GateReportValid, ArchiveAgrees, At, TextAt, HasFormat, IsTimestamp, ArchiveCall;
  }

  lemma {:induction false} VerdictTold(
      env: Env, w: World, archivePath: string, requireReady: bool, requireApproved: bool)
    requires ArchiveValid(env, w, archivePath, requireReady, requireApproved)
    ensures TellsVerdict(env, w, Read(w.fs, env.json, archivePath))
  {
    hide ClosureValid, Recorded, Ready, At, HasFormat, IsTimestamp, Judge, GateReportValid;
    var archive := Read(w.fs, env.json, archivePath);
    ReportTells(env, w, ArchiveCall(env, archive), TextAt(ReportStamp(archive), ["path"]), requireReady);
    TextThere(archive, ["target"]);
  }

  lemma {:induction false} ReviewTold(
      env: Env, w: World, archivePath: string, requireReady: bool, requireApproved: bool)
    requires ArchiveValid(env, w, archivePath, requireReady, requireApproved)
    ensures TellsReview(env, w, Read(w.fs, env.json, archivePath))
  {
    hide Recorded, Ready, At, HasFormat, IsTimestamp, GateReportValid, Stamped, ClosureArtifacts, ArtifactPath;
  }

  lemma {:induction false} ClosureSource(
      env: Env, w: World, closurePath: string, review: Option<string>, requireClean: bool, requireApproved: bool)
    requires ClosureValid(env, w, closurePath, review, requireClean, requireApproved)
    ensures var closure := Read(w.fs, env.json, closurePath);
            && (forall name | name in {"commit", "branch", "remote"} :: TextAt(closure, ["source", name]) != "")
            && TextAt(closure, ["source", "commit"]) == w.commit && TextAt(closure, ["source", "branch"]) == w.branch
            && TextAt(closure, ["source", "remote"]) == w.remote
            && (requireClean ==> At(closure, ["source", "cleanTree"]) == Some(Bool(true))
                                 && At(closure, ["source", "statusPorcelain"]) == Some(Str("")))
  {
    hide At, TextAt, HasFormat, IsTimestamp, Stamped, ClosureArtifacts, ClosureReviewFields, ArtifactPath, IsHex,
      ReviewApproved;
  }

  lemma {:induction false} SameSource(env: Env, w: World, archivePath: string, ready: bool, approved: bool)
    requires ArchiveValid(env, w, archivePath, ready, approved)
    ensures var archive := Read(w.fs, env.json, archivePath);
            At(archive, ["source"]) == At(Read(w.fs, env.json, TextAt(ClosureStamp(archive), ["path"])), ["source"])
  {
    hide At, TextAt, HasFormat, IsTimestamp, GateReportValid, ClosureValid, Recorded, ArchiveCall, ReportStamp,
      ClosureStamp;
  }

  lemma {:induction false} ValidClosure(env: Env, w: World, archivePath: string, ready: bool, approved: bool)
    requires ArchiveValid(env, w, archivePath, ready, approved)
    ensures var archive := Read(w.fs, env.json, archivePath);
            ClosureValid(env, w, TextAt(ClosureStamp(archive), ["path"]), None, ArchiveCall(env, archive).requireClean,
                         approved)
  {
    hide At, TextAt, HasFormat, IsTimestamp, GateReportValid, ClosureValid, ArchiveAgrees, Recorded, ArchiveCall,
      ReportStamp, ClosureStamp;
  }

  lemma {:induction false} SourceTold(env: Env, w: World, archivePath: string, ready: bool, approved: bool)
    requires ArchiveValid(env, w, archivePath, ready, approved)
    ensures var archive := Read(w.fs, env.json, archivePath);
            TellsSource(w, archive, ArchiveCall(env, archive).requireClean)
  {
    hide ArchiveValid, At, TextAt, ClosureValid, ArchiveCall, ClosureStamp;
    var archive := Read(w.fs, env.json, archivePath);
    var closurePath := TextAt(ClosureStamp(archive), ["path"]);
    var closure := Read(w.fs, env.json, closurePath);
    ValidClosure(env, w, archivePath, ready, approved);
    SameSource(env, w, archivePath, ready, approved);
    ClosureSource(env, w, closurePath, None, ArchiveCall(env, archive).requireClean, approved);
    TextThere(closure, ["source", "commit"]);
    TextThere(closure, ["source", "branch"]);
    TextThere(closure, ["source", "remote"]);
    forall name | name in {"commit", "branch", "remote", "cleanTree", "statusPorcelain"}
      ensures At(archive, ["source", name]) == At(closure, ["source", name])
    {
      AtTwo(archive, "source", name);
      AtTwo(closure, "source", name);
    }
  }

  // ---------------------------------------------------------------- one release

  predicate OwnPack(env: Env, w: World, dir: string) {
    var pack := Read(w.fs, env.json, PathOf(env, dir, PACK));
    && ArtifactPath(pack, "phaseReadiness") == PathOf(env, dir, READINESS)
    && ArtifactPath(pack, "phaseCompletionAudit") == PathOf(env, dir, COMPLETION)
    && ArtifactPath(pack, "externalRequests") == PathOf(env, dir, REQUESTS)
    && ArtifactPath(pack, "phaseHandoffChecklist") == PathOf(env, dir, HANDOFF)
    && ArtifactPath(pack, "deploymentWorkspaceManifest") == PathOf(env, dir, WORKSPACE_MANIFEST)
  }

  predicate OneStatus(env: Env, w: World, c: Call) {
    var target := Some(Str(c.target));
    && At(Read(w.fs, env.json, PathOf(env, c.dir, BUNDLE)), ["status"]) == target
    && At(Read(w.fs, env.json, PathOf(env, c.dir, WORKSPACE_MANIFEST)), ["status"]) == target
    && At(Read(w.fs, env.json, PathOf(env, c.dir, READINESS)), ["bundle", "status"]) == target
    && At(Read(w.fs, env.json, PathOf(env, c.dir, PACK)), ["bundleStatus"]) == target
    && At(Read(w.fs, env.json, PathOf(env, c.dir, REVIEW)), ["target"]) == target
    && At(Read(w.fs, env.json, PathOf(env, c.dir, CLOSURE)), ["review", "target"]) == target
  }

  predicate OneEnvironment(env: Env, w: World, c: Call) {
    var environment := At(Read(w.fs, env.json, PathOf(env, c.dir, BUNDLE)), ["environment"]);
    && At(Read(w.fs, env.json, PathOf(env, c.dir, WORKSPACE_MANIFEST)), ["environment"]) == environment
    && At(Read(w.fs, env.json, PathOf(env, c.dir, READINESS)), ["bundle", "environment"]) == environment
    && At(Read(w.fs, env.json, PathOf(env, c.dir, PACK)), ["environment"]) == environment
  }

  /** The review and the closure archive are of the same environment, and the readiness report of the same target. */
  predicate ReviewAgrees(env: Env, w: World, c: Call) {
    var environment := At(Read(w.fs, env.json, PathOf(env, c.dir, BUNDLE)), ["environment"]);
    && At(Read(w.fs, env.json, PathOf(env, c.dir, REVIEW)), ["environment"]) == environment
    && At(Read(w.fs, env.json, PathOf(env, c.dir, CLOSURE)), ["review", "environment"]) == environment
    && At(Read(w.fs, env.json, PathOf(env, c.dir, READINESS)), ["target"]) == Some(Str(c.target))
    && At(Read(w.fs, env.json, PathOf(env, c.dir, PACK)), ["target"]) == Some(Str(c.target))
  }

  lemma {:induction false} ReadyTargets(env: Env, w: World, c: Call)
    requires Ready(env, w, c)
    ensures At(Read(w.fs, env.json, PathOf(env, c.dir, BUNDLE)), ["status"]) == Some(Str(c.target))
    ensures At(Read(w.fs, env.json, PathOf(env, c.dir, CLOSURE)), ["review", "target"]) == Some(Str(c.target))
  {
    hide Ready, GateVerdict.ValidatorsAccept, GateVerdict.OthersSucceed, GateVerdict.NothingRaised,
      GateVerdict.FilesPresent, At, PathOf;
    GateVerdict.ReadyExactly(env, w, c);
  }

  lemma {:induction false} PackIsOwn(env: Env, w: World, dir: string)
    requires PhaseGateReportValid(env, w, dir)
    ensures OwnPack(env, w, dir)
  {
    hide At, TextAt, ArtifactPath, PathOf, HasFormat;
  }

  /** What the closure archive repeats of the gate's review. */
  lemma {:induction false} ClosureRepeats(env: Env, w: World, c: Call)
    requires ClosureValid(env, w, PathOf(env, c.dir, CLOSURE), Some(PathOf(env, c.dir, REVIEW)), c.requireClean, true)
    ensures var review := Read(w.fs, env.json, PathOf(env, c.dir, REVIEW));
            var closure := Read(w.fs, env.json, PathOf(env, c.dir, CLOSURE));
            && At(closure, ["review", "target"]) == At(review, ["target"])
            && At(closure, ["review", "environment"]) == At(review, ["environment"])
  {
    hide At, TextAt, ArtifactPath, PathOf, HasFormat, IsTimestamp, Stamped, ClosureArtifacts, ReviewApproved, IsHex;
  }

  /** What the evidence pack and the workspace manifest it lists say of the readiness report and the bundle. */
  lemma {:induction false} PackSays(env: Env, w: World, dir: string)
    requires EvidencePackValid(env, w.fs, PathOf(env, dir, PACK)) && OwnPack(env, w, dir)
    requires WorkspaceValid(env, w.fs, PathOf(env, dir, WORKSPACE_MANIFEST), PathOf(env, dir, BUNDLE))
    ensures var pack, readiness := Read(w.fs, env.json, PathOf(env, dir, PACK)),
                                   Read(w.fs, env.json, PathOf(env, dir, READINESS));
            var workspace, bundle := Read(w.fs, env.json, PathOf(env, dir, WORKSPACE_MANIFEST)),
                                     Read(w.fs, env.json, PathOf(env, dir, BUNDLE));
            && At(pack, ["environment"]) == At(readiness, ["bundle", "environment"])
            && At(pack, ["target"]) == At(readiness, ["target"])
            && At(pack, ["bundleStatus"]) == At(readiness, ["bundle", "status"])
            && At(workspace, ["environment"]) == At(readiness, ["bundle", "environment"])
            && At(workspace, ["status"]) == At(readiness, ["bundle", "status"])
            && At(bundle, ["environment"]) == At(workspace, ["environment"])
            && At(bundle, ["status"]) == At(workspace, ["status"])
  {
    hide At, TextAt, ArtifactPath, PathOf, HasFormat, IsTimestamp, AllStamped, WorkspaceStamped, EvidenceNames,
      WorkspacePath;
  }

  lemma {:induction false} ReviewSays(env: Env, w: World, dir: string)
    requires ReviewValid(env, w, PathOf(env, dir, REVIEW), true)
    requires ArtifactPath(Read(w.fs, env.json, PathOf(env, dir, REVIEW)), "phaseEvidenceManifest")
             == PathOf(env, dir, PACK)
    ensures var pack, review := Read(w.fs, env.json, PathOf(env, dir, PACK)),
                                Read(w.fs, env.json, PathOf(env, dir, REVIEW));
            && At(review, ["environment"]) == At(pack, ["environment"])
            && At(review, ["target"]) == At(pack, ["target"])
  {
    hide At, TextAt, ArtifactPath, PathOf, HasFormat, IsTimestamp, AllStamped, ReviewFormats, ReviewLinks,
      ReviewApproved, SummaryValue, SummarizeForReview, ReadReviewed;
  }

  /** A ready gate is about one release: the evidence pack lists the gate's own files, and bundle, workspace manifest,
      readiness report, pack, review and closure archive name one target, the one the gate is called with, and the
      first four one environment. Where the review lists the gate's own phase gate report, it, the closure archive
      and the readiness report agree with the rest as well. */
  lemma {:induction false} ReadyIsOneRelease(env: Env, w: World, c: Call)
    requires Ready(env, w, c)
    ensures OwnPack(env, w, c.dir) && OneStatus(env, w, c) && OneEnvironment(env, w, c)
    ensures var gatePath := ArtifactPath(Read(w.fs, env.json, PathOf(env, c.dir, REVIEW)), "phaseGateValidation");
            gatePath == PathOf(env, c.dir, PHASE_GATE_REPORT) ==> ReviewAgrees(env, w, c)
  {
    hide Ready, At, TextAt, ArtifactPath, PathOf, WorkspaceValid, EvidencePackValid, PhaseGateReportValid,
      DecisionCheck, SignoffCheck, AttachmentCheck, WaiverCheck, ReviewValid, ClosureValid, OwnPack;
    ReadyChecks(env, w, c);
    ReadyTargets(env, w, c);
    PackIsOwn(env, w, c.dir);
    ClosureRepeats(env, w, c);
    PackSays(env, w, c.dir);
    var review := Read(w.fs, env.json, PathOf(env, c.dir, REVIEW));
    if ArtifactPath(review, "phaseGateValidation") == PathOf(env, c.dir, PHASE_GATE_REPORT) {
      PackIsDefault(env, w, c.dir, review);
      ReviewSays(env, w, c.dir);
    }
  }
}
