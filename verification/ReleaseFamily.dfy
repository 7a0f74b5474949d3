/** A family of releases: for any hash, any file contents, any date parser, any further fields in the documents
    and any path of the reviewed waiver register, a release in which every document is a file of its own and
    the readers agree on every file's format. */
module ReleaseFamily {
  import opened Wrappers
  import opened Json
  import opened Files
  import opened Attachments
  import opened Waivers
  import opened WaiverRegister
  import opened EvidenceChain
  import opened ReleaseGate
  import Signoffs

  // ---------------------------------------------------------------- paths

  const CWD := "/work"
  const DIR := "/release"
  const README := "README.md"

  /** One step of path.resolve, for paths without . and .. */
  function Under(dir: string, path: string): string {
    if path == "" then dir else if path[0] == '/' then path else dir + "/" + path
  }

  function Resolve(dir: string, path: string): string {
    Under(Under(CWD, dir), path)
  }

  /** The path of a file of the evidence directory. */
  function P(name: string): string {
    Resolve(DIR, name)
  }

  function Template(): string {
    Resolve("", TEMPLATE_PATH)
  }

  /** The name of a file in the evidence directory. */
  function NameOf(path: string): string {
    if |path| <= |DIR| then "" else path[|DIR| + 1..]
  }

  lemma {:induction false} ResolvedIsAbsolute(dir: string, path: string)
    ensures Resolve(dir, path) != "" && Resolve(dir, path)[0] == '/'
    ensures forall base :: Resolve(base, Resolve(dir, path)) == Resolve(dir, path)
  {
  }

  lemma {:induction false} TemplatePlace()
    ensures Template() == CWD + "/" + TEMPLATE_PATH
  {
    var front, back := "docs/templates/", "deployment-evidence-bundle.json";
    assert TEMPLATE_PATH == front + back;
    assert (front + back)[0] == front[0] == 'd';
    hide TEMPLATE_PATH;
  }

  lemma {:induction false} InDirectory(name: string)
    requires name != "" && name[0] != '/'
    ensures P(name) == DIR + "/" + name && NameOf(P(name)) == name && P(name) != Template()
    ensures forall base :: Resolve(base, P(name)) == P(name)
  {
    TemplatePlace();
    hide TEMPLATE_PATH, Template;
    assert P(name) == DIR + "/" + name;
    assert P(name)[1] == 'r' && Template()[1] == 'w';
  }

  /** The gate's files have distinct names. */
  lemma {:induction false} NameShapes()
    ensures |READINESS| == 20 && |GAPS| == 21 && |SIGNOFF| == 25 && |COMPLETION| == 27 && |REDACTION_REPORT| == 32
    ensures |CLOSURE| == 35 && |WORKSPACE_MANIFEST| == 43 && |PACK| == |REVIEW| == 33
    ensures |ACTIONS| == |DECISION| == |HANDOFF| == |INTAKE_FILE| == |PHASE_GATE_REPORT| == |REGISTER_FILE| == 26
    ensures |BUNDLE| == |INVENTORY_FILE| == |REQUESTS| == |STATUS_REPORT| == 31
    ensures PACK[6] == 'e' && REVIEW[6] == 'r'
    ensures ACTIONS[6] == 'a' && DECISION[6] == 'd' && HANDOFF[6] == 'h' && INTAKE_FILE[6] == 'e'
    ensures PHASE_GATE_REPORT[6] == 'g' && REGISTER_FILE[6] == 'w'
    ensures BUNDLE[20] == 'b' && STATUS_REPORT[20] == 's' && INVENTORY_FILE[20] == 'e' && REQUESTS[20] == 'q'
  {
  }

  // ---------------------------------------------------------------- the family

  /** What a release depends on: the hash, the date parser and the secret rules; what stands in the file at each
      path, and what its JSON holds besides the fields below; the evidence names of the bundle with their
      files; the command scripts, actions, gap phases and intake items; the names of the attached files; the
      summaries of the review; and the path of the waiver register under review. */
  datatype Setting = Setting(
    sha256: Bytes -> string, dateParse: string -> Option<int>, scan: Bytes -> seq<Finding>,
    content: string -> Bytes, rest: string -> map<string, Value>, evidence: map<string, string>,
    commands: Commands, actions: seq<Signoffs.Action>, phases: seq<Signoffs.GapPhase>, items: seq<IntakeItem>,
    attached: set<string>, summary: string -> Value, reviewed: string)

  const NOW := "2026-01-01T00:00:00Z"
  const TODAY := "2026-01-01"
  const EXPIRY := "2030-01-01"

  function PackFile(name: string): string {
    if name == "deploymentWorkspaceManifest" then WORKSPACE_MANIFEST
    else if name == "deploymentBundle" then BUNDLE
    else if name == "deploymentStatus" then STATUS_REPORT
    else if name == "deploymentRedaction" then REDACTION_REPORT
    else if name == "externalRequests" then REQUESTS
    else if name == "phaseCompletionAudit" then COMPLETION
    else if name == "phaseReadiness" then READINESS
    else if name == "phaseHandoffChecklist" then HANDOFF
    else name + ".md"
  }

  function ReviewFile(name: string): string {
    if name == "phaseEvidenceManifest" then PACK
    else if name == "phaseGateValidation" then PHASE_GATE_REPORT
    else if name == "phaseActionRegister" then ACTIONS
    else if name == "phaseGapMatrix" then GAPS
    else if name == "phaseDecisionRecord" then DECISION
    else if name == "phaseSignoffMatrix" then SIGNOFF
    else if name == "phaseEvidenceIntake" then INTAKE_FILE
    else if name == "phaseAttachmentInventory" then INVENTORY_FILE
    else name + ".md"
  }

  /** Where the review finds an artifact: in the evidence directory, but for the waiver register. */
  function ReviewedAt(s: Setting, name: string): string {
    if name == "phaseWaiverRegister" then s.reviewed else P(ReviewFile(name))
  }

  function Paths(s: Setting): set<string> {
    (set f | f in GATE_FILES :: P(f.file)) + (set n | n in PACK_ARTIFACTS :: P(PackFile(n)))
    + (set n | n in REVIEW_ARTIFACTS :: ReviewedAt(s, n))
    + (set n | n in s.evidence :: P(s.evidence[n])) + (set n | n in s.attached :: P(n))
    + {Template(), s.reviewed, P(README)}
  }

  function Fs(s: Setting): FileSystem {
    map path | path in Paths(s) :: s.content(path)
  }

  /** A path the gate reads no other document from. */
  predicate Free(path: string) {
    path != "" && path != Template() && forall f | f in GATE_FILES && P(f.file) == path :: f.file == REGISTER_FILE
  }

  /** No two paths have the same content. */
  ghost predicate OnePathEach(content: string -> Bytes) {
    forall a, b :: content(a) == content(b) ==> a == b
  }

  /** No secret rule fires on the file, if it is there. */
  predicate Clean(s: Setting, path: string) {
    path in Paths(s) ==> s.scan(s.content(path)) == []
  }

  /** The path of an expected file. */
  function Target(s: Setting, i: nat, j: nat): string
    requires i < |s.items| && j < |s.items[i].expectedFiles|
  {
    P(s.items[i].expectedFiles[j].targetPath)
  }

  /** Files at different paths are different and not empty, hashes are digests, the two dates are dates in order;
      every action is complete, no artifact is missing, and no rule fires on an expected file. */
  ghost predicate Plausible(s: Setting) {
    && (forall path :: s.content(path) != []) && OnePathEach(s.content)
    && (forall b :: IsDigest(s.sha256(b)))
    && s.dateParse(NOW).Some? && s.dateParse(EXPIRY).Some? && s.dateParse(EXPIRY).value > s.dateParse(NOW).value
    && Signoffs.Pending(s.actions) == [] && Signoffs.MissingIn(s.phases) == []
    && (forall i: nat, j: nat | i < |s.items| && j < |s.items[i].expectedFiles| :: Clean(s, Target(s, i, j)))
    && Free(s.reviewed)
  }

  /** Some expected file is no file of the release. */
  ghost predicate SomeAbsent(s: Setting) {
    exists i: nat, j: nat | i < |s.items| && j < |s.items[i].expectedFiles| :: Target(s, i, j) !in Paths(s)
  }

  function HostOf(s: Setting): Host {
    Host(s.sha256, Resolve, s.dateParse, s.scan)
  }

  function Entry(s: Setting, path: string): Value {
    Object(map["path" := Str(path), "bytes" := Number(|s.content(path)| as real),
               "sha256" := Str(s.sha256(s.content(path)))])
  }

  // ---------------------------------------------------------------- the documents that are computed with

  function State(): Signoffs.GateState {
    Signoffs.GateState(true, true, 0, 0, 0, 0)
  }

  function GateDoc(): Signoffs.PhaseGate {
    Signoffs.PhaseGate(Signoffs.GATE_FORMAT, None, P(PACK), State())
  }

  function ActionsDoc(s: Setting): Signoffs.ActionRegister {
    Signoffs.ActionRegister(Signoffs.REGISTER_FORMAT, P(PHASE_GATE_REPORT), s.commands, s.actions)
  }

  function GapsDoc(s: Setting): Signoffs.GapMatrix {
    Signoffs.GapMatrix(Signoffs.GAP_FORMAT, "prod", "ops", "production", |s.actions|, s.commands, s.phases)
  }

  function DecisionDoc(s: Setting): Signoffs.DecisionRecord {
    Signoffs.PrepareDecision(P(PHASE_GATE_REPORT), P(ACTIONS), P(GAPS), NOW, GateDoc(), ActionsDoc(s), GapsDoc(s))
  }

  function MatrixDoc(s: Setting): Signoffs.Matrix {
    Signoffs.PrepareMatrix(P(DECISION), P(ACTIONS), NOW, DecisionDoc(s), ActionsDoc(s))
  }

  function IntakeDoc(s: Setting): Intake {
    Intake(INTAKE_FORMAT, "prod", "ops", P(SIGNOFF), P(GAPS), s.commands, s.items)
  }

  function InventoryDoc(s: Setting): Inventory {
    PrepareInventory(HostOf(s), Fs(s), DIR, P(INTAKE_FILE), IntakeDoc(s), NOW)
  }

  /** Every waiver approved, with its references. */
  function ApproveWaivers(proposed: seq<Waiver>): (r: seq<Waiver>)
    ensures |r| == |proposed|
    ensures forall k | 0 <= k < |r| ::
              r[k] == proposed[k].(status := "approved", expiresAt := Some(EXPIRY), approvalReference := Some("CHG-1"),
                                   compensatingControl := Some("manual review"))
  {
    seq(|proposed|, k requires 0 <= k < |proposed| =>
      proposed[k].(status := "approved", expiresAt := Some(EXPIRY), approvalReference := Some("CHG-1"),
                   compensatingControl := Some("manual review")))
  }

  function ReviewedRegister(s: Setting): Register {
    var prepared := PreparedRegister(InventoryDoc(s), P(INVENTORY_FILE), DecisionDoc(s), P(DECISION), NOW);
    var waivers := ApproveWaivers(prepared.waivers);
    prepared.(waivers := waivers, summary := Summarize(waivers, s.commands))
  }

  /** The gate's own register: the reviewed one, or, where the review lists another file, one whose waivers
      have no references. */
  function OwnRegister(s: Setting): Register {
    var register := ReviewedRegister(s);
    if s.reviewed == P(REGISTER_FILE) then register
    else register.(waivers := WithoutReferences(register.waivers))
  }

  // ---------------------------------------------------------------- the manifests

  const BUNDLE_FORMAT := "sentinel-deployment-evidence-bundle-v1"
  const WORKSPACE_FORMAT := "sentinel-deployment-evidence-workspace-manifest-v1"
  const READINESS_FORMAT := "sentinel-phase-readiness-report-v1"
  const REDACTION_FORMAT := "sentinel-deployment-redaction-report-v1"
  const PACK_FORMAT := "sentinel-phase-evidence-pack-manifest-v1"
  const REVIEW_FORMAT := "sentinel-phase-review-bundle-manifest-v1"
  const CLOSURE_FORMAT := "sentinel-phase-closure-archive-manifest-v1"

  /** A document of these fields and any others. */
  function With(s: Setting, path: string, fields: map<string, Value>): Value {
    Object(s.rest(path) + fields)
  }

  function BundleDoc(s: Setting): Value {
    With(s, P(BUNDLE), map[
      "format" := Str(BUNDLE_FORMAT), "environment" := Str("prod"), "status" := Str("production"),
      "owner" := Str("ops"), "evidence" := Object(map n | n in s.evidence :: Str(P(s.evidence[n])))])
  }

  function WorkspaceDoc(s: Setting): Value {
    With(s, P(WORKSPACE_MANIFEST), map[
      "format" := Str(WORKSPACE_FORMAT), "generatedAt" := Str(NOW), "environment" := Str("prod"),
      "status" := Str("production"), "owner" := Str("ops"), "outputDir" := Str(DIR),
      "bundle" := Entry(s, P(BUNDLE)), "readme" := Entry(s, P(README)),
      "evidence" := Object(map n | n in s.evidence :: Entry(s, P(s.evidence[n])))])
  }

  function ReadinessDoc(s: Setting): Value {
    With(s, P(READINESS), map[
      "format" := Str(READINESS_FORMAT), "target" := Str("production"), "ready" := Bool(true),
      "bundle" := Object(map["environment" := Str("prod"), "status" := Str("production")])])
  }

  function RedactionDoc(s: Setting): Value {
    With(s, P(REDACTION_REPORT), map["format" := Str(REDACTION_FORMAT), "bundle" := Str(P(BUNDLE))])
  }

  function PackDoc(s: Setting): Value {
    With(s, P(PACK), map[
      "format" := Str(PACK_FORMAT), "generatedAt" := Str(NOW), "environment" := Str("prod"),
      "target" := Str("production"), "bundleStatus" := Str("production"), "ready" := Bool(true),
      "artifacts" := Object(map n | n in PACK_ARTIFACTS :: Entry(s, P(PackFile(n))))])
  }

  /** What the closure archive repeats of the review manifest. */
  function ReviewFields(s: Setting): map<string, Value> {
    map[
      "environment" := Str("prod"), "target" := Str("production"), "ready" := Bool(true), "validated" := Bool(true),
      "decision" := Str(Signoffs.APPROVE), "blockerCount" := Number(0.0), "warningCount" := Number(0.0),
      "waiverSummary" := SummaryValue(SummarizeForReview(ReviewedRegister(s).waivers, TODAY)),
      "evidenceKeySummary" := s.summary("evidenceKeySummary"),
      "commandCoverageSummary" := s.summary("commandCoverageSummary"),
      "markdownCoverageSummary" := s.summary("markdownCoverageSummary")]
  }

  function ReviewDoc(s: Setting): Value {
    With(s, P(REVIEW), ReviewFields(s) + map[
      "format" := Str(REVIEW_FORMAT), "generatedAt" := Str(NOW), "remainingPhaseCount" := Number(0.0),
      "remainingItemCount" := Number(0.0),
      "artifacts" := Object(map n | n in REVIEW_ARTIFACTS :: Entry(s, ReviewedAt(s, n)))])
  }

  /** The names in some order. */
  ghost function ListOf(names: set<string>): (r: seq<Value>)
    ensures |r| == |names| && forall n | n in names :: Str(n) in r
  {
    if names == {} then []
    else
      var n :| n in names;
      [Str(n)] + ListOf(names - {n})
  }

  function Commit(): string {
    seq(40, _ => 'a')
  }

  function SourceFields(): Value {
    Object(map[
      "commit" := Str(Commit()), "branch" := Str("main"), "remote" := Str("origin"), "cleanTree" := Bool(true),
      "statusPorcelain" := Str("")])
  }

  ghost function ClosureReview(s: Setting): Value {
    var names := KeysOf(Some(ReviewDoc(s)), "artifacts");
    Object(ReviewFields(s) + map[
      "manifest" := Entry(s, P(REVIEW)), "artifactCount" := Number(|names| as real),
      "artifactNames" := List(ListOf(names))])
  }

  ghost function ClosureDoc(s: Setting): Value {
    With(s, P(CLOSURE), map[
      "format" := Str(CLOSURE_FORMAT), "generatedAt" := Str(NOW), "source" := SourceFields(),
      "review" := ClosureReview(s)])
  }

  // ---------------------------------------------------------------- reading

  /** The format of a document that is read into its own type, or not read further. */
  function FormatOf(name: string): string {
    if name == PHASE_GATE_REPORT then Signoffs.GATE_FORMAT
    else if name == ACTIONS then Signoffs.REGISTER_FORMAT
    else if name == GAPS then Signoffs.GAP_FORMAT
    else if name == DECISION then Signoffs.DECISION_FORMAT
    else if name == SIGNOFF then Signoffs.MATRIX_FORMAT
    else if name == INTAKE_FILE then INTAKE_FORMAT
    else if name == INVENTORY_FILE then INVENTORY_FORMAT
    else if name == REGISTER_FILE then Waivers.REGISTER_FORMAT
    else if name == STATUS_REPORT then "sentinel-deployment-evidence-status-v1"
    else "text"
  }

  ghost function DocumentNamed(s: Setting, name: string): Value {
    if name == BUNDLE then BundleDoc(s)
    else if name == WORKSPACE_MANIFEST then WorkspaceDoc(s)
    else if name == READINESS then ReadinessDoc(s)
    else if name == REDACTION_REPORT then RedactionDoc(s)
    else if name == PACK then PackDoc(s)
    else if name == REVIEW then ReviewDoc(s)
    else if name == CLOSURE then ClosureDoc(s)
    else With(s, P(name), map["format" := Str(FormatOf(name))])
  }

  /** What the file at a path says as JSON. */
  ghost function DocumentAt(s: Setting, path: string): Value {
    if path == Template() then BundleDoc(s)
    else if path == s.reviewed then With(s, path, map["format" := Str(Waivers.REGISTER_FORMAT)])
    else DocumentNamed(s, NameOf(path))
  }

  /** JSON.parse: the document of the path with this content. */
  ghost function Parse(s: Setting, bytes: Bytes): Option<Value> {
    if exists path :: s.content(path) == bytes
    then
      var path :| s.content(path) == bytes;
      Some(DocumentAt(s, path))
    else None
  }

  function Only<T>(s: Setting, path: string, document: T): Bytes -> Option<T> {
    bytes => if bytes == s.content(path) then Some(document) else None
  }

  ghost function EnvOf(s: Setting): Env {
    Env(HostOf(s), bytes => Parse(s, bytes), Only(s, P(INTAKE_FILE), IntakeDoc(s)),
        Only(s, P(INVENTORY_FILE), InventoryDoc(s)),
        bytes => if bytes == s.content(P(REGISTER_FILE)) then Some(OwnRegister(s))
                 else if bytes == s.content(s.reviewed) then Some(ReviewedRegister(s)) else None,
        Only(s, P(DECISION), DecisionDoc(s)), Only(s, P(ACTIONS), ActionsDoc(s)), Only(s, P(GAPS), GapsDoc(s)),
        Only(s, P(PHASE_GATE_REPORT), GateDoc()), Only(s, P(SIGNOFF), MatrixDoc(s)),
        (_, _) => true, (_, _, _) => true, (_, _, _) => false, _ => State(), (_, _) => map[])
  }

  function WorldOf(s: Setting): World {
    World(Fs(s), s.dateParse(NOW).GetOr(0), TODAY, Commit(), "main", "origin")
  }

  /** One file has one format: what a reader finds in it, its JSON says as well. */
  ghost predicate Coherent(env: Env) {
    forall b :: CoherentAt(env, b)
  }

  predicate CoherentAt(env: Env, b: Bytes) {
    && (env.intake(b).Some? ==> HasFormat(env.json(b), env.intake(b).value.format))
    && (env.inventory(b).Some? ==> HasFormat(env.json(b), env.inventory(b).value.format))
    && (env.register(b).Some? ==> HasFormat(env.json(b), env.register(b).value.format))
    && (env.decision(b).Some? ==> HasFormat(env.json(b), env.decision(b).value.format))
    && (env.actions(b).Some? ==> HasFormat(env.json(b), env.actions(b).value.format))
    && (env.gaps(b).Some? ==> HasFormat(env.json(b), env.gaps(b).value.format))
    && (env.gate(b).Some? ==> HasFormat(env.json(b), env.gate(b).value.format))
    && (env.matrix(b).Some? ==> HasFormat(env.json(b), env.matrix(b).value.format))
  }

  // ---------------------------------------------------------------- what stands where

  predicate IsGateFile(name: string) {
    exists f | f in GATE_FILES :: f.file == name
  }

  lemma {:induction false} GateFileIndex(i: nat)
    requires i < |GATE_FILES|
    ensures IsGateFile(GATE_FILES[i].file)
  {
    hide GATE_FILES;
  }

  lemma {:induction false} EvidenceFiles()
    ensures IsGateFile(BUNDLE) && IsGateFile(WORKSPACE_MANIFEST) && IsGateFile(STATUS_REPORT)
    ensures IsGateFile(REDACTION_REPORT) && IsGateFile(REQUESTS) && IsGateFile(READINESS) && IsGateFile(HANDOFF)
    ensures IsGateFile(COMPLETION) && IsGateFile(PACK)
  {
    hide IsGateFile, BUNDLE, WORKSPACE_MANIFEST, STATUS_REPORT, REDACTION_REPORT, REQUESTS, READINESS, HANDOFF,
      COMPLETION, PACK;
    assert |GATE_FILES| == 19;
    forall i: nat | i < 9
      ensures IsGateFile(GATE_FILES[i].file)
    {
      GateFileIndex(i);
    }
    var g := GATE_FILES;
    assert g[0].file == BUNDLE && g[1].file == WORKSPACE_MANIFEST && g[2].file == STATUS_REPORT;
    assert g[3].file == REDACTION_REPORT && g[4].file == REQUESTS && g[5].file == READINESS && g[6].file == HANDOFF;
    assert g[7].file == COMPLETION && g[8].file == PACK;
  }

  lemma {:induction false} PhaseFiles()
    ensures IsGateFile(PHASE_GATE_REPORT) && IsGateFile(ACTIONS) && IsGateFile(GAPS) && IsGateFile(DECISION)
    ensures IsGateFile(SIGNOFF) && IsGateFile(INTAKE_FILE) && IsGateFile(INVENTORY_FILE)
    ensures IsGateFile(REGISTER_FILE) && IsGateFile(REVIEW) && IsGateFile(CLOSURE)
  {
    hide IsGateFile, PHASE_GATE_REPORT, ACTIONS, GAPS, DECISION, SIGNOFF, INTAKE_FILE, INVENTORY_FILE, REGISTER_FILE,
      REVIEW, CLOSURE;
    assert |GATE_FILES| == 19;
    forall i: nat | i < 19
      ensures IsGateFile(GATE_FILES[i].file)
    {
      GateFileIndex(i);
    }
    var g := GATE_FILES;
    assert g[9].file == PHASE_GATE_REPORT && g[10].file == ACTIONS && g[11].file == GAPS && g[12].file == DECISION;
    assert g[13].file == SIGNOFF && g[14].file == INTAKE_FILE && g[15].file == INVENTORY_FILE;
    assert g[16].file == REGISTER_FILE && g[17].file == REVIEW && g[18].file == CLOSURE;
  }

  /** A file of the gate is on disk, and no other document is at its path. */
  lemma {:induction false} GateFileAt(s: Setting, name: string)
    requires Free(s.reviewed) && IsGateFile(name)
    ensures P(name) in Paths(s) && (P(name) == s.reviewed ==> name == REGISTER_FILE)
  {
    hide P, GATE_FILES, PACK_ARTIFACTS, REVIEW_ARTIFACTS, PackFile, ReviewedAt, Template;
    var f :| f in GATE_FILES && f.file == name;
    if P(name) == s.reviewed {
      RegisterOnly(s.reviewed, f);
    }
  }

  lemma {:induction false} RegisterOnly(path: string, f: GateFile)
    requires Free(path) && f in GATE_FILES && P(f.file) == path
    ensures f.file == REGISTER_FILE
  {
    hide P, GATE_FILES, Template;
  }

  lemma {:induction false} Contents(s: Setting, path: string)
    requires Plausible(s)
    ensures Parse(s, s.content(path)) == Some(DocumentAt(s, path))
    ensures path in Paths(s) ==> path in Fs(s) && Fs(s)[path] == s.content(path) && |Fs(s)[path]| > 0
    ensures path in Paths(s) ==> Read(Fs(s), EnvOf(s).json, path) == Some(DocumentAt(s, path))
  {
    hide Paths, DocumentAt, IntakeDoc, InventoryDoc, OwnRegister, ReviewedRegister, DecisionDoc, ActionsDoc, GapsDoc,
      GateDoc, MatrixDoc, P, Free, IsDigest, HostOf, State;
  }

  /** The document of a gate file. */
  lemma {:induction false} GateDocument(s: Setting, name: string)
    requires Plausible(s) && IsGateFile(name) && name != "" && name[0] != '/' && name != REGISTER_FILE
    ensures Read(Fs(s), EnvOf(s).json, P(name)) == Some(DocumentNamed(s, name)) && P(name) in Fs(s)
  {
    hide Paths, Fs, P, Template, EnvOf, DocumentNamed, IsGateFile, NameOf, REGISTER_FILE, Read, Parse;
    InDirectory(name);
    GateFileAt(s, name);
    Contents(s, P(name));
  }

  predicate Relative(name: string) {
    name != "" && name[0] != '/'
  }

  lemma {:induction false} RelativeNames()
    ensures Relative(BUNDLE) && Relative(WORKSPACE_MANIFEST) && Relative(READINESS) && Relative(REDACTION_REPORT)
    ensures Relative(PACK) && Relative(REVIEW) && Relative(CLOSURE) && Relative(STATUS_REPORT)
    ensures Relative(PHASE_GATE_REPORT) && Relative(ACTIONS) && Relative(GAPS) && Relative(DECISION)
    ensures Relative(SIGNOFF) && Relative(INTAKE_FILE) && Relative(INVENTORY_FILE) && Relative(REGISTER_FILE)
  {
  }

  lemma {:induction false} NamedDocuments(s: Setting)
    ensures DocumentNamed(s, BUNDLE) == BundleDoc(s) && DocumentNamed(s, WORKSPACE_MANIFEST) == WorkspaceDoc(s)
    ensures DocumentNamed(s, READINESS) == ReadinessDoc(s) && DocumentNamed(s, REDACTION_REPORT) == RedactionDoc(s)
    ensures DocumentNamed(s, PACK) == PackDoc(s) && DocumentNamed(s, REVIEW) == ReviewDoc(s)
    ensures DocumentNamed(s, CLOSURE) == ClosureDoc(s)
  {
    NameShapes();
    hide BUNDLE, WORKSPACE_MANIFEST, STATUS_REPORT, REDACTION_REPORT, READINESS, PACK, REVIEW, CLOSURE, BundleDoc,
      WorkspaceDoc, ReadinessDoc, RedactionDoc, PackDoc, ReviewDoc, ClosureDoc;
  }

  lemma {:induction false} NamedFormats()
    ensures FormatOf(PHASE_GATE_REPORT) == Signoffs.GATE_FORMAT && FormatOf(ACTIONS) == Signoffs.REGISTER_FORMAT
    ensures FormatOf(GAPS) == Signoffs.GAP_FORMAT && FormatOf(DECISION) == Signoffs.DECISION_FORMAT
    ensures FormatOf(SIGNOFF) == Signoffs.MATRIX_FORMAT && FormatOf(INTAKE_FILE) == INTAKE_FORMAT
    ensures FormatOf(INVENTORY_FILE) == INVENTORY_FORMAT && FormatOf(REGISTER_FILE) == Waivers.REGISTER_FORMAT
  {
    NameShapes();
    hide STATUS_REPORT, PHASE_GATE_REPORT, ACTIONS, GAPS, DECISION, SIGNOFF, INTAKE_FILE, INVENTORY_FILE,
      REGISTER_FILE, Signoffs.GATE_FORMAT, Signoffs.REGISTER_FORMAT, Signoffs.GAP_FORMAT, Signoffs.DECISION_FORMAT,
      Signoffs.MATRIX_FORMAT, INTAKE_FORMAT, INVENTORY_FORMAT, Waivers.REGISTER_FORMAT;
  }

  predicate TypedName(name: string) {
    name in [PHASE_GATE_REPORT, ACTIONS, GAPS, DECISION, SIGNOFF, INTAKE_FILE, INVENTORY_FILE, REGISTER_FILE]
  }

  lemma {:induction false} TypedDocument(s: Setting, name: string)
    requires TypedName(name) || name == STATUS_REPORT
    ensures DocumentNamed(s, name) == With(s, P(name), map["format" := Str(FormatOf(name))])
  {
    NameShapes();
    hide BUNDLE, WORKSPACE_MANIFEST, STATUS_REPORT, REDACTION_REPORT, READINESS, PACK, REVIEW, CLOSURE, BundleDoc,
      WorkspaceDoc, ReadinessDoc, RedactionDoc, PackDoc, ReviewDoc, ClosureDoc, FormatOf, PHASE_GATE_REPORT, ACTIONS,
      GAPS, DECISION, SIGNOFF, INTAKE_FILE, INVENTORY_FILE, REGISTER_FILE;
  }

  /** The manifests, read from the disk. */
  lemma {:induction false} ReadManifests(s: Setting)
    requires Plausible(s)
    ensures var fs, json := Fs(s), EnvOf(s).json;
            && Read(fs, json, P(BUNDLE)) == Some(BundleDoc(s)) && Read(fs, json, Template()) == Some(BundleDoc(s))
            && Read(fs, json, P(WORKSPACE_MANIFEST)) == Some(WorkspaceDoc(s))
            && Read(fs, json, P(READINESS)) == Some(ReadinessDoc(s))
            && Read(fs, json, P(REDACTION_REPORT)) == Some(RedactionDoc(s))
            && Read(fs, json, P(PACK)) == Some(PackDoc(s)) && Read(fs, json, P(REVIEW)) == Some(ReviewDoc(s))
            && Read(fs, json, P(CLOSURE)) == Some(ClosureDoc(s))
  {
    RelativeNames();
    NameShapes();
    EvidenceFiles();
    PhaseFiles();
    NamedDocuments(s);
    hide BUNDLE, WORKSPACE_MANIFEST, READINESS, REDACTION_REPORT, PACK, REVIEW, CLOSURE, REGISTER_FILE, BundleDoc,
      WorkspaceDoc, ReadinessDoc, RedactionDoc, PackDoc, ReviewDoc, ClosureDoc, DocumentNamed, EnvOf, Fs, Read, P,
      Template, IsGateFile, Plausible;
    GateDocument(s, BUNDLE);
    GateDocument(s, WORKSPACE_MANIFEST);
    GateDocument(s, READINESS);
    GateDocument(s, REDACTION_REPORT);
    GateDocument(s, PACK);
    GateDocument(s, REVIEW);
    GateDocument(s, CLOSURE);
    Contents(s, Template());
  }

  /** What the release does not compute with. */
  lemma {:induction false} EnvFacts(s: Setting)
    ensures EnvOf(s).host == HostOf(s)
    ensures forall what: string, fs: FileSystem :: EnvOf(s).summariesAgree(what, fs)
    ensures forall name: string, target: string, w: World :: EnvOf(s).succeeds(name, target, w)
    ensures forall name: string, target: string, w: World :: !EnvOf(s).raises(name, target, w)
    ensures forall w: World :: EnvOf(s).gateState(w) == State()
  {
    hide Parse, IntakeDoc, InventoryDoc, OwnRegister, ReviewedRegister, DecisionDoc, ActionsDoc, GapsDoc, GateDoc,
      MatrixDoc, HostOf, P, State, Only;
  }

  /** Each reader finds its document in its own file and nowhere else; the register's reader finds two. */
  lemma {:induction false} Readers(s: Setting)
    requires Plausible(s)
    ensures var e, at := EnvOf(s), s.content;
            forall b ::
              && e.intake(b) == (if b == at(P(INTAKE_FILE)) then Some(IntakeDoc(s)) else None)
              && e.inventory(b) == (if b == at(P(INVENTORY_FILE)) then Some(InventoryDoc(s)) else None)
              && e.decision(b) == (if b == at(P(DECISION)) then Some(DecisionDoc(s)) else None)
              && e.actions(b) == (if b == at(P(ACTIONS)) then Some(ActionsDoc(s)) else None)
              && e.gaps(b) == (if b == at(P(GAPS)) then Some(GapsDoc(s)) else None)
              && e.gate(b) == (if b == at(P(PHASE_GATE_REPORT)) then Some(GateDoc()) else None)
              && e.matrix(b) == (if b == at(P(SIGNOFF)) then Some(MatrixDoc(s)) else None)
              && e.register(b) == (if b == at(P(REGISTER_FILE)) then Some(OwnRegister(s))
                                   else if b == at(s.reviewed) then Some(ReviewedRegister(s)) else None)
    ensures forall b :: EnvOf(s).json(b) == Parse(s, b)
  {
    hide Parse, IntakeDoc, InventoryDoc, OwnRegister, ReviewedRegister, DecisionDoc, ActionsDoc, GapsDoc, GateDoc,
      MatrixDoc, HostOf, P, State, Plausible;
  }

  /** The documents, read from the disk. */
  lemma {:induction false} ReadDocuments(s: Setting)
    requires Plausible(s)
    ensures var fs, e := Fs(s), EnvOf(s);
            && Read(fs, e.intake, P(INTAKE_FILE)) == Some(IntakeDoc(s))
            && Read(fs, e.inventory, P(INVENTORY_FILE)) == Some(InventoryDoc(s))
            && Read(fs, e.decision, P(DECISION)) == Some(DecisionDoc(s))
            && Read(fs, e.actions, P(ACTIONS)) == Some(ActionsDoc(s)) && Read(fs, e.gaps, P(GAPS)) == Some(GapsDoc(s))
            && Read(fs, e.gate, P(PHASE_GATE_REPORT)) == Some(GateDoc())
            && Read(fs, e.matrix, P(SIGNOFF)) == Some(MatrixDoc(s))
            && Read(fs, e.register, P(REGISTER_FILE)) == Some(OwnRegister(s))
            && Read(fs, e.register, s.reviewed) == Some(ReviewedRegister(s))
  {
    hide INTAKE_FILE, INVENTORY_FILE, DECISION, ACTIONS, GAPS, PHASE_GATE_REPORT, SIGNOFF, REGISTER_FILE, IntakeDoc,
      InventoryDoc, DecisionDoc, ActionsDoc, GapsDoc, GateDoc, MatrixDoc, OwnRegister, ReviewedRegister, EnvOf, Fs, P,
      Paths, IsGateFile, Parse, Plausible;
    PhaseFiles();
    Readers(s);
    ReviewedFile(s);
    OnDisk(s, INTAKE_FILE);
    OnDisk(s, INVENTORY_FILE);
    OnDisk(s, DECISION);
    OnDisk(s, ACTIONS);
    OnDisk(s, GAPS);
    OnDisk(s, PHASE_GATE_REPORT);
    OnDisk(s, SIGNOFF);
    OnDisk(s, REGISTER_FILE);
  }

  lemma {:induction false} ReviewedFile(s: Setting)
    requires Plausible(s)
    ensures s.reviewed in Fs(s) && Fs(s)[s.reviewed] == s.content(s.reviewed)
    ensures s.content(s.reviewed) == s.content(P(REGISTER_FILE)) ==> OwnRegister(s) == ReviewedRegister(s)
  {
    hide P, ReviewedRegister, REGISTER_FILE, EnvOf, Parse, Free, IsDigest, GATE_FILES, PACK_ARTIFACTS,
      REVIEW_ARTIFACTS, Template;
    Contents(s, s.reviewed);
  }

  lemma {:induction false} OnDisk(s: Setting, name: string)
    requires Plausible(s) && IsGateFile(name)
    ensures P(name) in Paths(s) && P(name) in Fs(s) && Fs(s)[P(name)] == s.content(P(name))
  {
    hide P, Paths, Fs, EnvOf, IsGateFile;
    GateFileAt(s, name);
    Contents(s, P(name));
  }

  lemma {:induction false} DocumentFormats(s: Setting)
    ensures IntakeDoc(s).format == INTAKE_FORMAT && InventoryDoc(s).format == INVENTORY_FORMAT
    ensures DecisionDoc(s).format == Signoffs.DECISION_FORMAT && ActionsDoc(s).format == Signoffs.REGISTER_FORMAT
    ensures GapsDoc(s).format == Signoffs.GAP_FORMAT && GateDoc().format == Signoffs.GATE_FORMAT
    ensures MatrixDoc(s).format == Signoffs.MATRIX_FORMAT
    ensures OwnRegister(s).format == ReviewedRegister(s).format == Waivers.REGISTER_FORMAT
  {
    hide Signoffs.GATE_FORMAT, Signoffs.REGISTER_FORMAT, Signoffs.GAP_FORMAT, Signoffs.DECISION_FORMAT,
      Signoffs.MATRIX_FORMAT, INTAKE_FORMAT, INVENTORY_FORMAT, Waivers.REGISTER_FORMAT, P, Fs, HostOf, DIR, NOW,
      AttachAll, Total, Summarize, Drafts, ProposeAll, Signoffs.Summarize, Signoffs.SummarizeKeys, Signoffs.Cover,
      Signoffs.Decide, Signoffs.ApproveAll, Signoffs.Approvals, REGISTER_FILE, PHASE_GATE_REPORT, ACTIONS, GAPS,
      DECISION, SIGNOFF, INTAKE_FILE, INVENTORY_FILE, PACK;
  }

  lemma {:induction false} TypedNames()
    ensures TypedName(PHASE_GATE_REPORT) && TypedName(ACTIONS) && TypedName(GAPS) && TypedName(DECISION)
    ensures TypedName(SIGNOFF) && TypedName(INTAKE_FILE) && TypedName(INVENTORY_FILE) && TypedName(REGISTER_FILE)
  {
    hide INTAKE_FILE, INVENTORY_FILE, DECISION, ACTIONS, GAPS, PHASE_GATE_REPORT, SIGNOFF, REGISTER_FILE;
  }

  lemma {:induction false} OneStep(v: Value, name: string)
    ensures At(Some(v), [name]) == Get(v, name)
  {
    assert [name][1..] == [];
  }

  lemma {:induction false} TwoSteps(v: Value, first: string, second: string)
    requires Get(v, first).Some?
    ensures At(Some(v), [first, second]) == Get(Get(v, first).value, second)
  {
    assert [first, second][1..] == [second];
    OneStep(Get(v, first).value, second);
  }

  lemma {:induction false} FormatOnly(s: Setting, path: string, format: string)
    ensures HasFormat(Some(With(s, path, map["format" := Str(format)])), format)
  {
    OneStep(With(s, path, map["format" := Str(format)]), "format");
  }

  /** The JSON of a document that is read into its own type has the same format. */
  lemma {:induction false} TypedFormat(s: Setting, name: string)
    requires Plausible(s) && TypedName(name) && IsGateFile(name) && Relative(name)
    requires FormatOf(REGISTER_FILE) == Waivers.REGISTER_FORMAT
    ensures HasFormat(Parse(s, s.content(P(name))), FormatOf(name))
  {
    hide FormatOf, IsGateFile, P, Paths, Parse, Template, DocumentNamed, Fs, EnvOf, NameOf, STATUS_REPORT, TypedName,
      REGISTER_FILE, HasFormat, Waivers.REGISTER_FORMAT;
    Contents(s, P(name));
    GateFileAt(s, name);
    InDirectory(name);
    TypedDocument(s, name);
    FormatOnly(s, P(name), FormatOf(name));
  }

  lemma {:induction false} RegisterFormat(s: Setting)
    requires Plausible(s)
    ensures HasFormat(Parse(s, s.content(s.reviewed)), Waivers.REGISTER_FORMAT)
  {
    hide Parse, Template, Fs, EnvOf, Paths, Waivers.REGISTER_FORMAT, HasFormat;
    Contents(s, s.reviewed);
    FormatOnly(s, s.reviewed, Waivers.REGISTER_FORMAT);
  }

  lemma {:induction false} TypedFormats(s: Setting)
    requires Plausible(s)
    ensures HasFormat(Parse(s, s.content(P(INTAKE_FILE))), INTAKE_FORMAT)
    ensures HasFormat(Parse(s, s.content(P(INVENTORY_FILE))), INVENTORY_FORMAT)
    ensures HasFormat(Parse(s, s.content(P(DECISION))), Signoffs.DECISION_FORMAT)
    ensures HasFormat(Parse(s, s.content(P(ACTIONS))), Signoffs.REGISTER_FORMAT)
    ensures HasFormat(Parse(s, s.content(P(GAPS))), Signoffs.GAP_FORMAT)
    ensures HasFormat(Parse(s, s.content(P(PHASE_GATE_REPORT))), Signoffs.GATE_FORMAT)
    ensures HasFormat(Parse(s, s.content(P(SIGNOFF))), Signoffs.MATRIX_FORMAT)
    ensures HasFormat(Parse(s, s.content(P(REGISTER_FILE))), Waivers.REGISTER_FORMAT)
  {
    hide INTAKE_FILE, INVENTORY_FILE, DECISION, ACTIONS, GAPS, PHASE_GATE_REPORT, SIGNOFF, REGISTER_FILE, P, Parse,
      Plausible, HasFormat, FormatOf, TypedName, IsGateFile, Relative, Signoffs.GATE_FORMAT, Signoffs.REGISTER_FORMAT,
      Signoffs.GAP_FORMAT, Signoffs.DECISION_FORMAT, Signoffs.MATRIX_FORMAT, INTAKE_FORMAT, INVENTORY_FORMAT,
      Waivers.REGISTER_FORMAT;
    NamedFormats();
    TypedNames();
    PhaseFiles();
    RelativeNames();
    TypedFormat(s, INTAKE_FILE);
    TypedFormat(s, INVENTORY_FILE);
    TypedFormat(s, DECISION);
    TypedFormat(s, ACTIONS);
    TypedFormat(s, GAPS);
    TypedFormat(s, PHASE_GATE_REPORT);
    TypedFormat(s, SIGNOFF);
    TypedFormat(s, REGISTER_FILE);
  }

  /** The readers agree on the format of every file. */
  lemma {:induction false} ReleaseCoherent(s: Setting)
    requires Plausible(s)
    ensures Coherent(EnvOf(s))
  {
    hide INTAKE_FILE, INVENTORY_FILE, DECISION, ACTIONS, GAPS, PHASE_GATE_REPORT, SIGNOFF, REGISTER_FILE, IntakeDoc,
      InventoryDoc, DecisionDoc, ActionsDoc, GapsDoc, GateDoc, MatrixDoc, OwnRegister, ReviewedRegister, EnvOf, P,
      Parse, Plausible, HasFormat, Signoffs.GATE_FORMAT, Signoffs.REGISTER_FORMAT, Signoffs.GAP_FORMAT,
      Signoffs.DECISION_FORMAT, Signoffs.MATRIX_FORMAT, INTAKE_FORMAT, INVENTORY_FORMAT, Waivers.REGISTER_FORMAT;
    DocumentFormats(s);
    Readers(s);
    TypedFormats(s);
    RegisterFormat(s);
  }
}
