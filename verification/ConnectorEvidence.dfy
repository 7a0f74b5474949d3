/** The connector's certification file, the one evidence file whose own validator is modelled, and what
    marking it as released does to the status report and to the bundle validator. */
module ConnectorEvidence {
  import opened Wrappers
  import opened Json
  import opened StatusReport

  const CONNECTOR_FORMAT := "sentinel-connector-certification-evidence-v1"
  const PREFLIGHT_FORMAT := "sentinel-enterprise-connector-live-preflight-v1"
  const CONNECTORS: seq<string> := ["siem", "itsm", "devops", "siem-or-itsm-or-devops"]
  const CONNECTOR_STATUSES: seq<string> := ["prototype", "pilot", "certified", "suspended"]

  // ---------------------------------------------------------------- the connector validator

  /** v?.outer?.inner */
  function Inner(v: Value, outer: string, inner: string): Option<Value> {
    match Get(v, outer)
    case Some(o) => Get(o, inner)
    case None => None
  }

  predicate IsOneOf(v: Option<Value>, texts: seq<string>) {
    v.Some? && v.value.Str? && v.value.s in texts
  }

  predicate IsBool(v: Option<Value>) {
    v.Some? && v.value.Bool?
  }

  predicate IsList(v: Option<Value>) {
    v.Some? && v.value.List?
  }

  /** What every connector file needs, whatever its status. */
  predicate Described(v: Value) {
    Named(v) && Reviewed(v)
  }

  predicate Named(v: Value) {
    && Get(v, "format") == Some(Str(CONNECTOR_FORMAT))
    && IsOneOf(Get(v, "connector"), CONNECTORS) && IsOneOf(Get(v, "status"), CONNECTOR_STATUSES)
    && Truthy(Get(v, "owner")) && Truthy(Get(v, "targetSystem")) && Truthy(Get(v, "tlsPolicy"))
    && Truthy(Get(v, "authMethod")) && IsList(Get(v, "leastPrivilegeScopes"))
  }

  predicate Reviewed(v: Value) {
    && Inner(v, "livePreflight", "format") == Some(Str(PREFLIGHT_FORMAT))
    && IsList(Inner(v, "livePreflight", "connectorTypes"))
    && Inner(v, "livePreflight", "checks").Some?
    && (Inner(v, "livePreflight", "checks").value.Object? || Inner(v, "livePreflight", "checks").value.List?)
    && IsBool(Inner(v, "replayProtection", "implemented")) && IsBool(Inner(v, "redactionEvidence", "secretValuesFound"))
    && Truthy(Inner(v, "testResults", "deliveryTest")) && Truthy(Inner(v, "rollback", "disableProcedure"))
    && Truthy(Inner(v, "approvals", "securityReviewer"))
  }

  /** Every value of Object.entries(v) that is not skipped by its name is this one. */
  predicate EveryEntry(v: Value, expected: Value, skipped: string -> bool) {
    match v
    case Object(fields) => forall k | k in fields && !skipped(k) :: fields[k] == expected
    case List(items) => forall item | item in items :: item == expected
    case _ => true
  }

  predicate EndsWithDate(name: string) {
    |name| >= 4 && name[|name| - 4..] == "Date"
  }

  /** What a certified connector needs besides. */
  predicate Certified(positive: Value -> bool, v: Value)
    requires Described(v)
  {
    var count, types := Inner(v, "livePreflight", "checkCount"), Inner(v, "livePreflight", "connectorTypes");
    && Truthy(Inner(v, "livePreflight", "reportPath"))
    && Inner(v, "livePreflight", "validated") == Some(Bool(true))
    && count.Some? && positive(count.value)
    && Get(v, "connector").value in types.value.items
    && Inner(v, "livePreflight", "selectedConnector") == Get(v, "connector")
    && StrictlyEqual(Inner(v, "livePreflight", "selectedEndpointHost"), Get(v, "targetSystem"))
    && EveryEntry(Inner(v, "livePreflight", "checks").value, Bool(true), _ => false)
    && Inner(v, "redactionEvidence", "secretValuesFound") == Some(Bool(false))
    && EveryEntry(Get(v, "testResults").value, Str("passed"), EndsWithDate)
    && Inner(v, "rollback", "tested") == Some(Bool(true))
  }

  predicate ConnectorAccepts(positive: Value -> bool, v: Value) {
    Described(v) && (Get(v, "status") == Some(Str("certified")) ==> Certified(positive, v))
  }

  /** The connector's single-file validator is run on the file as it stands. */
  ghost predicate RunsConnector(tools: Tools) {
    forall path ::
      tools.succeeds("connector", path) <==>
      ReadJson(tools, path).Some? && ConnectorAccepts(tools.positive, ReadJson(tools, path).value)
  }

  // ---------------------------------------------------------------- the edit

  /** The file with its status set back to pilot and a release status of certified. */
  function Promoted(v: Value): Value {
    if v.Object? then Object(v.fields["status" := Str("pilot")]["releaseStatus" := Str("certified")]) else v
  }

  lemma {:induction false} PromotedFields(v: Value)
    requires v.Object?
    ensures forall n | n != "status" && n != "releaseStatus" :: Get(Promoted(v), n) == Get(v, n)
    ensures Get(Promoted(v), "status") == Some(Str("pilot"))
    ensures Get(Promoted(v), "releaseStatus") == Some(Str("certified"))
  {
    assert "status" != "releaseStatus";
  }

  /** The connector validator accepts the edited file whenever it accepts the file. */
  lemma {:induction false} PromotedAccepted(positive: Value -> bool, v: Value)
    requires ConnectorAccepts(positive, v)
    ensures v.Object? && ConnectorAccepts(positive, Promoted(v))
  {
    PromotedFields(v);
    PilotIsAllowed();
    hide Promoted, Get, CONNECTOR_FORMAT, PREFLIGHT_FORMAT, CONNECTORS, CONNECTOR_STATUSES, Certified;
    assert forall o, i | o != "status" && o != "releaseStatus" :: Inner(Promoted(v), o, i) == Inner(v, o, i);
    assert "pilot" != "certified";
  }

  lemma {:induction false} PilotIsAllowed()
    ensures "pilot" in CONNECTOR_STATUSES
  {
    assert CONNECTOR_STATUSES[1] == "pilot";
  }

  lemma {:induction false} PromotedNotBlocking(v: Value)
    requires v.Object? && !HasBlockingStatus(v)
    ensures !HasBlockingStatus(Promoted(v))
  {
    NotBlocking("pilot");
    NotBlocking("certified");
    hide IsBlockingText;
  }

  /** The same machine after one file was rewritten to say something else. */
  ghost predicate Rewritten(tools: Tools, edited: Tools, path: string, v: Value) {
    edited == tools.(text := edited.text, succeeds := edited.succeeds) && ReadJson(edited, path) == Some(v)
  }

  /** Nothing but this file was rewritten. */
  ghost predicate OnlyThere(tools: Tools, edited: Tools, path: string) {
    && (forall p | p != path :: edited.text(p) == tools.text(p))
    && (forall n, p | p != path :: edited.succeeds(n, p) == tools.succeeds(n, p))
  }

  /** No other file with a validator of its own is the connector's file. */
  predicate ConnectorApart(tools: Tools, bundle: Value, path: string) {
    forall n | n in VALIDATED_NAMES && n != "connector" && n in Entries(bundle) && Entries(bundle)[n].Str? ::
      tools.resolve(Entries(bundle)[n].s) != path
  }

  lemma {:induction false} ConnectorRequired()
    ensures "connector" in REQUIRED_NAMES && "connector" in VALIDATED_NAMES
    ensures RequiredStatus("connector") == "certified"
  {
    assert REQUIRED_NAMES[0] == "connector" && VALIDATED_NAMES[0] == "connector";
  }

  /** The report reads the edited file as certified. */
  lemma {:induction false} PromotedReads(v: Value)
    requires v.Object?
    ensures FirstTruthy(Promoted(v), REPORT_ORDER) == Some(Str("certified")) && !OrdersAgree(Promoted(v))
    ensures Get(Promoted(v), "format") == Get(v, "format") && Get(Promoted(v), "environment") == Get(v, "environment")
  {
    PromotedFields(v);
    ReportReads(Promoted(v));
    hide Get, FirstTruthy, Promoted, REPORT_ORDER;
    assert "pilot" != "certified";
  }

  /** The connector's own item, and every item of a file without a validator, survives the edit. */
  lemma {:induction false} PromotedItemReady(tools: Tools, edited: Tools, bundle: Value, path: string, v: Value,
      name: string)
    requires ReadJson(tools, path) == Some(v) && v.Object? && Rewritten(tools, edited, path, Promoted(v))
    requires edited.succeeds("connector", path) && PlaceholdersIn(edited, Promoted(v)) == 0
    requires name in Entries(bundle) && Entries(bundle)[name].Str?
    requires tools.resolve(Entries(bundle)[name].s) == path
    requires name == "connector" || name !in VALIDATED_NAMES
    requires ReadyItem(tools, bundle, name)
    ensures ReadyItem(edited, bundle, name)
  {
    ConnectorRequired();
    RequiredAreValidated();
    PromotedReads(v);
    PromotedNotBlocking(v);
    hide Get, FirstTruthy, Promoted, HasBlockingStatus, VALIDATED_NAMES, REQUIRED_NAMES, ARTIFACT_NAMES,
      RequiredStatus, PlaceholdersIn, OrdersAgree, ArtifactFormat, ReadJson, Entries, REPORT_ORDER;
    assert EnvironmentMatches(bundle, v) ==> EnvironmentMatches(bundle, Promoted(v));
    assert StatusMatches(bundle, name, Promoted(v));
    assert Validates(tools, name, path, v) ==> Validates(edited, name, path, Promoted(v));
  }

  /** So does every item of another file. */
  lemma {:induction false} OtherItemReady(tools: Tools, edited: Tools, bundle: Value, path: string, v: Value,
      name: string)
    requires Rewritten(tools, edited, path, v) && OnlyThere(tools, edited, path)
    requires name in Entries(bundle) && Entries(bundle)[name].Str?
    requires tools.resolve(Entries(bundle)[name].s) != path
    requires ReadyItem(tools, bundle, name)
    ensures ReadyItem(edited, bundle, name)
  {
    hide Get, HasBlockingStatus, VALIDATED_NAMES, REQUIRED_NAMES, ARTIFACT_NAMES, CountPlaceholders, ArtifactFormat,
      Entries, StatusMatches, EnvironmentMatches;
  }

  lemma {:induction false} ConnectorItem(tools: Tools, bundle: Value)
    requires Listed(bundle, "connector") && RunsConnector(tools) && ReadyItem(tools, bundle, "connector")
    ensures Entries(bundle) == Evidence(bundle)
    ensures var v := ReadJson(tools, EvidencePath(tools, bundle, "connector"));
            v.Some? && ConnectorAccepts(tools.positive, v.value)
  {
    ConnectorRequired();
    hide Get, HasBlockingStatus, VALIDATED_NAMES, REQUIRED_NAMES, ARTIFACT_NAMES, ConnectorAccepts, PlaceholdersIn,
      StatusMatches, EnvironmentMatches, ReadJson, RequiredStatus;
  }

  lemma {:induction false} ReadyHasItems(tools: Tools, bundle: Value)
    requires BuildReport(tools, bundle).Success?
    ensures ReportReady(BuildReport(tools, bundle).value) <==>
            PlaceholdersIn(tools, bundle) == 0 && forall n | n in Entries(bundle) :: ReadyItem(tools, bundle, n)
    ensures forall n | n in Entries(bundle) :: Entries(bundle)[n].Str?
  {
    ReadyMeansEveryItem(tools, bundle);
    hide Get, PlaceholdersIn, ReadJson, Entries, BUNDLE_FORMAT, ReportReady;
  }

  /** The certified connector's file may be set back to pilot as long as it names the release as certified: every
      ready production report that lists it stays ready, and the bundle validator refuses the bundle. */
  lemma {:induction false} PromotedIsRefused(tools: Tools, edited: Tools, bundle: Value)
    requires RefusesMark(tools) && IsProduction(bundle) && RunsConnector(tools) && RunsConnector(edited)
    requires BuildReport(tools, bundle).Success? && ReportReady(BuildReport(tools, bundle).value)
    requires Listed(bundle, "connector")
    requires var path := EvidencePath(tools, bundle, "connector");
             var v := ReadJson(tools, path);
             && v.Some? && Rewritten(tools, edited, path, Promoted(v.value)) && OnlyThere(tools, edited, path)
             && ConnectorApart(tools, bundle, path) && PlaceholdersIn(edited, Promoted(v.value)) == 0
    ensures BuildReport(edited, bundle).Success? && ReportReady(BuildReport(edited, bundle).value)
    ensures !BundleAccepted(edited, bundle)
  {
    var path := EvidencePath(tools, bundle, "connector");
    var v := ReadJson(tools, path).value;
    ReadyHasItems(tools, bundle);
    hide BuildReport, ReportReady;
    ConnectorItem(tools, bundle);
    PromotedAccepted(tools.positive, v);
    forall n | n in Entries(bundle)
      ensures ReadyItem(edited, bundle, n)
    {
      if tools.resolve(Entries(bundle)[n].s) == path {
        PromotedItemReady(tools, edited, bundle, path, v, n);
      } else {
        OtherItemReady(tools, edited, bundle, path, Promoted(v), n);
      }
    }
    PromotedReport(tools, edited, bundle);
    PromotedReads(v);
    PromotedRefused(edited, bundle, Promoted(v));
  }

  lemma {:induction false} PromotedReport(tools: Tools, edited: Tools, bundle: Value)
    requires edited.stringify == tools.stringify
    requires BuildReport(tools, bundle).Success? && ReportReady(BuildReport(tools, bundle).value)
    requires forall n | n in Entries(bundle) :: ReadyItem(edited, bundle, n)
    ensures BuildReport(edited, bundle).Success? && ReportReady(BuildReport(edited, bundle).value)
  {
    ReadyHasItems(tools, bundle);
    hide ItemOf, Get, CountPlaceholders, Entries, BUNDLE_FORMAT, ReportReady;
    assert BuildReport(edited, bundle).Success?;
    hide BuildReport;
    ReadyHasItems(edited, bundle);
  }

  lemma {:induction false} PromotedRefused(edited: Tools, bundle: Value, v: Value)
    requires RefusesMark(edited) && IsProduction(bundle) && Listed(bundle, "connector")
    requires BuildReport(edited, bundle).Success? && ReportReady(BuildReport(edited, bundle).value)
    requires ReadJson(edited, EvidencePath(edited, bundle, "connector")) == Some(v) && !OrdersAgree(v)
    ensures !BundleAccepted(edited, bundle)
  {
    ConnectorRequired();
    hide BuildReport, ReportReady, BundleAccepted, MetadataComplete, IsTimestampValue, IsProduction, Evidence, Entries,
      VALIDATED_NAMES, ARTIFACT_NAMES, REQUIRED_NAMES, Get, RefusesMark, OrdersAgree, Listed, AllListed, ReadJson;
    ReadyReportAccepted(edited, bundle);
    assert !RequiredAgrees(edited, bundle, "connector");
  }

  // ---------------------------------------------------------------- one bundle

  /** A certified connector file its validator accepts. */
  function CertifiedFile(): Value {
    Object(map[
      "format" := Str(CONNECTOR_FORMAT), "connector" := Str("siem"), "status" := Str("certified"),
      "owner" := Str("operations"), "targetSystem" := Str("siem.internal"), "tlsPolicy" := Str("strict"),
      "authMethod" := Str("certificate"), "leastPrivilegeScopes" := List([]), "livePreflight" := Preflight(),
      "replayProtection" := Object(map["implemented" := Bool(true)]),
      "redactionEvidence" := Object(map["secretValuesFound" := Bool(false)]), "testResults" := Results(),
      "rollback" := Rollback(), "approvals" := Object(map["securityReviewer" := Str("security")])])
  }

  function Results(): Value {
    Object(map["deliveryTest" := Str("passed")])
  }

  function Rollback(): Value {
    Object(map["disableProcedure" := Str("switch off"), "tested" := Bool(true)])
  }

  function Preflight(): Value {
    Object(map[
      "format" := Str(PREFLIGHT_FORMAT), "connectorTypes" := List([Str("siem")]),
      "checks" := Object(map["delivery" := Bool(true)]), "reportPath" := Str("preflight.json"),
      "validated" := Bool(true), "checkCount" := Number(1.0), "selectedConnector" := Str("siem"),
      "selectedEndpointHost" := Str("siem.internal")])
  }

  /** The format each of the other files is checked for. */
  function FileFormat(name: string): string {
    if name in ARTIFACT_NAMES then ArtifactFormat(name) else "sentinel-" + FormatOf(name)
  }

  function FormatOf(name: string): string {
    if name == "devopsTokenResponse" then "devops-token-response-preflight-v1"
    else if name == "itsmWorkNotes" then "itsm-worknote-evidence-v1"
    else if name == "postgresHa" then "postgres-ha-approval-evidence-v1"
    else if name == "browserIdentity" then "browser-extension-identity-evidence-v1"
    else if name == "browserRollout" then "browser-extension-rollout-evidence-v1"
    else if name == "nativeCompanion" then "native-companion-evidence-v1"
    else if name == "credentialProviderApproval" then "credential-provider-approval-evidence-v1"
    else if name == "identityProvider" then "identity-provider-evidence-v1"
    else if name == "kmsHsm" then "kms-hsm-provider-evidence-v1"
    else if name == "kmsHsmSdkApproval" then "kms-hsm-sdk-approval-evidence-v1"
    else if name == "windowsRelease" then "windows-release-evidence-v1"
    else if name == "windowsSigning" then "windows-signing-execution-evidence-v1"
    else if name == "windowsInstallHardening" then "windows-install-hardening-evidence-v1"
    else if name == "sourceMigration" then "source-migration-evidence-v1"
    else if name == "tlsIis" then "tls-iis-evidence-v1"
    else if name == "pentestScope" then "pentest-scope-evidence-v1"
    else if name == "auditWorm" then "audit-worm-evidence-v1"
    else if name == "backupRecovery" then "backup-recovery-evidence-v1"
    else if name == "deviceTrust" then "device-trust-evidence-v1"
    else if name == "bruteForce" then "brute-force-evidence-v1"
    else if name == "tenantIsolation" then "tenant-isolation-evidence-v1"
    else if name == "siemReceiverRotation" then "siem-receiver-rotation-evidence-v1"
    else if name == "releaseAttestation" then "release-attestation-evidence-v1"
    else if name == "sast" then "sast-evidence-v1"
    else "log-redaction-evidence-v1"
  }

  /** The status field its validator reads, and a status it allows a finished deployment. */
  function StatusField(name: string): string {
    if name == "browserRollout" || name == "windowsInstallHardening" then "deploymentStatus"
    else if name == "nativeCompanion" then "releaseStatus"
    else "status"
  }

  function FileStatus(name: string): string {
    if name == "pentestScope" || name == "backupRecovery" || name == "sast" then "completed"
    else if name == "releaseAttestation" then "verified"
    else RequiredStatus(name)
  }

  function OrdinaryFile(name: string): Value {
    Object(map["format" := Str(FileFormat(name)), StatusField(name) := Str(FileStatus(name))])
  }

  const EDITED := "edited"

  /** Each file's text is its own name; the connector's edited file has another text. */
  function Parsed(text: string): Option<Value> {
    if text != "" && text[0] == MARK then None
    else if text == "connector" then Some(CertifiedFile())
    else if text == EDITED then Some(Promoted(CertifiedFile()))
    else Some(OrdinaryFile(text))
  }

  function TextOf(edited: bool, path: string): string {
    if edited && path == "connector" then EDITED else path
  }

  predicate AboveZero(v: Value) {
    v.Number? && v.n > 0.0
  }

  /** Of the other validators, the format and the status they ask for. */
  predicate SingleFileAccepts(name: string, file: Option<Value>) {
    && file.Some?
    && (name == "connector" ==> ConnectorAccepts(AboveZero, file.value))
    && (name != "connector" ==> Get(file.value, "format") == Some(Str(FileFormat(name))))
    && (name != "connector" ==> Get(file.value, StatusField(name)) == Some(Str(FileStatus(name))))
  }

  /** A machine with one file for each evidence name, none of them with a placeholder. */
  function SampleTools(edited: bool): Tools {
    Tools(_ => true, path => Some(TextOf(edited, path)), Parsed, _ => "{}", path => path, AboveZero,
          (name, path) => SingleFileAccepts(name, Parsed(TextOf(edited, path))))
  }

  function SampleEntries(): map<string, Value> {
    map n | n in VALIDATED_NAMES + ARTIFACT_NAMES :: Str(n)
  }

  function SampleApprovals(): Value {
    Object(map["securityOwner" := Str("a"), "operationsOwner" := Str("b"), "releaseOwner" := Str("c")])
  }

  function SampleBundle(): Value {
    Object(map[
      "format" := Str(BUNDLE_FORMAT), "environment" := Str("prod"), "owner" := Str("ops"),
      "status" := Str("production"), "generatedAt" := Str("2026-01-01T00:00:00Z"),
      "approvals" := SampleApprovals(), "evidence" := Object(SampleEntries())])
  }

  lemma {:induction false} SampleFields()
    ensures var b := SampleBundle();
            && Get(b, "format") == Some(Str(BUNDLE_FORMAT)) && Get(b, "status") == Some(Str("production"))
            && Get(b, "evidence") == Some(Object(SampleEntries()))
            && Get(b, "environment") == Some(Str("prod")) && Get(b, "owner") == Some(Str("ops"))
            && Get(b, "generatedAt") == Some(Str("2026-01-01T00:00:00Z"))
            && Get(b, "approvals") == Some(SampleApprovals()) && b.Object?
  {
    hide SampleEntries, SampleApprovals, BUNDLE_FORMAT;
  }

  lemma {:induction false} SampleApproved()
    ensures var a := SampleApprovals();
            && Truthy(Get(a, "securityOwner")) && Truthy(Get(a, "operationsOwner")) && Truthy(Get(a, "releaseOwner"))
  {
  }

  lemma {:induction false} SampleComplete()
    ensures IsProduction(SampleBundle()) && MetadataComplete(SampleBundle())
    ensures IsTimestampValue(Get(SampleBundle(), "generatedAt"))
    ensures Entries(SampleBundle()) == SampleEntries() && Evidence(SampleBundle()) == SampleEntries()
  {
    hide Get, SampleBundle, SampleEntries, SampleApprovals, BUNDLE_FORMAT;
    SampleFields();
    SampleApproved();
  }

  lemma {:induction false} PreflightFields()
    ensures var p := Preflight();
            && Get(p, "format") == Some(Str(PREFLIGHT_FORMAT)) && Get(p, "connectorTypes") == Some(List([Str("siem")]))
            && Get(p, "checks") == Some(Object(map["delivery" := Bool(true)])) && Truthy(Get(p, "reportPath"))
            && Get(p, "validated") == Some(Bool(true)) && Get(p, "checkCount") == Some(Number(1.0))
            && Get(p, "selectedConnector") == Some(Str("siem"))
            && Get(p, "selectedEndpointHost") == Some(Str("siem.internal"))
  {
    hide PREFLIGHT_FORMAT;
  }

  lemma {:induction false} CertifiedFields()
    ensures var c := CertifiedFile();
            && Get(c, "format") == Some(Str(CONNECTOR_FORMAT)) && Get(c, "connector") == Some(Str("siem"))
            && Get(c, "status") == Some(Str("certified")) && Truthy(Get(c, "owner"))
            && Get(c, "targetSystem") == Some(Str("siem.internal")) && Truthy(Get(c, "tlsPolicy"))
            && Truthy(Get(c, "authMethod")) && IsList(Get(c, "leastPrivilegeScopes"))
            && Get(c, "livePreflight") == Some(Preflight())
  {
    hide CONNECTOR_FORMAT, Preflight;
  }

  lemma {:induction false} CertifiedParts()
    ensures var c := CertifiedFile();
            && Inner(c, "replayProtection", "implemented") == Some(Bool(true))
            && Inner(c, "redactionEvidence", "secretValuesFound") == Some(Bool(false))
            && Get(c, "testResults") == Some(Object(map["deliveryTest" := Str("passed")]))
            && Inner(c, "testResults", "deliveryTest") == Some(Str("passed"))
            && Truthy(Inner(c, "rollback", "disableProcedure")) && Inner(c, "rollback", "tested") == Some(Bool(true))
            && Truthy(Inner(c, "approvals", "securityReviewer"))
            && Get(c, "environment") == None && Get(c, "releaseStatus") == None && c.Object?
  {
    hide CONNECTOR_FORMAT, Preflight;
  }

  lemma {:induction false} PreflightParts()
    ensures var c := CertifiedFile();
            && Inner(c, "livePreflight", "format") == Some(Str(PREFLIGHT_FORMAT))
            && Inner(c, "livePreflight", "connectorTypes") == Some(List([Str("siem")]))
            && Inner(c, "livePreflight", "checks") == Some(Object(map["delivery" := Bool(true)]))
            && Truthy(Inner(c, "livePreflight", "reportPath"))
            && Inner(c, "livePreflight", "validated") == Some(Bool(true))
            && Inner(c, "livePreflight", "checkCount") == Some(Number(1.0))
            && Inner(c, "livePreflight", "selectedConnector") == Some(Str("siem"))
            && Inner(c, "livePreflight", "selectedEndpointHost") == Some(Str("siem.internal"))
  {
    PreflightFields();
    CertifiedFields();
    hide Get, CertifiedFile, Preflight, CONNECTOR_FORMAT, PREFLIGHT_FORMAT;
  }

  lemma {:induction false} CertifiedNamed()
    ensures Named(CertifiedFile())
  {
    CertifiedFields();
    assert CONNECTORS[0] == "siem" && CONNECTOR_STATUSES[2] == "certified";
    hide Get, CertifiedFile, Preflight, CONNECTOR_FORMAT, CONNECTORS, CONNECTOR_STATUSES;
  }

  lemma {:induction false} CertifiedReviewed()
    ensures Reviewed(CertifiedFile())
  {
    PreflightParts();
    CertifiedParts();
    hide Get, Inner, CertifiedFile, PREFLIGHT_FORMAT;
  }

  lemma {:induction false} CertifiedAccepted()
    ensures ConnectorAccepts(AboveZero, CertifiedFile())
  {
    PreflightParts();
    CertifiedFields();
    CertifiedParts();
    CertifiedNamed();
    CertifiedReviewed();
    hide Get, Inner, CertifiedFile, Preflight, Named, Reviewed;
    assert [Str("siem")][0] == Str("siem");
  }

  lemma {:induction false} FormatsNotBlocking()
    ensures !IsBlockingText(CONNECTOR_FORMAT) && !IsBlockingText(PREFLIGHT_FORMAT)
  {
    assert CONNECTOR_FORMAT[0] == 's' && PREFLIGHT_FORMAT[0] == 's';
    hide IsBlockingText, CONNECTOR_FORMAT, PREFLIGHT_FORMAT;
    NotBlocking(CONNECTOR_FORMAT);
    NotBlocking(PREFLIGHT_FORMAT);
  }

  lemma {:induction false} WordsNotBlocking()
    ensures !IsBlockingText("siem") && !IsBlockingText("certified") && !IsBlockingText("operations")
    ensures !IsBlockingText("siem.internal") && !IsBlockingText("strict") && !IsBlockingText("certificate")
    ensures !IsBlockingText("passed") && !IsBlockingText("switch off") && !IsBlockingText("security")
    ensures !IsBlockingText("preflight.json")
  {
    hide IsBlockingText;
    NotBlocking("siem");
    NotBlocking("certified");
    NotBlocking("operations");
    NotBlocking("siem.internal");
    NotBlocking("strict");
    NotBlocking("certificate");
    NotBlocking("passed");
    NotBlocking("switch off");
    NotBlocking("security");
    NotBlocking("preflight.json");
  }

  lemma {:induction false} PartsNotBlocking()
    ensures !BlocksBelow(Preflight()) && !BlocksBelow(Results()) && !BlocksBelow(Rollback())
    ensures !BlocksBelow(Object(map["securityReviewer" := Str("security")]))
    ensures !BlocksBelow(Object(map["implemented" := Bool(true)]))
    ensures !BlocksBelow(Object(map["secretValuesFound" := Bool(false)])) && !BlocksBelow(List([]))
  {
    hide IsBlockingText, CONNECTOR_FORMAT, PREFLIGHT_FORMAT;
    FormatsNotBlocking();
    WordsNotBlocking();
  }

  lemma {:induction false} HeadNotBlocking()
    ensures !BlocksBelow(Str("siem")) && !BlocksBelow(Str("certified")) && !BlocksBelow(Str("operations"))
    ensures !BlocksBelow(Str("siem.internal")) && !BlocksBelow(Str("strict")) && !BlocksBelow(Str("certificate"))
    ensures !BlocksBelow(Str(CONNECTOR_FORMAT))
  {
    hide IsBlockingText, CONNECTOR_FORMAT, PREFLIGHT_FORMAT;
    FormatsNotBlocking();
    WordsNotBlocking();
  }

  lemma {:induction false} CertifiedNotBlocking()
    ensures !HasBlockingStatus(CertifiedFile())
  {
    hide BlocksBelow, CONNECTOR_FORMAT, Preflight, Results, Rollback;
    HeadNotBlocking();
    PartsNotBlocking();
  }

  lemma {:induction false} StatusNotBlocking(name: string)
    ensures !IsBlockingText(FileStatus(name)) && !IsBlockingText(FileFormat(name))
  {
    NotBlocking(FileStatus(name));
    hide IsBlockingText;
    assert FileFormat(name)[0] == 's';
    NotBlocking(FileFormat(name));
  }

  lemma {:induction false} OrdinaryFields(name: string)
    ensures var f := OrdinaryFile(name);
            && f.Object? && Get(f, "format") == Some(Str(FileFormat(name))) && Get(f, "environment") == None
            && Get(f, "providerStatus") == None && Get(f, StatusField(name)) == Some(Str(FileStatus(name)))
            && forall s | s in {"status", "deploymentStatus", "releaseStatus"} && s != StatusField(name) ::
                 Get(f, s) == None
    ensures !HasBlockingStatus(OrdinaryFile(name))
  {
    StatusNotBlocking(name);
    hide FileFormat, FileStatus, IsBlockingText;
  }

  lemma {:induction false} OrdinaryReads(name: string)
    requires name in REQUIRED_NAMES
    ensures FirstTruthy(OrdinaryFile(name), REPORT_ORDER) == Some(Str(RequiredStatus(name)))
  {
    RequiredFileStatus(name);
    OrdinaryFields(name);
    assert RequiredStatus(name) != "";
    ReportReads(OrdinaryFile(name));
    hide OrdinaryFile, Get, FirstTruthy, RequiredStatus, FileFormat, FileStatus, REQUIRED_NAMES, REPORT_ORDER;
  }

  lemma {:induction false} RequiredFileStatus(name: string)
    requires name in REQUIRED_NAMES
    ensures FileStatus(name) == RequiredStatus(name)
  {
    hide RequiredStatus;
  }

  lemma {:induction false} NamesPlain()
    ensures forall n | n in VALIDATED_NAMES || n in ARTIFACT_NAMES :: n != "" && n[0] != MARK && n != EDITED
  {
  }

  lemma {:induction false} OrdinaryItemReady(name: string)
    requires name in VALIDATED_NAMES || name in ARTIFACT_NAMES
    requires name != "connector"
    ensures var item := ItemOf(SampleTools(false), SampleBundle(), name, Str(name));
            item.Success? && item.value.ProductionReady()
  {
    hide HasBlockingStatus, VALIDATED_NAMES, ARTIFACT_NAMES, SampleBundle, OrdinaryFile, Get, REQUIRED_NAMES,
      ArtifactFormat, FirstTruthy, Truthy, RequiredStatus, FormatOf, FileStatus, StatusField, PlaceholdersIn,
      REPORT_ORDER, CertifiedFile, Promoted, ConnectorAccepts;
    NamesPlain();
    OrdinaryFields(name);
    if name in REQUIRED_NAMES { OrdinaryReads(name); }
    SamplePlain(OrdinaryFile(name));
    assert ReadJson(SampleTools(false), name) == Some(OrdinaryFile(name));
  }

  lemma {:induction false} CertifiedItemReady()
    ensures var item := ItemOf(SampleTools(false), SampleBundle(), "connector", Str("connector"));
            item.Success? && item.value.ProductionReady()
  {
    ConnectorRequired();
    NamesPlain();
    CertifiedAccepted();
    CertifiedFields();
    CertifiedParts();
    CertifiedNotBlocking();
    SamplePlain(CertifiedFile());
    ReportReads(CertifiedFile());
    hide HasBlockingStatus, VALIDATED_NAMES, ARTIFACT_NAMES, SampleBundle, CertifiedFile, Get, REQUIRED_NAMES,
      ArtifactFormat, FirstTruthy, RequiredStatus, PlaceholdersIn, ConnectorAccepts, REPORT_ORDER;
    assert ReadJson(SampleTools(false), "connector") == Some(CertifiedFile());
  }

  lemma {:induction false} SamplePlain(v: Value)
    ensures v.Object? ==> PlaceholdersIn(SampleTools(false), v) == 0 && PlaceholdersIn(SampleTools(true), v) == 0
  {
    NoneCounted("{}", 0);
    forall i | 0 <= i <= 2
      ensures MatchAt("{}", i) == 0
    {
    }
    hide MatchAt, CountPlaceholders;
  }

  /** Every item of the sample is ready, so the report is. */
  lemma {:induction false} SampleReported()
    ensures BuildReport(SampleTools(false), SampleBundle()).Success?
    ensures ReportReady(BuildReport(SampleTools(false), SampleBundle()).value)
  {
    hide ItemOf, VALIDATED_NAMES, ARTIFACT_NAMES, SampleBundle, Get, Entries, ReportReady, BUNDLE_FORMAT,
      PlaceholdersIn;
    var tools, bundle := SampleTools(false), SampleBundle();
    SampleFields();
    SampleComplete();
    SamplePlain(bundle);
    forall n | n in Entries(bundle)
      ensures ItemOf(tools, bundle, n, Entries(bundle)[n]).Success?
      ensures ItemOf(tools, bundle, n, Entries(bundle)[n]).value.ProductionReady()
    {
      if n == "connector" { CertifiedItemReady(); } else { OrdinaryItemReady(n); }
    }
    hide SampleTools, SampleEntries;
    assert bundle.Object?;
    assert BuildReport(tools, bundle).Success?;
    hide BuildReport;
    ReadyMeansEveryItem(tools, bundle);
  }

  lemma {:induction false} SampleListed()
    ensures AllListed(SampleBundle()) && RefusesMark(SampleTools(false))
    ensures forall n | n in Entries(SampleBundle()) :: Entries(SampleBundle())[n] == Str(n)
    ensures "connector" in VALIDATED_NAMES && Evidence(SampleBundle())["connector"] == Str("connector")
  {
    NamesPlain();
    ConnectorRequired();
    hide VALIDATED_NAMES, ARTIFACT_NAMES, SampleBundle, Evidence, Entries, OrdinaryFile, CertifiedFile, Promoted;
    SampleComplete();
  }

  lemma {:induction false} SampleRuns(edited: bool)
    ensures RunsConnector(SampleTools(edited))
  {
    hide OrdinaryFile, CertifiedFile, Promoted, ConnectorAccepts;
  }

  /** The sample is rewritten in the connector's file alone. */
  lemma {:induction false} SampleRewritten()
    ensures Rewritten(SampleTools(false), SampleTools(true), "connector", Promoted(CertifiedFile()))
    ensures OnlyThere(SampleTools(false), SampleTools(true), "connector")
    ensures ReadJson(SampleTools(false), "connector") == Some(CertifiedFile())
  {
    hide OrdinaryFile, CertifiedFile, Promoted, ConnectorAccepts, FileFormat, FileStatus, StatusField;
  }

  /** A complete production bundle with a ready report that the bundle validator refuses: only its connector
      file, which its own validator accepts, says pilot under status and certified under releaseStatus. */
  lemma {:induction false} ReadyReportMayBeRefused()
    ensures IsProduction(SampleBundle()) && MetadataComplete(SampleBundle()) && AllListed(SampleBundle())
    ensures IsTimestampValue(Get(SampleBundle(), "generatedAt"))
    ensures RunsConnector(SampleTools(true)) && SampleTools(true).succeeds("connector", "connector")
    ensures BuildReport(SampleTools(true), SampleBundle()).Success?
    ensures ReportReady(BuildReport(SampleTools(true), SampleBundle()).value)
    ensures !BundleAccepted(SampleTools(true), SampleBundle())
  {
    CertifiedAccepted();
    PromotedAccepted(AboveZero, CertifiedFile());
    SampleComplete();
    SampleListed();
    SampleRuns(false);
    SampleRuns(true);
    SampleRewritten();
    SamplePlain(Promoted(CertifiedFile()));
    hide BuildReport, ReportReady, BundleAccepted, MetadataComplete, IsTimestampValue, IsProduction, SampleBundle,
      VALIDATED_NAMES, ARTIFACT_NAMES, REQUIRED_NAMES, Get, RefusesMark, RunsConnector, CertifiedFile, Promoted,
      PlaceholdersIn, ConnectorAccepts, OrdinaryFile, Entries, Evidence, Rewritten, OnlyThere;
    SampleReported();
    assert Listed(SampleBundle(), "connector");
    PromotedIsRefused(SampleTools(false), SampleTools(true), SampleBundle());
  }
}
