/** The deployment evidence bundle seen twice: the validator that refuses it at the first fault, and the
    status report that counts what is ready. They read an evidence file's status in different orders. */
module StatusReport {
  import opened Wrappers
  import opened Json
  import opened Text

  /** Whether a path exists, its text, JSON.parse and JSON.stringify, the path a candidate resolves to, whether
      a value compares as greater than zero, and whether a single-file validator succeeds. A path that cannot
      be read as a file has no text. */
  datatype Tools = Tools(
    present: string -> bool,
    text: string -> Option<string>,
    parse: string -> Option<Value>,
    stringify: Value -> string,
    resolve: string -> string,
    positive: Value -> bool,
    succeeds: (string, string) -> bool)

  const BUNDLE_FORMAT := "sentinel-deployment-evidence-bundle-v1"

  const VALIDATED_NAMES: seq<string> := [
    "connector", "itsmWorkNotes", "devopsTokenResponse", "postgresHa", "browserIdentity", "browserRollout",
    "nativeCompanion", "credentialProviderApproval", "identityProvider", "kmsHsm", "kmsHsmSdkApproval",
    "windowsRelease", "windowsSigning", "windowsInstallHardening", "sourceMigration", "tlsIis", "pentestScope",
    "auditWorm", "backupRecovery", "deviceTrust", "bruteForce", "tenantIsolation", "siemReceiverRotation",
    "releaseAttestation", "sast", "logRedaction"]

  const ARTIFACT_NAMES: seq<string> := ["storageMigration", "releaseProvenance"]

  function ArtifactFormat(name: string): string {
    if name == "storageMigration" then "sentinel-storage-migration-evidence-v1" else "sentinel-release-provenance-v1"
  }

  /** The thirteen evidence files a production bundle requires a status of. */
  const REQUIRED_NAMES: seq<string> := [
    "connector", "itsmWorkNotes", "siemReceiverRotation", "windowsSigning", "browserIdentity", "browserRollout",
    "nativeCompanion", "credentialProviderApproval", "kmsHsm", "kmsHsmSdkApproval", "sourceMigration",
    "tenantIsolation", "postgresHa"]

  function RequiredStatus(name: string): string {
    if name == "connector" || name == "siemReceiverRotation" then "certified"
    else if name == "windowsSigning" then "signed"
    else if name == "kmsHsm" then "active"
    else if name == "credentialProviderApproval" || name == "kmsHsmSdkApproval" || name == "postgresHa" then "approved"
    else "production"
  }

  /** Every requirement is about a validated file. */
  lemma {:induction false} RequiredAreValidated()
    ensures forall n | n in REQUIRED_NAMES :: n in VALIDATED_NAMES
  {
    var v, r := VALIDATED_NAMES, REQUIRED_NAMES;
    assert r[0] == v[0] && r[1] == v[1] && r[2] == v[22] && r[3] == v[12] && r[4] == v[4] && r[5] == v[5];
    assert r[6] == v[6] && r[7] == v[7] && r[8] == v[9] && r[9] == v[10] && r[10] == v[14] && r[11] == v[21];
    assert r[12] == v[3] && |r| == 13 && |v| == 26;
    hide VALIDATED_NAMES, REQUIRED_NAMES;
  }

  /** No validated file is an artifact. */
  lemma {:induction false} ArtifactsApart()
    ensures forall n | n in ARTIFACT_NAMES :: n !in VALIDATED_NAMES
  {
  }

  // ---------------------------------------------------------------- text

  /** The length of the first alternative of the placeholder pattern that matches at i, or 0. The third
      alternative, the full timestamp, begins with the second. */
  function MatchAt(s: string, i: nat): (n: nat)
    ensures i + n <= |s| || n == 0
  {
    if StartsAt(s, i, "replace-with") then 12
    else if StartsAt(s, i, "YYYY-MM-DD") then 10
    else 0
  }

  /** [...text.matchAll(placeholder)].length */
  function CountPlaceholders(s: string, from: nat): nat
    decreases if from < |s| then |s| - from else 0
  {
    if from >= |s| then 0
    else if MatchAt(s, from) > 0 then 1 + CountPlaceholders(s, from + MatchAt(s, from))
    else CountPlaceholders(s, from + 1)
  }

  /** placeholder.test(text) */
  predicate HasPlaceholder(s: string) {
    exists i | 0 <= i <= |s| :: MatchAt(s, i) > 0
  }

  lemma {:induction false} NoneCounted(s: string, from: nat)
    ensures CountPlaceholders(s, from) == 0 <==> forall i | from <= i <= |s| :: MatchAt(s, i) == 0
    decreases if from < |s| then |s| - from else 0
  {
    hide StartsAt;
    if from < |s| && MatchAt(s, from) == 0 {
      NoneCounted(s, from + 1);
    }
  }

  /** /^\d{4}-\d{2}-\d{2}T\d{2}:\d{2}:\d{2}Z$/ */
  predicate IsIsoTimestamp(s: string) {
    && |s| == 20 && s[4] == '-' && s[7] == '-' && s[10] == 'T' && s[13] == ':' && s[16] == ':' && s[19] == 'Z'
    && forall i | 0 <= i < 19 && i !in {4, 7, 10, 13, 16} :: IsDigit(s[i])
  }

  /** RegExp.test on a value: only strings can look like a timestamp. */
  predicate IsTimestampValue(v: Option<Value>) {
    v.Some? && v.value.Str? && IsIsoTimestamp(v.value.s)
  }

  const MARK := '\U{FEFF}'

  /** The validator drops a leading byte order mark before parsing; the report does not. */
  function WithoutMark(s: string): string {
    if s != "" && s[0] == MARK then s[1..] else s
  }

  /** JSON.parse refuses a leading byte order mark. */
  ghost predicate RefusesMark(tools: Tools) {
    forall s: string | s != "" && s[0] == MARK :: tools.parse(s) == None
  }

  // ---------------------------------------------------------------- reading

  /** a || b || ... over optional properties. */
  function FirstTruthy(v: Value, names: seq<string>): Option<Value> {
    if names == [] then None
    else if Truthy(Get(v, names[0])) then Get(v, names[0])
    else FirstTruthy(v, names[1..])
  }

  const REPORT_ORDER: seq<string> := ["releaseStatus", "status", "deploymentStatus", "providerStatus"]
  const BUNDLE_ORDER: seq<string> := ["status", "deploymentStatus", "releaseStatus"]

  /** === between parsed values: two objects are never the same one. */
  predicate StrictlyEqual(a: Option<Value>, b: Option<Value>) {
    a == b && (a.Some? ==> !a.value.List? && !a.value.Object?)
  }

  function Evidence(bundle: Value): map<string, Value> {
    match Get(bundle, "evidence")
    case Some(Object(fields)) => fields
    case _ => map[]
  }

  function ReadJson(tools: Tools, path: string): Option<Value> {
    match tools.text(path)
    case None => None
    case Some(text) => tools.parse(text)
  }

  function ReadUnmarked(tools: Tools, path: string): Option<Value> {
    match tools.text(path)
    case None => None
    case Some(text) => tools.parse(WithoutMark(text))
  }

  lemma {:induction false} ReadsAgree(tools: Tools, path: string)
    requires RefusesMark(tools) && ReadJson(tools, path).Some?
    ensures ReadUnmarked(tools, path) == ReadJson(tools, path)
  {
  }

  // ---------------------------------------------------------------- the validator

  /** What the validator keeps of one evidence file. */
  datatype Outcome = Outcome(path: string, environment: Option<Value>, status: Option<Value>)

  predicate MetadataComplete(bundle: Value) {
    var approvals := Get(bundle, "approvals");
    && Truthy(Get(bundle, "environment")) && Truthy(Get(bundle, "owner")) && Truthy(Get(bundle, "generatedAt"))
    && Get(bundle, "status") in {Some(Str("planned")), Some(Str("pilot")), Some(Str("production")),
       Some(Str("retired"))}
    && approvals.Some? && Truthy(Get(approvals.value, "securityOwner"))
    && Truthy(Get(approvals.value, "operationsOwner")) && Truthy(Get(approvals.value, "releaseOwner"))
  }

  predicate Deployed(bundle: Value) {
    Get(bundle, "status") in {Some(Str("pilot")), Some(Str("production"))}
  }

  predicate IsProduction(bundle: Value) {
    Get(bundle, "status") == Some(Str("production"))
  }

  /** The bundle gives this evidence file a non-empty path. */
  predicate Listed(bundle: Value, name: string) {
    name in Evidence(bundle) && Evidence(bundle)[name].Str? && Evidence(bundle)[name].s != ""
  }

  function EvidencePath(tools: Tools, bundle: Value, name: string): string
    requires Listed(bundle, name)
  {
    tools.resolve(Evidence(bundle)[name].s)
  }

  predicate ValidatedOk(tools: Tools, bundle: Value, name: string) {
    && Listed(bundle, name)
    && var path := EvidencePath(tools, bundle, name);
       var evidence := ReadUnmarked(tools, path);
       tools.present(path) && evidence.Some? && evidence.value != Null && tools.succeeds(name, path)
  }

  predicate ArtifactOk(tools: Tools, bundle: Value, name: string) {
    && Listed(bundle, name)
    && var path := EvidencePath(tools, bundle, name);
       var evidence := ReadJson(tools, path);
       tools.present(path) && evidence.Some? && Get(evidence.value, "format") == Some(Str(ArtifactFormat(name)))
  }

  function OutcomeOf(tools: Tools, bundle: Value, name: string): Outcome
    requires ValidatedOk(tools, bundle, name)
  {
    var path := EvidencePath(tools, bundle, name);
    var evidence := ReadUnmarked(tools, path).value;
    Outcome(path, Get(evidence, "environment"), FirstTruthy(evidence, BUNDLE_ORDER))
  }

  /** A production requirement: the right status, and the bundle's environment if the file names one. */
  predicate Meets(bundle: Value, name: string, outcome: Outcome)
    requires name in REQUIRED_NAMES
  {
    && outcome.status == Some(Str(RequiredStatus(name)))
    && (outcome.environment == None || StrictlyEqual(outcome.environment, Get(bundle, "environment")))
  }

  predicate DeployedOk(tools: Tools, bundle: Value) {
    Deployed(bundle) ==> IsTimestampValue(Get(bundle, "generatedAt")) && !HasPlaceholder(tools.stringify(bundle))
  }

  predicate BundleAccepted(tools: Tools, bundle: Value) {
    && Get(bundle, "format") == Some(Str(BUNDLE_FORMAT))
    && MetadataComplete(bundle)
    && (forall n | n in VALIDATED_NAMES :: ValidatedOk(tools, bundle, n))
    && (forall n | n in ARTIFACT_NAMES :: ArtifactOk(tools, bundle, n))
    && DeployedOk(tools, bundle)
    && (IsProduction(bundle) ==> forall n | n in REQUIRED_NAMES :: Required(tools, bundle, n))
  }

  predicate Required(tools: Tools, bundle: Value, name: string) {
    && name in REQUIRED_NAMES && ValidatedOk(tools, bundle, name)
    && Meets(bundle, name, OutcomeOf(tools, bundle, name))
  }

  /** The validator's loops: the results are filled file by file, and the production requirements read
      them afterwards. */
  method ValidateBundle(tools: Tools, bundle: Value) returns (results: Result<map<string, Outcome>>)
    ensures results.Success? <==> BundleAccepted(tools, bundle)
    ensures results.Success? ==>
              && results.value.Keys == (set n | n in VALIDATED_NAMES) + (set n | n in ARTIFACT_NAMES)
              && forall n | n in VALIDATED_NAMES ::
                   ValidatedOk(tools, bundle, n) && results.value[n] == OutcomeOf(tools, bundle, n)
  {
    hide MetadataComplete, DeployedOk, Meets, ValidatedOk, ArtifactFormat, VALIDATED_NAMES, ARTIFACT_NAMES,
      RequiredStatus,
      REQUIRED_NAMES, FirstTruthy, OutcomeOf;
    if Get(bundle, "format") != Some(Str(BUNDLE_FORMAT)) || !MetadataComplete(bundle) {
      return Failure("incomplete bundle");
    }
    RequiredAreValidated();
    ArtifactsApart();
    var filled: map<string, Outcome> := map[];
    for i := 0 to |VALIDATED_NAMES|
      invariant filled.Keys == set n | n in VALIDATED_NAMES[..i]
      invariant forall n | n in VALIDATED_NAMES[..i] ::
                ValidatedOk(tools, bundle, n) && filled[n] == OutcomeOf(tools, bundle, n)
    {
      var name := VALIDATED_NAMES[i];
      if !ValidatedOk(tools, bundle, name) {
        return Failure("evidence refused");
      }
      assert VALIDATED_NAMES[..i + 1] == VALIDATED_NAMES[..i] + [name];
      filled := filled[name := OutcomeOf(tools, bundle, name)];
    }
    assert VALIDATED_NAMES[..|VALIDATED_NAMES|] == VALIDATED_NAMES;
    for i := 0 to |ARTIFACT_NAMES|
      invariant filled.Keys == (set n | n in VALIDATED_NAMES) + (set n | n in ARTIFACT_NAMES[..i])
      invariant forall n | n in VALIDATED_NAMES :: filled[n] == OutcomeOf(tools, bundle, n)
      invariant forall n | n in ARTIFACT_NAMES[..i] :: ArtifactOk(tools, bundle, n)
    {
      var name := ARTIFACT_NAMES[i];
      if !ArtifactOk(tools, bundle, name) {
        return Failure("artifact refused");
      }
      assert ARTIFACT_NAMES[..i + 1] == ARTIFACT_NAMES[..i] + [name];
      filled := filled[name := Outcome(EvidencePath(tools, bundle, name), None, None)];
    }
    assert ARTIFACT_NAMES[..|ARTIFACT_NAMES|] == ARTIFACT_NAMES;
    if !DeployedOk(tools, bundle) {
      return Failure("deployed bundle incomplete");
    }
    if IsProduction(bundle) {
      for i := 0 to |REQUIRED_NAMES|
        invariant forall n | n in REQUIRED_NAMES[..i] :: Required(tools, bundle, n)
      {
        var name := REQUIRED_NAMES[i];
        if !Meets(bundle, name, filled[name]) {
          return Failure("production requirement not met");
        }
        assert REQUIRED_NAMES[..i + 1] == REQUIRED_NAMES[..i] + [name];
      }
      assert REQUIRED_NAMES[..|REQUIRED_NAMES|] == REQUIRED_NAMES;
    }
    return Success(filled);
  }

  // ---------------------------------------------------------------- the report

  const BLOCKING_PREFIXES: seq<string> := ["planned", "not-run", "pending", "failed", "fail", "replace-with",
      "YYYY-MM-DD"]

  predicate IsBlockingText(s: string) {
    exists p | p in BLOCKING_PREFIXES :: StartsAt(s, 0, p)
  }

  /** collectStatuses(value).length > 0: arrays are opened at the top only. */
  predicate HasBlockingStatus(v: Value) {
    match v
    case Object(fields) => exists k | k in fields :: BlocksBelow(fields[k])
    case List(items) => exists i | 0 <= i < |items| :: BlocksBelow(items[i])
    case _ => false
  }

  predicate BlocksBelow(v: Value) {
    match v
    case Str(s) => IsBlockingText(s)
    case Object(fields) => exists k | k in fields :: BlocksBelow(fields[k])
    case _ => false
  }

  function Lowered(s: string): (r: string)
    ensures |r| == |s| && forall k | 0 <= k < |r| :: r[k] == LowerChar(s[k])
  {
    seq(|s|, k requires 0 <= k < |s| => LowerChar(s[k]))
  }

  /** A blocking text begins, in any case, with a word for what is not done yet or with a placeholder. */
  lemma {:induction false} BlockingTextExactly(s: string)
    ensures IsBlockingText(s) <==>
            || Lowered("planned") <= Lowered(s) || Lowered("not-run") <= Lowered(s) || Lowered("pending") <= Lowered(s)
            || Lowered("fail") <= Lowered(s) || Lowered("replace-with") <= Lowered(s)
            || Lowered("yyyy-mm-dd") <= Lowered(s)
  {
    StartsExactly(s, "planned");
    StartsExactly(s, "not-run");
    StartsExactly(s, "pending");
    StartsExactly(s, "fail");
    StartsExactly(s, "failed");
    StartsExactly(s, "replace-with");
    StartsExactly(s, "YYYY-MM-DD");
    FailedFails();
    hide StartsAt;
    var p := BLOCKING_PREFIXES;
    assert p[0] == "planned" && p[1] == "not-run" && p[2] == "pending" && p[3] == "failed" && p[4] == "fail";
    assert p[5] == "replace-with" && p[6] == "YYYY-MM-DD" && |p| == 7;
    hide BLOCKING_PREFIXES, Lowered;
  }

  lemma {:induction false} FailedFails()
    ensures Lowered("fail") <= Lowered("failed") && Lowered("YYYY-MM-DD") == Lowered("yyyy-mm-dd")
  {
  }

  lemma {:induction false} StartsExactly(s: string, p: string)
    ensures StartsAt(s, 0, p) <==> Lowered(p) <= Lowered(s)
  {
    hide LowerChar;
    assert StartsAt(s, 0, p) ==> Lowered(s)[..|p|] == Lowered(p);
    if Lowered(p) <= Lowered(s) {
      assert forall k | 0 <= k < |p| :: Lowered(s)[k] == Lowered(p)[k];
    }
  }

  /** v[name]?.[name]... for a list of names. */
  function Follow(v: Value, names: seq<string>): Option<Value> {
    if names == [] then Some(v)
    else match Get(v, names[0])
      case Some(inner) => Follow(inner, names[1..])
      case None => None
  }

  /** Under these names the value holds a blocking text. */
  predicate BlocksUnder(v: Value, names: seq<string>) {
    match Follow(v, names)
    case Some(Str(s)) => IsBlockingText(s)
    case _ => false
  }

  lemma {:induction false} BlocksBelowExactly(v: Value)
    ensures BlocksBelow(v) <==> exists names :: BlocksUnder(v, names)
  {
    hide IsBlockingText;
    match v
    case Str(s) => assert BlocksUnder(v, []) <==> IsBlockingText(s);
    case Object(fields) =>
      forall k | k in fields
        ensures BlocksBelow(fields[k]) <==> exists names :: BlocksUnder(fields[k], names)
      {
        BlocksBelowExactly(fields[k]);
      }
      if BlocksBelow(v) {
        var k :| k in fields && BlocksBelow(fields[k]);
        var names :| BlocksUnder(fields[k], names);
        assert ([k] + names)[1..] == names;
        assert BlocksUnder(v, [k] + names);
      }
      if names :| BlocksUnder(v, names) {
        assert BlocksUnder(fields[names[0]], names[1..]);
      }
    case _ =>
  }

  /** Evidence has a blocking status exactly when a text under one of its properties, or under a property of an
      object inside it at any depth, is blocking; of a list at the top the elements are searched, other lists
      are not. */
  lemma {:induction false} BlockingExactly(v: Value)
    ensures HasBlockingStatus(v) <==>
            || (v.Object? && exists names :: names != [] && BlocksUnder(v, names))
            || (v.List? && exists i, names :: 0 <= i < |v.items| && BlocksUnder(v.items[i], names))
  {
    hide IsBlockingText;
    match v
    case Object(fields) => BlocksBelowExactly(v);
    case List(items) =>
      forall i | 0 <= i < |items|
        ensures BlocksBelow(items[i]) <==> exists names :: BlocksUnder(items[i], names)
      {
        BlocksBelowExactly(items[i]);
      }
    case _ =>
  }

  function PlaceholdersIn(tools: Tools, v: Value): nat {
    CountPlaceholders(if v.Str? then v.s else tools.stringify(v), 0)
  }

  datatype Item = Item(found: bool, validates: bool, placeholderCount: nat, blocking: bool, statusIssue: bool) {
    predicate ProductionReady() {
      found && validates && placeholderCount == 0 && !blocking && !statusIssue
    }
  }

  predicate Validates(tools: Tools, name: string, path: string, evidence: Value) {
    if name in VALIDATED_NAMES then tools.succeeds(name, path)
    else if name in ARTIFACT_NAMES then Get(evidence, "format") == Some(Str(ArtifactFormat(name)))
    else true
  }

  /** The status a production bundle expects, by the report's reading of the file. */
  predicate StatusMatches(bundle: Value, name: string, evidence: Value) {
    IsProduction(bundle) && name in REQUIRED_NAMES ==>
         FirstTruthy(evidence, REPORT_ORDER) == Some(Str(RequiredStatus(name)))
  }

  predicate EnvironmentMatches(bundle: Value, evidence: Value) {
    IsProduction(bundle) && Get(evidence, "environment") != None ==>
      StrictlyEqual(Get(evidence, "environment"), Get(bundle, "environment"))
  }

  function ItemOf(tools: Tools, bundle: Value, name: string, candidate: Value): Result<Item> {
    if !candidate.Str? then Failure("path must be a string")
    else
      var path := tools.resolve(candidate.s);
      if !tools.present(path) then Success(Item(false, false, 0, false, false))
      else
        var evidence := ReadJson(tools, path);
        if evidence == None || evidence == Some(Null) then Failure("unreadable evidence")
        else Success(Item(
          true, Validates(tools, name, path, evidence.value), PlaceholdersIn(tools, evidence.value),
          HasBlockingStatus(evidence.value),
          !StatusMatches(bundle, name, evidence.value) || !EnvironmentMatches(bundle, evidence.value)))
  }

  /** Object.entries of the evidence map. */
  function Entries(bundle: Value): map<string, Value> {
    match Get(bundle, "evidence")
    case Some(Object(fields)) => fields
    case Some(List(items)) => IndexedFields(items)
    case _ => map[]
  }

  datatype Report = Report(
    bundlePlaceholderCount: nat, total: nat, present: nat, missing: nat, productionReady: nat, items: map<string, Item>)

  function BuildReport(tools: Tools, bundle: Value): Result<Report> {
    var evidence := Get(bundle, "evidence");
    var entries := Entries(bundle);
    if Get(bundle, "format") != Some(Str(BUNDLE_FORMAT)) then Failure("format")
    else if !(evidence.Some? && (evidence.value.Object?
        || evidence.value.List?)) then Failure("evidence map is required")
    else if exists n | n in entries :: ItemOf(tools, bundle, n, entries[n]).Failure? then Failure("evidence")
    else
      var items := map n | n in entries :: ItemOf(tools, bundle, n, entries[n]).value;
      Success(Report(
        PlaceholdersIn(tools, bundle), |items|,
        |set n | n in items && items[n].found|, |set n | n in items && !items[n].found|,
        |set n | n in items && items[n].ProductionReady()|, items))
  }

  /** readyForPilotOrProduction */
  predicate ReportReady(r: Report) {
    r.bundlePlaceholderCount == 0 && r.missing == 0 && r.total == r.productionReady
  }

  /** The totals agree exactly when every single item is ready. */
  lemma {:induction false} ReadyMeansEveryItem(tools: Tools, bundle: Value)
    ensures match BuildReport(tools, bundle)
            case Failure(_) => true
            case Success(r) =>
              ReportReady(r) <==>
              && PlaceholdersIn(tools, bundle) == 0
              && forall n | n in Entries(bundle) ::
                   var item := ItemOf(tools, bundle, n, Entries(bundle)[n]);
                   item.Success? && item.value.ProductionReady()
  {
    hide ItemOf, PlaceholdersIn, Entries, Get, BUNDLE_FORMAT;
    match BuildReport(tools, bundle)
    case Failure(_) =>
    case Success(r) =>
      var ready, missing := set n | n in r.items && r.items[n].ProductionReady(), set n | n in r.items
          && !r.items[n].found;
      assert r.items.Keys == Entries(bundle).Keys;
      if |ready| == |r.items| {
        FullSubset(ready, r.items.Keys);
      }
      if forall n | n in r.items :: r.items[n].ProductionReady() {
        assert ready == r.items.Keys && missing == {};
      }
  }

  lemma {:induction false} FullSubset<T>(a: set<T>, b: set<T>)
    requires a <= b && |a| == |b|
    ensures a == b
  {
    assert b == a + (b - a);
  }

  // ---------------------------------------------------------------- the two orders

  /** The two orders find the same status: the first of releaseStatus, status, deploymentStatus and
      providerStatus is the first of status, deploymentStatus and releaseStatus. */
  predicate OrdersAgree(evidence: Value) {
    var status, deployment := Get(evidence, "status"), Get(evidence, "deploymentStatus");
    var release, provider := Get(evidence, "releaseStatus"), Get(evidence, "providerStatus");
    if Truthy(release) then
      if Truthy(status) then status == release else Truthy(deployment) ==> deployment == release
    else Truthy(status) || Truthy(deployment) || !Truthy(provider)
  }

  lemma {:induction false} FirstOf(evidence: Value, name: string, rest: seq<string>)
    ensures FirstTruthy(evidence, [name] + rest) == if Truthy(Get(evidence, name)) then Get(evidence,
            name) else FirstTruthy(evidence, rest)
  {
    assert ([name] + rest)[1..] == rest;
  }

  lemma {:induction false} NothingFound(evidence: Value)
    ensures FirstTruthy(evidence, []) == None
  {
  }

  /** The report's order, one field at a time. */
  lemma {:induction false} ReportReads(evidence: Value)
    ensures FirstTruthy(evidence, REPORT_ORDER) ==
            if Truthy(Get(evidence, "releaseStatus")) then Get(evidence, "releaseStatus")
            else if Truthy(Get(evidence, "status")) then Get(evidence, "status")
            else if Truthy(Get(evidence, "deploymentStatus")) then Get(evidence, "deploymentStatus")
            else if Truthy(Get(evidence, "providerStatus")) then Get(evidence, "providerStatus")
            else None
  {
    var nothing: seq<string> := [];
    NothingFound(evidence);
    hide Get, FirstTruthy;
    FirstOf(evidence, "providerStatus", nothing);
    FirstOf(evidence, "deploymentStatus", ["providerStatus"]);
    FirstOf(evidence, "status", ["deploymentStatus", "providerStatus"]);
    FirstOf(evidence, "releaseStatus", ["status", "deploymentStatus", "providerStatus"]);
    assert REPORT_ORDER == ["releaseStatus"] + ["status", "deploymentStatus", "providerStatus"];
    assert ["status", "deploymentStatus", "providerStatus"] == ["status"] + ["deploymentStatus", "providerStatus"];
    assert ["deploymentStatus", "providerStatus"] == ["deploymentStatus"] + ["providerStatus"];
    assert ["providerStatus"] == ["providerStatus"] + nothing;
  }

  /** The validator's order, one field at a time. */
  lemma {:induction false} BundleReads(evidence: Value)
    ensures FirstTruthy(evidence, BUNDLE_ORDER) ==
            if Truthy(Get(evidence, "status")) then Get(evidence, "status")
            else if Truthy(Get(evidence, "deploymentStatus")) then Get(evidence, "deploymentStatus")
            else if Truthy(Get(evidence, "releaseStatus")) then Get(evidence, "releaseStatus")
            else None
  {
    var nothing: seq<string> := [];
    NothingFound(evidence);
    hide Get, FirstTruthy;
    FirstOf(evidence, "releaseStatus", nothing);
    FirstOf(evidence, "deploymentStatus", ["releaseStatus"]);
    FirstOf(evidence, "status", ["deploymentStatus", "releaseStatus"]);
    assert BUNDLE_ORDER == ["status"] + ["deploymentStatus", "releaseStatus"];
    assert ["deploymentStatus", "releaseStatus"] == ["deploymentStatus"] + ["releaseStatus"];
    assert ["releaseStatus"] == ["releaseStatus"] + nothing;
  }

  lemma {:induction false} OrdersAgreeExactly(evidence: Value)
    ensures OrdersAgree(evidence) <==> FirstTruthy(evidence, REPORT_ORDER) == FirstTruthy(evidence, BUNDLE_ORDER)
  {
    ReportReads(evidence);
    BundleReads(evidence);
    hide Get, FirstTruthy, REPORT_ORDER, BUNDLE_ORDER;
  }

  /** The file a production requirement is about reads the same in both orders. */
  predicate RequiredAgrees(tools: Tools, bundle: Value, name: string) {
    Listed(bundle, name) ==>
      var evidence := ReadJson(tools, EvidencePath(tools, bundle, name));
      evidence.Some? ==> OrdersAgree(evidence.value)
  }

  predicate AllListed(bundle: Value) {
    && (forall n | n in VALIDATED_NAMES :: Listed(bundle, n))
    && (forall n | n in ARTIFACT_NAMES :: Listed(bundle, n))
  }

  /** A ready report on a production bundle means an accepted bundle exactly when the bundle's own fields
      are complete, every evidence file is listed, the time is a timestamp, and the two status orders
      agree on the thirteen required files. */
  lemma {:induction false} ReadyReportAccepted(tools: Tools, bundle: Value)
    requires RefusesMark(tools) && IsProduction(bundle)
    requires BuildReport(tools, bundle).Success? && ReportReady(BuildReport(tools, bundle).value)
    ensures BundleAccepted(tools, bundle) <==>
            && MetadataComplete(bundle) && AllListed(bundle) && IsTimestampValue(Get(bundle, "generatedAt"))
            && forall n | n in REQUIRED_NAMES :: RequiredAgrees(tools, bundle, n)
  {
    hide ItemOf, PlaceholdersIn, Get, BUNDLE_FORMAT, MetadataComplete, VALIDATED_NAMES, ARTIFACT_NAMES, REQUIRED_NAMES,
      RequiredStatus, Required, RequiredAgrees, ValidatedOk, ArtifactOk, Listed, HasPlaceholder, ReportReady,
          ArtifactFormat;
    ReadyMeansEveryItem(tools, bundle);
    RequiredAreValidated();
    ArtifactsApart();
    NoPlaceholders(tools, bundle);
    ReadyFields(tools, bundle);
    forall n | n in VALIDATED_NAMES
      ensures Listed(bundle, n) <==> ValidatedOk(tools, bundle, n)
    {
      ReadyValidated(tools, bundle, n);
    }
    forall n | n in ARTIFACT_NAMES
      ensures Listed(bundle, n) <==> ArtifactOk(tools, bundle, n)
    {
      ReadyArtifact(tools, bundle, n);
    }
    if AllListed(bundle) {
      forall n | n in REQUIRED_NAMES
        ensures Required(tools, bundle, n) <==> RequiredAgrees(tools, bundle, n)
      {
        ReadyRequired(tools, bundle, n);
      }
    }
  }

  lemma {:induction false} ReadyFields(tools: Tools, bundle: Value)
    requires BuildReport(tools, bundle).Success? && ReportReady(BuildReport(tools, bundle).value)
    ensures bundle.Object? && Get(bundle, "format") == Some(Str(BUNDLE_FORMAT)) && PlaceholdersIn(tools, bundle) == 0
  {
    hide ItemOf, PlaceholdersIn, Entries, BUNDLE_FORMAT;
  }

  /** The item of a listed evidence name is production ready. */
  predicate ReadyItem(tools: Tools, bundle: Value, name: string) {
    name in Entries(bundle) ==>
      var item := ItemOf(tools, bundle, name, Entries(bundle)[name]);
      item.Success? && item.value.ProductionReady()
  }

  lemma {:induction false} NoPlaceholders(tools: Tools, bundle: Value)
    ensures bundle.Object? ==> (PlaceholdersIn(tools, bundle) == 0 <==> !HasPlaceholder(tools.stringify(bundle)))
  {
    hide MatchAt, CountPlaceholders;
    if bundle.Object? {
      NoneCounted(tools.stringify(bundle), 0);
    }
  }

  lemma {:induction false} ReadyValidated(tools: Tools, bundle: Value, name: string)
    requires RefusesMark(tools) && ReadyItem(tools, bundle, name) && name in VALIDATED_NAMES
    ensures Listed(bundle, name) <==> ValidatedOk(tools, bundle, name)
  {
    hide RefusesMark, ReadJson, ReadUnmarked, PlaceholdersIn, HasBlockingStatus, StatusMatches, EnvironmentMatches,
      VALIDATED_NAMES, ARTIFACT_NAMES;
    if Listed(bundle, name) {
      ReadsAgree(tools, EvidencePath(tools, bundle, name));
    }
  }

  lemma {:induction false} ReadyArtifact(tools: Tools, bundle: Value, name: string)
    requires ReadyItem(tools, bundle, name) && name in ARTIFACT_NAMES && name !in VALIDATED_NAMES
    ensures Listed(bundle, name) <==> ArtifactOk(tools, bundle, name)
  {
    hide ReadJson, PlaceholdersIn, HasBlockingStatus, StatusMatches, EnvironmentMatches, VALIDATED_NAMES,
      ARTIFACT_NAMES, ArtifactFormat;
  }

  lemma {:induction false} ReadyRequired(tools: Tools, bundle: Value, name: string)
    requires RefusesMark(tools) && ReadyItem(tools, bundle, name) && IsProduction(bundle)
    requires Listed(bundle, name) && ValidatedOk(tools, bundle, name) && name in REQUIRED_NAMES
    ensures Required(tools, bundle, name) <==> RequiredAgrees(tools, bundle, name)
  {
    hide RefusesMark, ReadJson, ReadUnmarked, PlaceholdersIn, HasBlockingStatus, VALIDATED_NAMES, ARTIFACT_NAMES,
      RequiredStatus,
      FirstTruthy, OrdersAgree, Validates;
    var path := EvidencePath(tools, bundle, name);
    var evidence := ReadJson(tools, path).value;
    ReadsAgree(tools, path);
    OrdersAgreeExactly(evidence);
  }

  // ---------------------------------------------------------------- the usual case

  /** Exactly one of the three status fields is filled in. */
  predicate OneStatus(evidence: Value) {
    var s, d, r := Truthy(Get(evidence, "status")), Truthy(Get(evidence, "deploymentStatus")), Truthy(Get(evidence,
        "releaseStatus"));
    (s && !d && !r) || (!s && d && !r) || (!s && !d && r)
  }

  /** With one status field in each required file, a ready report on a complete production bundle is
      enough. */
  lemma {:induction false} OneStatusAccepted(tools: Tools, bundle: Value)
    requires RefusesMark(tools) && IsProduction(bundle)
    requires BuildReport(tools, bundle).Success? && ReportReady(BuildReport(tools, bundle).value)
    requires MetadataComplete(bundle) && AllListed(bundle) && IsTimestampValue(Get(bundle, "generatedAt"))
    requires forall n | n in REQUIRED_NAMES && Listed(bundle, n) ::
               var evidence := ReadJson(tools, EvidencePath(tools, bundle, n));
               evidence.Some? ==> OneStatus(evidence.value)
    ensures BundleAccepted(tools, bundle)
  {
    hide BuildReport, ReportReady, BundleAccepted, MetadataComplete, Get, Listed, AllListed, IsTimestampValue,
      REQUIRED_NAMES, RefusesMark,
      ReadJson, IsProduction;
    ReadyReportAccepted(tools, bundle);
  }

  lemma {:induction false} DiffersAt(s: string, pattern: string, k: nat)
    requires k < |pattern| && (k < |s| ==> LowerChar(s[k]) != LowerChar(pattern[k]))
    ensures !StartsAt(s, 0, pattern)
  {
    if k < |s| {
      assert LowerChar(s[0 + k]) != LowerChar(pattern[k]);
    }
  }

  /** A text that starts with another letter than every blocking prefix, or with p and a letter that goes on
      with none, blocks nothing. */
  lemma {:induction false} NotBlocking(s: string)
    requires s != "" && (s[0] in {'a', 'c', 'o', 's', 'v'} || (s[0] == 'p' && |s| > 1 && s[1] in {'a', 'i', 'r'}))
    ensures !IsBlockingText(s)
  {
    forall p | p in BLOCKING_PREFIXES
      ensures !StartsAt(s, 0, p)
    {
      DiffersAt(s, p, if s[0] == p[0] then 1 else 0);
    }
  }
}
