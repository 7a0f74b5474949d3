/** What the deployment bundle's validator and the status report ask for, file by file and by name. */
module BundleVerdict {
  import opened Wrappers
  import opened Json
  import opened Text
  import opened StatusReport

  // ---------------------------------------------------------------- the files of a bundle

  /** The bundle lists a file under this name; it is there, and this is its text. */
  predicate HasFile(tools: Tools, bundle: Value, name: string, path: string, text: string) {
    match Get(bundle, "evidence")
    case Some(Object(fields)) =>
      && name in fields && fields[name].Str? && fields[name].s != "" && path == tools.resolve(fields[name].s)
      && tools.present(path) && tools.text(path) == Some(text)
    case _ => false
  }

  /** The text without a leading byte order mark is the JSON text of this value. */
  predicate Parses(tools: Tools, text: string, v: Value) {
    tools.parse(if text != "" && text[0] == '\U{FEFF}' then text[1..] else text) == Some(v)
  }

  predicate PassesAs(tools: Tools, bundle: Value, name: string, path: string, text: string, v: Value) {
    HasFile(tools, bundle, name, path, text) && Parses(tools, text, v) && v != Null && tools.succeeds(name, path)
  }

  /** The file is there, is JSON and not null, and its own validator succeeds. */
  ghost predicate Passes(tools: Tools, bundle: Value, name: string) {
    exists path, text, v :: PassesAs(tools, bundle, name, path, text, v)
  }

  predicate FormattedAs(tools: Tools, bundle: Value, name: string, format: string, path: string, text: string) {
    && HasFile(tools, bundle, name, path, text) && tools.parse(text).Some?
    && Get(tools.parse(text).value, "format") == Some(Str(format))
  }

  /** The file is there, is JSON without a byte order mark, and has this format. */
  ghost predicate Formatted(tools: Tools, bundle: Value, name: string, format: string) {
    exists path, text :: FormattedAs(tools, bundle, name, format, path, text)
  }

  /** The first filled field of status, deploymentStatus and releaseStatus. */
  function Status(v: Value): Option<Value> {
    if Truthy(Get(v, "status")) then Get(v, "status")
    else if Truthy(Get(v, "deploymentStatus")) then Get(v, "deploymentStatus")
    else if Truthy(Get(v, "releaseStatus")) then Get(v, "releaseStatus")
    else None
  }

  /** The file names no environment, or the bundle's, which then is no list and no object. */
  predicate InEnvironment(bundle: Value, v: Value) {
    match Get(v, "environment")
    case None => true
    case Some(environment) =>
      !environment.List? && !environment.Object? && Get(bundle, "environment") == Some(environment)
  }

  predicate CertifiesAs(
    tools: Tools, bundle: Value, name: string, status: string, path: string, text: string, v: Value)
  {
    && HasFile(tools, bundle, name, path, text) && Parses(tools, text, v)
    && Status(v) == Some(Str(status)) && InEnvironment(bundle, v)
  }

  /** The file has this status and is for the bundle's environment. */
  ghost predicate Certifies(tools: Tools, bundle: Value, name: string, status: string) {
    exists path, text, v :: CertifiesAs(tools, bundle, name, status, path, text, v)
  }

  // ---------------------------------------------------------------- the accepted bundle

  predicate Complete(bundle: Value) {
    && Truthy(Get(bundle, "environment")) && Truthy(Get(bundle, "owner")) && Truthy(Get(bundle, "generatedAt"))
    && (match Get(bundle, "status")
        case Some(Str(s)) => s == "planned" || s == "pilot" || s == "production" || s == "retired"
        case _ => false)
    && (match Get(bundle, "approvals")
        case Some(a) => Truthy(Get(a, "securityOwner")) && Truthy(Get(a, "operationsOwner"))
                        && Truthy(Get(a, "releaseOwner"))
        case None => false)
  }

  ghost predicate AllPass(tools: Tools, bundle: Value) {
    && Passes(tools, bundle, "connector") && Passes(tools, bundle, "itsmWorkNotes")
    && Passes(tools, bundle, "devopsTokenResponse") && Passes(tools, bundle, "postgresHa")
    && Passes(tools, bundle, "browserIdentity") && Passes(tools, bundle, "browserRollout")
    && Passes(tools, bundle, "nativeCompanion") && Passes(tools, bundle, "credentialProviderApproval")
    && Passes(tools, bundle, "identityProvider") && Passes(tools, bundle, "kmsHsm")
    && Passes(tools, bundle, "kmsHsmSdkApproval") && Passes(tools, bundle, "windowsRelease")
    && Passes(tools, bundle, "windowsSigning") && Passes(tools, bundle, "windowsInstallHardening")
    && Passes(tools, bundle, "sourceMigration") && Passes(tools, bundle, "tlsIis")
    && Passes(tools, bundle, "pentestScope") && Passes(tools, bundle, "auditWorm")
    && Passes(tools, bundle, "backupRecovery") && Passes(tools, bundle, "deviceTrust")
    && Passes(tools, bundle, "bruteForce") && Passes(tools, bundle, "tenantIsolation")
    && Passes(tools, bundle, "siemReceiverRotation") && Passes(tools, bundle, "releaseAttestation")
    && Passes(tools, bundle, "sast") && Passes(tools, bundle, "logRedaction")
  }

  ghost predicate AllCertify(tools: Tools, bundle: Value) {
    && Certifies(tools, bundle, "connector", "certified") && Certifies(tools, bundle, "itsmWorkNotes", "production")
    && Certifies(tools, bundle, "siemReceiverRotation", "certified")
    && Certifies(tools, bundle, "windowsSigning", "signed") && Certifies(tools, bundle, "browserIdentity", "production")
    && Certifies(tools, bundle, "browserRollout", "production")
    && Certifies(tools, bundle, "nativeCompanion", "production")
    && Certifies(tools, bundle, "credentialProviderApproval", "approved")
    && Certifies(tools, bundle, "kmsHsm", "active") && Certifies(tools, bundle, "kmsHsmSdkApproval", "approved")
    && Certifies(tools, bundle, "sourceMigration", "production")
    && Certifies(tools, bundle, "tenantIsolation", "production") && Certifies(tools, bundle, "postgresHa", "approved")
  }

  /** Digits with these separators, and Z at the end: 0000-00-00T00:00:00Z. */
  predicate IsoText(v: Option<Value>) {
    match v
    case Some(Str(s)) =>
      |s| == 20 && forall i | 0 <= i < 20 ::
        if '0' <= TIMESTAMP[i] <= '9' then '0' <= s[i] <= '9' else s[i] == TIMESTAMP[i]
    case _ => false
  }

  const TIMESTAMP: string := "0000-00-00T00:00:00Z"

  /** Nowhere, in any case, does the text go on with one of the two placeholders. */
  predicate NoPlaceholder(s: string) {
    forall i | 0 <= i <= |s| ::
      !(Lowered("replace-with") <= Lowered(s[i..])) && !(Lowered("yyyy-mm-dd") <= Lowered(s[i..]))
  }

  lemma {:induction false} PlaceholderExactly(s: string)
    ensures HasPlaceholder(s) <==> !NoPlaceholder(s)
  {
    forall i | 0 <= i <= |s|
      ensures MatchAt(s, i) > 0 <==>
              Lowered("replace-with") <= Lowered(s[i..]) || Lowered("yyyy-mm-dd") <= Lowered(s[i..])
    {
      StartsShift(s, i, "replace-with");
      StartsShift(s, i, "YYYY-MM-DD");
      StartsExactly(s[i..], "replace-with");
      StartsExactly(s[i..], "YYYY-MM-DD");
      FailedFails();
    }
    hide MatchAt, Lowered;
  }

  lemma {:induction false} StartsShift(s: string, i: nat, p: string)
    requires i <= |s|
    ensures StartsAt(s, i, p) <==> StartsAt(s[i..], 0, p)
  {
    hide LowerChar;
    assert forall k | 0 <= k < |p| && i + k < |s| :: s[i..][k] == s[i + k];
  }

  lemma {:induction false} IsoExactly(v: Option<Value>)
    ensures IsTimestampValue(v) <==> IsoText(v)
  {
  }

  lemma {:induction false} CompleteExactly(bundle: Value)
    ensures MetadataComplete(bundle) <==> Complete(bundle)
  {
    hide Truthy, Get;
  }

  lemma {:induction false} PassesExactly(tools: Tools, bundle: Value, name: string)
    ensures ValidatedOk(tools, bundle, name) <==> Passes(tools, bundle, name)
  {
    hide Get;
    if ValidatedOk(tools, bundle, name) {
      var path := EvidencePath(tools, bundle, name);
      assert PassesAs(tools, bundle, name, path, tools.text(path).value, ReadUnmarked(tools, path).value);
    }
  }

  lemma {:induction false} FormattedExactly(tools: Tools, bundle: Value, name: string)
    ensures ArtifactOk(tools, bundle, name) <==> Formatted(tools, bundle, name, ArtifactFormat(name))
  {
    hide Get, ArtifactFormat;
    if ArtifactOk(tools, bundle, name) {
      var path := EvidencePath(tools, bundle, name);
      assert FormattedAs(tools, bundle, name, ArtifactFormat(name), path, tools.text(path).value);
    }
  }

  lemma {:induction false} CertifiesExactly(tools: Tools, bundle: Value, name: string)
    requires ValidatedOk(tools, bundle, name) && name in REQUIRED_NAMES
    ensures Required(tools, bundle, name) <==> Certifies(tools, bundle, name, RequiredStatus(name))
  {
    hide Get, RequiredStatus, REQUIRED_NAMES, FirstTruthy;
    var path := EvidencePath(tools, bundle, name);
    var v := ReadUnmarked(tools, path).value;
    BundleReads(v);
    if Required(tools, bundle, name) {
      assert CertifiesAs(tools, bundle, name, RequiredStatus(name), path, tools.text(path).value, v);
    }
  }

  lemma {:induction false} ValidatedAt()
    ensures var n := VALIDATED_NAMES;
            && |n| == 26 && n[0] == "connector" && n[1] == "itsmWorkNotes" && n[2] == "devopsTokenResponse"
            && n[3] == "postgresHa" && n[4] == "browserIdentity" && n[5] == "browserRollout"
            && n[6] == "nativeCompanion" && n[7] == "credentialProviderApproval" && n[8] == "identityProvider"
            && n[9] == "kmsHsm" && n[10] == "kmsHsmSdkApproval" && n[11] == "windowsRelease"
            && n[12] == "windowsSigning" && n[13] == "windowsInstallHardening" && n[14] == "sourceMigration"
            && n[15] == "tlsIis" && n[16] == "pentestScope" && n[17] == "auditWorm" && n[18] == "backupRecovery"
            && n[19] == "deviceTrust" && n[20] == "bruteForce" && n[21] == "tenantIsolation"
            && n[22] == "siemReceiverRotation" && n[23] == "releaseAttestation" && n[24] == "sast"
            && n[25] == "logRedaction"
  {
  }

  lemma {:induction false} RequiredAt()
    ensures var n := REQUIRED_NAMES;
            && |n| == 13 && n[0] == "connector" && n[1] == "itsmWorkNotes" && n[2] == "siemReceiverRotation"
            && n[3] == "windowsSigning" && n[4] == "browserIdentity" && n[5] == "browserRollout"
            && n[6] == "nativeCompanion" && n[7] == "credentialProviderApproval" && n[8] == "kmsHsm"
            && n[9] == "kmsHsmSdkApproval" && n[10] == "sourceMigration" && n[11] == "tenantIsolation"
            && n[12] == "postgresHa"
  {
  }

  lemma {:induction false} PassListed(tools: Tools, bundle: Value)
    ensures (forall n | n in VALIDATED_NAMES :: ValidatedOk(tools, bundle, n)) <==> AllPass(tools, bundle)
  {
    hide ValidatedOk, Passes, VALIDATED_NAMES;
    ValidatedAt();
    forall n: string
      ensures ValidatedOk(tools, bundle, n) <==> Passes(tools, bundle, n)
    {
      PassesExactly(tools, bundle, n);
    }
    assert (forall n | n in VALIDATED_NAMES :: Passes(tools, bundle, n))
      <==> forall i | 0 <= i < 26 :: Passes(tools, bundle, VALIDATED_NAMES[i]);
  }

  lemma {:induction false} ArtifactsListed(tools: Tools, bundle: Value)
    ensures (forall n | n in ARTIFACT_NAMES :: ArtifactOk(tools, bundle, n)) <==>
            && Formatted(tools, bundle, "storageMigration", "sentinel-storage-migration-evidence-v1")
            && Formatted(tools, bundle, "releaseProvenance", "sentinel-release-provenance-v1")
  {
    hide ArtifactOk, Formatted;
    FormattedExactly(tools, bundle, "storageMigration");
    FormattedExactly(tools, bundle, "releaseProvenance");
    assert ARTIFACT_NAMES[0] == "storageMigration" && ARTIFACT_NAMES[1] == "releaseProvenance";
  }

  lemma {:induction false} EarlyStatuses()
    ensures RequiredStatus("connector") == "certified"
    ensures RequiredStatus("siemReceiverRotation") == "certified"
    ensures RequiredStatus("windowsSigning") == "signed"
    ensures RequiredStatus("kmsHsm") == "active"
  {
  }

  lemma {:induction false} ApprovedStatuses()
    ensures RequiredStatus("credentialProviderApproval") == "approved"
    ensures RequiredStatus("kmsHsmSdkApproval") == "approved"
    ensures RequiredStatus("postgresHa") == "approved"
  {
  }

  lemma {:induction false} BrowserStatuses()
    ensures RequiredStatus("itsmWorkNotes") == "production"
    ensures RequiredStatus("browserIdentity") == "production"
    ensures RequiredStatus("browserRollout") == "production"
  {
  }

  lemma {:induction false} ProductionStatuses()
    ensures RequiredStatus("nativeCompanion") == "production"
    ensures RequiredStatus("sourceMigration") == "production"
    ensures RequiredStatus("tenantIsolation") == "production"
  {
  }

  lemma {:induction false} CertifyListed(tools: Tools, bundle: Value)
    requires forall n | n in VALIDATED_NAMES :: ValidatedOk(tools, bundle, n)
    ensures (forall n | n in REQUIRED_NAMES :: Required(tools, bundle, n)) <==> AllCertify(tools, bundle)
  {
    hide ValidatedOk, Certifies, REQUIRED_NAMES, VALIDATED_NAMES, Required, RequiredStatus;
    RequiredAreValidated();
    RequiredAt();
    EarlyStatuses();
    ApprovedStatuses();
    BrowserStatuses();
    ProductionStatuses();
    forall n | n in REQUIRED_NAMES
      ensures Required(tools, bundle, n) <==> Certifies(tools, bundle, n, RequiredStatus(n))
    {
      CertifiesExactly(tools, bundle, n);
    }
    assert (forall n | n in REQUIRED_NAMES :: Required(tools, bundle, n))
      <==> forall i | 0 <= i < 13 :: Required(tools, bundle, REQUIRED_NAMES[i]);
  }

  /** The bundle is accepted exactly when its own fields are complete, twenty-six files pass their validators and
      two have their formats; a bundle in use has a timestamp and no placeholder in its text; and in production
      thirteen of the files have the status required of them and the bundle's environment. */
  lemma {:induction false} BundleExactly(tools: Tools, bundle: Value)
    ensures BundleAccepted(tools, bundle) <==>
            && Get(bundle, "format") == Some(Str("sentinel-deployment-evidence-bundle-v1")) && Complete(bundle)
            && AllPass(tools, bundle)
            && Formatted(tools, bundle, "storageMigration", "sentinel-storage-migration-evidence-v1")
            && Formatted(tools, bundle, "releaseProvenance", "sentinel-release-provenance-v1")
            && (Get(bundle, "status") == Some(Str("pilot")) || Get(bundle, "status") == Some(Str("production")) ==>
                  IsoText(Get(bundle, "generatedAt")) && NoPlaceholder(tools.stringify(bundle)))
            && (Get(bundle, "status") == Some(Str("production")) ==> AllCertify(tools, bundle))
  {
    hide Get, Complete, MetadataComplete, AllPass, AllCertify, HasPlaceholder, NoPlaceholder, IsoText, IsTimestampValue,
      ValidatedOk, ArtifactOk, Required, Formatted, VALIDATED_NAMES, ARTIFACT_NAMES, REQUIRED_NAMES;
    CompleteExactly(bundle);
    PassListed(tools, bundle);
    ArtifactsListed(tools, bundle);
    IsoExactly(Get(bundle, "generatedAt"));
    PlaceholderExactly(tools.stringify(bundle));
    if forall n | n in VALIDATED_NAMES :: ValidatedOk(tools, bundle, n) {
      CertifyListed(tools, bundle);
    }
  }

  // ---------------------------------------------------------------- the ready report

  /** The first filled field of releaseStatus, status, deploymentStatus and providerStatus. */
  function ReportStatus(v: Value): Option<Value> {
    if Truthy(Get(v, "releaseStatus")) then Get(v, "releaseStatus")
    else if Truthy(Get(v, "status")) then Get(v, "status")
    else if Truthy(Get(v, "deploymentStatus")) then Get(v, "deploymentStatus")
    else if Truthy(Get(v, "providerStatus")) then Get(v, "providerStatus")
    else None
  }

  /** JSON.stringify, or the text itself. */
  function TextOf(tools: Tools, v: Value): string {
    if v.Str? then v.s else tools.stringify(v)
  }

  /** What the report asks of the value a file holds. */
  predicate ReadyValue(tools: Tools, bundle: Value, name: string, path: string, v: Value) {
    && (name in VALIDATED_NAMES ==> tools.succeeds(name, path))
    && (name == "storageMigration" ==> Get(v, "format") == Some(Str("sentinel-storage-migration-evidence-v1")))
    && (name == "releaseProvenance" ==> Get(v, "format") == Some(Str("sentinel-release-provenance-v1")))
    && NoPlaceholder(TextOf(tools, v)) && !HasBlockingStatus(v)
    && (Get(bundle, "status") == Some(Str("production")) ==>
          InEnvironment(bundle, v)
          && (name in REQUIRED_NAMES ==> ReportStatus(v) == Some(Str(RequiredStatus(name)))))
  }

  predicate ReadyAs(
    tools: Tools, bundle: Value, name: string, candidate: Value, path: string, text: string, v: Value)
  {
    && candidate.Str? && path == tools.resolve(candidate.s) && tools.present(path) && tools.text(path) == Some(text)
    && tools.parse(text) == Some(v) && v != Null && ReadyValue(tools, bundle, name, path, v)
  }

  /** The listed file is there and readable without a byte order mark, its validator succeeds or its format is right
      where it has one, it holds no placeholder and no blocking status, and in production it is for the bundle's
      environment and has the status required of it, in the report's order of the fields. */
  ghost predicate ReadyFile(tools: Tools, bundle: Value, name: string, candidate: Value) {
    exists path, text, v :: ReadyAs(tools, bundle, name, candidate, path, text, v)
  }

  lemma {:induction false} NoneCountedExactly(tools: Tools, v: Value)
    ensures PlaceholdersIn(tools, v) == 0 <==> NoPlaceholder(TextOf(tools, v))
  {
    hide MatchAt, CountPlaceholders, NoPlaceholder;
    NoneCounted(TextOf(tools, v), 0);
    PlaceholderExactly(TextOf(tools, v));
  }

  lemma {:induction false} FormatExactly(tools: Tools, name: string, path: string, v: Value)
    ensures Validates(tools, name, path, v) <==>
            && (name in VALIDATED_NAMES ==> tools.succeeds(name, path))
            && (name == "storageMigration" ==> Get(v, "format") == Some(Str("sentinel-storage-migration-evidence-v1")))
            && (name == "releaseProvenance" ==> Get(v, "format") == Some(Str("sentinel-release-provenance-v1")))
  {
    hide Get, VALIDATED_NAMES;
    ArtifactsApart();
    assert ARTIFACT_NAMES[0] == "storageMigration" && ARTIFACT_NAMES[1] == "releaseProvenance";
  }

  lemma {:induction false} ValueExactly(tools: Tools, bundle: Value, name: string, path: string, v: Value)
    ensures && Validates(tools, name, path, v) && PlaceholdersIn(tools, v) == 0 && !HasBlockingStatus(v)
            && StatusMatches(bundle, name, v) && EnvironmentMatches(bundle, v)
            <==> ReadyValue(tools, bundle, name, path, v)
  {
    hide Get, HasBlockingStatus, PlaceholdersIn, NoPlaceholder, VALIDATED_NAMES, REQUIRED_NAMES, ARTIFACT_NAMES,
      RequiredStatus, FirstTruthy, TextOf, ReportStatus, Validates, REPORT_ORDER;
    FormatExactly(tools, name, path, v);
    NoneCountedExactly(tools, v);
    StatusExactly(v);
  }

  lemma {:induction false} StatusExactly(v: Value)
    ensures FirstTruthy(v, REPORT_ORDER) == ReportStatus(v)
  {
    ReportReads(v);
    hide Get, FirstTruthy, REPORT_ORDER;
  }

  lemma {:induction false} ItemExactly(tools: Tools, bundle: Value, name: string, candidate: Value)
    ensures var item := ItemOf(tools, bundle, name, candidate);
            item.Success? && item.value.ProductionReady() <==> ReadyFile(tools, bundle, name, candidate)
  {
    hide HasBlockingStatus, PlaceholdersIn, Validates, StatusMatches, EnvironmentMatches, ReadyValue;
    if candidate.Str? {
      var path := tools.resolve(candidate.s);
      if tools.text(path).Some? && tools.parse(tools.text(path).value).Some? {
        var text := tools.text(path).value;
        var v := tools.parse(text).value;
        ValueExactly(tools, bundle, name, path, v);
        assert ReadyFile(tools, bundle, name, candidate) <==> ReadyAs(tools, bundle, name, candidate, path, text, v);
      }
    }
  }

  /** There is a report and it is ready exactly when the bundle has the format and an evidence map, its text has no
      placeholder, and every listed file is ready. */
  lemma {:induction false} ReportExactly(tools: Tools, bundle: Value)
    ensures BuildReport(tools, bundle).Success? && ReportReady(BuildReport(tools, bundle).value) <==>
            && Get(bundle, "format") == Some(Str("sentinel-deployment-evidence-bundle-v1"))
            && (match Get(bundle, "evidence") case Some(e) => e.Object? || e.List? case None => false)
            && NoPlaceholder(TextOf(tools, bundle))
            && forall n | n in Entries(bundle) :: ReadyFile(tools, bundle, n, Entries(bundle)[n])
  {
    hide Get, ItemOf, PlaceholdersIn, NoPlaceholder, TextOf, Entries, ReadyFile, ReportReady;
    NoneCountedExactly(tools, bundle);
    ReadyMeansEveryItem(tools, bundle);
    forall n | n in Entries(bundle)
      ensures var item := ItemOf(tools, bundle, n, Entries(bundle)[n]);
              item.Success? && item.value.ProductionReady() <==> ReadyFile(tools, bundle, n, Entries(bundle)[n])
    {
      ItemExactly(tools, bundle, n, Entries(bundle)[n]);
    }
  }
}
