/** The documents of a review decide what its manifest says: each names the ones it was made from, so that the
    waiver register alone fixes the other documents and every compared field. */
module ReviewChain {
  import opened Wrappers
  import opened Json
  import opened Files
  import opened Attachments
  import opened WaiverRegister
  import opened EvidenceChain
  import Signoffs

  /** Two manifests list the same file under this name. */
  predicate SamePath(m: Option<Value>, n: Option<Value>, name: string) {
    ArtifactPath(m, name) == ArtifactPath(n, name)
  }

  /** What one document's path decides in any two reviews that are valid in one world. */
  predicate Decides(m: Option<Value>, n: Option<Value>) {
    && (SamePath(m, n, "phaseWaiverRegister") ==>
          SamePath(m, n, "phaseAttachmentInventory") && SamePath(m, n, "phaseDecisionRecord"))
    && (SamePath(m, n, "phaseAttachmentInventory") ==> SamePath(m, n, "phaseEvidenceIntake"))
    && (SamePath(m, n, "phaseEvidenceIntake") ==>
          SamePath(m, n, "phaseSignoffMatrix") && SamePath(m, n, "phaseGapMatrix"))
    && (SamePath(m, n, "phaseSignoffMatrix") ==>
          SamePath(m, n, "phaseDecisionRecord") && SamePath(m, n, "phaseActionRegister"))
    && (SamePath(m, n, "phaseDecisionRecord") ==>
          SamePath(m, n, "phaseGateValidation") && SamePath(m, n, "phaseActionRegister")
          && SamePath(m, n, "phaseGapMatrix"))
    && (SamePath(m, n, "phaseActionRegister") ==> SamePath(m, n, "phaseGateValidation"))
    && (SamePath(m, n, "phaseGateValidation") ==> SamePath(m, n, "phaseEvidenceManifest"))
  }

  lemma {:induction false} PathsDecide(env: Env, w: World, p: string, q: string, approvedP: bool, approvedQ: bool)
    requires ReviewValid(env, w, p, approvedP) && ReviewValid(env, w, q, approvedQ)
    ensures Decides(Read(w.fs, env.json, p), Read(w.fs, env.json, q))
  {
    hide AllStamped, At, ArtifactPath, HasFormat, IsTimestamp, ReviewFormats, ReviewState, SummaryValue,
      SummarizeForReview, ReviewApproved, TextAt;
  }

  // ---------------------------------------------------------------- one register, one review

  const COMPARED := {
    "format", "environment", "target", "ready", "validated", "decision", "blockerCount", "warningCount",
    "remainingPhaseCount", "remainingItemCount", "waiverSummary"}

  const DOCUMENTS := {
    "phaseEvidenceManifest", "phaseGateValidation", "phaseActionRegister", "phaseGapMatrix", "phaseDecisionRecord",
    "phaseSignoffMatrix", "phaseEvidenceIntake", "phaseAttachmentInventory", "phaseWaiverRegister"}

  /** The same path, length and hash. */
  predicate SameEntry(m: Option<Value>, n: Option<Value>, name: string) {
    && SamePath(m, n, name)
    && At(Artifact(m, name), ["bytes"]) == At(Artifact(n, name), ["bytes"])
    && TextAt(Artifact(m, name), ["sha256"]) == TextAt(Artifact(n, name), ["sha256"])
  }

  predicate SameReview(m: Option<Value>, n: Option<Value>) {
    && (forall name | name in DOCUMENTS :: SameEntry(m, n, name))
    && forall field | field in COMPARED :: At(m, [field]) == At(n, [field])
  }

  /** The waiver register decides the review: two review manifests that are valid in one world and list the same
      register list the same documents, with the same lengths and hashes, and say the same about the release. */
  lemma {:induction false} RegisterDecidesReview(
      env: Env, w: World, p: string, q: string, approvedP: bool, approvedQ: bool)
    requires ReviewValid(env, w, p, approvedP) && ReviewValid(env, w, q, approvedQ)
    requires SamePath(Read(w.fs, env.json, p), Read(w.fs, env.json, q), "phaseWaiverRegister")
    ensures SameReview(Read(w.fs, env.json, p), Read(w.fs, env.json, q))
  {
    hide ReviewValid, SameEntry, SamePath, At;
    var m, n := Read(w.fs, env.json, p), Read(w.fs, env.json, q);
    PathsDecide(env, w, p, q, approvedP, approvedQ);
    forall name | name in DOCUMENTS
      ensures SameEntry(m, n, name)
    {
      SamePathSameEntry(env, w, p, q, approvedP, approvedQ, name);
    }
    SameFields(env, w, p, q, approvedP, approvedQ);
  }

  lemma {:induction false} Documents(name: string)
    requires name in DOCUMENTS
    ensures name in REVIEW_ARTIFACTS
  {
    assert REVIEW_ARTIFACTS[0] == "phaseEvidenceManifest" && REVIEW_ARTIFACTS[1] == "phaseGateValidation";
    assert REVIEW_ARTIFACTS[3] == "phaseActionRegister" && REVIEW_ARTIFACTS[5] == "phaseGapMatrix";
    assert REVIEW_ARTIFACTS[7] == "phaseDecisionRecord" && REVIEW_ARTIFACTS[9] == "phaseSignoffMatrix";
    assert REVIEW_ARTIFACTS[11] == "phaseEvidenceIntake" && REVIEW_ARTIFACTS[13] == "phaseAttachmentInventory";
    assert REVIEW_ARTIFACTS[15] == "phaseWaiverRegister";
  }

  lemma {:induction false} SamePathSameEntry(
      env: Env, w: World, p: string, q: string, approvedP: bool, approvedQ: bool, name: string)
    requires ReviewValid(env, w, p, approvedP) && ReviewValid(env, w, q, approvedQ) && name in DOCUMENTS
    requires SamePath(Read(w.fs, env.json, p), Read(w.fs, env.json, q), name)
    ensures SameEntry(Read(w.fs, env.json, p), Read(w.fs, env.json, q), name)
  {
    hide At, HasFormat, IsTimestamp, ReviewFormats, ReviewLinks, ReviewState, SummaryValue, SummarizeForReview,
      ReviewApproved, TextAt, REVIEW_ARTIFACTS, DOCUMENTS, ArtifactPath, Artifact, ReadReviewed, IsDigest;
    Documents(name);
  }

  lemma {:induction false} SameFields(
      env: Env, w: World, p: string, q: string, approvedP: bool, approvedQ: bool)
    requires ReviewValid(env, w, p, approvedP) && ReviewValid(env, w, q, approvedQ)
    requires forall name | name in DOCUMENTS :: SamePath(Read(w.fs, env.json, p), Read(w.fs, env.json, q), name)
    ensures forall field | field in COMPARED ::
              At(Read(w.fs, env.json, p), [field]) == At(Read(w.fs, env.json, q), [field])
  {
    hide At, AllStamped, IsTimestamp, ReviewFormats, ReviewLinks, SummaryValue, SummarizeForReview, ReviewApproved,
      ArtifactPath;
    var m, n := Read(w.fs, env.json, p), Read(w.fs, env.json, q);
    assert SamePath(m, n, "phaseEvidenceManifest") && SamePath(m, n, "phaseGateValidation");
    assert SamePath(m, n, "phaseDecisionRecord") && SamePath(m, n, "phaseWaiverRegister");
    assert SamePath(m, n, "phaseActionRegister") && SamePath(m, n, "phaseGapMatrix");
    assert SamePath(m, n, "phaseSignoffMatrix") && SamePath(m, n, "phaseEvidenceIntake");
    assert SamePath(m, n, "phaseAttachmentInventory");
    assert ReadReviewed(env, w.fs, m) == ReadReviewed(env, w.fs, n);
  }

  /** The manifest of an accepted review counts the waivers of the register it lists: all of them, the proposed and
      the approved ones, and those whose expiry date has come. */
  lemma {:induction false} WaiversSummarized(env: Env, w: World, p: string, requireApproved: bool)
    requires ReviewValid(env, w, p, requireApproved)
    ensures var manifest := Read(w.fs, env.json, p);
            var register := Read(w.fs, env.register, ArtifactPath(manifest, "phaseWaiverRegister"));
            && register.Some?
            && var waivers := register.value.waivers;
               At(manifest, ["waiverSummary"]) == Some(Object(map[
                 "waiverCount" := Number(|waivers| as real),
                 "proposedCount" := Number(|WithStatus(waivers, "proposed")| as real),
                 "approvedCount" := Number(|WithStatus(waivers, "approved")| as real),
                 "expiredCount" := Number(|ExpiredAt(waivers, w.today)| as real)]))
  {
    hide At, AllStamped, HasFormat, IsTimestamp, ReviewFormats, ReviewLinks, ReviewState, SummarizeForReview,
      ReviewApproved, ArtifactPath, WithStatus, ExpiredAt;
    var register := Read(w.fs, env.register, ArtifactPath(Read(w.fs, env.json, p), "phaseWaiverRegister"));
    SummaryCounts(register.value.waivers, w.today);
  }

  // ---------------------------------------------------------------- one review, one closure

  const REPEATED := {
    "environment", "target", "ready", "validated", "decision", "blockerCount", "warningCount",
    "waiverSummary", "evidenceKeySummary", "commandCoverageSummary", "markdownCoverageSummary", "artifactCount"}

  predicate SameClosure(c: Option<Value>, d: Option<Value>) {
    var m, n := At(c, ["review", "manifest"]), At(d, ["review", "manifest"]);
    && (forall name | name in REPEATED :: At(c, ["review", name]) == At(d, ["review", name]))
    && At(m, ["bytes"]) == At(n, ["bytes"]) && At(m, ["sha256"]) == At(n, ["sha256"])
    && forall name | name in {"commit", "branch", "remote"} :: At(c, ["source", name]) == At(d, ["source", name])
  }

  predicate SameTree(c: Option<Value>, d: Option<Value>) {
    && At(c, ["source", "cleanTree"]) == At(d, ["source", "cleanTree"])
    && At(c, ["source", "statusPorcelain"]) == At(d, ["source", "statusPorcelain"])
  }

  /** The review manifest decides the closure archive: two closure manifests that are valid in one world and record
      the same review say the same about it, and name the same commit, branch and remote. */
  lemma {:induction false} ReviewDecidesClosure(
      env: Env, w: World, p: string, q: string, reviewP: Option<string>, reviewQ: Option<string>,
      cleanP: bool, cleanQ: bool, approvedP: bool, approvedQ: bool)
    requires ClosureValid(env, w, p, reviewP, cleanP, approvedP)
    requires ClosureValid(env, w, q, reviewQ, cleanQ, approvedQ)
    requires TextAt(At(Read(w.fs, env.json, p), ["review", "manifest"]), ["path"])
             == TextAt(At(Read(w.fs, env.json, q), ["review", "manifest"]), ["path"])
    ensures SameClosure(Read(w.fs, env.json, p), Read(w.fs, env.json, q))
    ensures cleanP && cleanQ ==> SameTree(Read(w.fs, env.json, p), Read(w.fs, env.json, q))
  {
    hide At, HasFormat, IsTimestamp, ReviewApproved, ArtifactPath, IsHex;
    var c, d := Read(w.fs, env.json, p), Read(w.fs, env.json, q);
    TextThere(At(c, ["review", "manifest"]), ["sha256"]);
    TextThere(At(d, ["review", "manifest"]), ["sha256"]);
    TextThere(c, ["source", "commit"]);
    TextThere(d, ["source", "commit"]);
    TextThere(c, ["source", "branch"]);
    TextThere(d, ["source", "branch"]);
    TextThere(c, ["source", "remote"]);
    TextThere(d, ["source", "remote"]);
  }

  /** The closure archive names every artifact of the review once, and nothing else. */
  lemma {:induction false} ArtifactsNamedOnce(
      env: Env, w: World, p: string, review: Option<string>, requireClean: bool, requireApproved: bool)
    requires ClosureValid(env, w, p, review, requireClean, requireApproved)
    ensures var c := Read(w.fs, env.json, p);
            var manifest := Read(w.fs, env.json, TextAt(At(c, ["review", "manifest"]), ["path"]));
            var names := At(c, ["review", "artifactNames"]);
            && names.Some? && names.value.List?
            && (forall i | 0 <= i < |names.value.items| ::
                  names.value.items[i].Str? && names.value.items[i].s in EvidenceChain.KeysOf(manifest, "artifacts"))
            && (forall n | n in EvidenceChain.KeysOf(manifest, "artifacts") :: Str(n) in names.value.items)
            && forall i, j | 0 <= i < j < |names.value.items| :: names.value.items[i] != names.value.items[j]
  {
    hide At, HasFormat, IsTimestamp, ReviewApproved, ArtifactPath, Stamped, ClosureReviewFields;
    var c := Read(w.fs, env.json, p);
    var manifest := Read(w.fs, env.json, TextAt(At(c, ["review", "manifest"]), ["path"]));
    AllOnce(At(c, ["review", "artifactNames"]).value.items, EvidenceChain.KeysOf(manifest, "artifacts"));
  }

  function ItemSet(items: seq<Value>): set<Value> {
    set v | v in items
  }

  function Strings(names: set<string>): set<Value> {
    set n | n in names :: Str(n)
  }

  lemma {:induction false} AllOnce(items: seq<Value>, names: set<string>)
    requires |items| == |names| && forall n | n in names :: Str(n) in items
    ensures forall i | 0 <= i < |items| :: items[i].Str? && items[i].s in names
    ensures forall i, j | 0 <= i < j < |items| :: items[i] != items[j]
  {
    StringsSize(names);
    assert Strings(names) <= ItemSet(items);
    Pigeonhole(items, Strings(names));
    assert forall i | 0 <= i < |items| :: items[i] in ItemSet(items);
  }

  lemma {:induction false} StringsSize(names: set<string>)
    ensures |Strings(names)| == |names|
  {
    if names != {} {
      var n :| n in names;
      StringsSize(names - {n});
      assert Strings(names) == Strings(names - {n}) + {Str(n)};
    }
  }

  /** A list that holds all of as many values holds each once, and no other. */
  lemma {:induction false} Pigeonhole(items: seq<Value>, values: set<Value>)
    requires values <= ItemSet(items) && |items| <= |values|
    ensures ItemSet(items) == values
    ensures forall i, j | 0 <= i < j < |items| :: items[i] != items[j]
    decreases |items|
  {
    if items != [] {
      var n := |items| - 1;
      var init, last := items[..n], items[n];
      assert items == init + [last];
      assert values - {last} <= ItemSet(init);
      if last in values {
        Pigeonhole(init, values - {last});
        assert last !in ItemSet(init);
        assert forall i | 0 <= i < n :: items[i] in ItemSet(init);
      } else {
        SetSize(init, values);
        assert false;
      }
    }
  }

  lemma {:induction false} SetSize(items: seq<Value>, values: set<Value>)
    requires values <= ItemSet(items)
    ensures |values| <= |items|
    decreases |items|
  {
    if items != [] {
      var n := |items| - 1;
      assert items == items[..n] + [items[n]];
      SetSize(items[..n], values - {items[n]});
    } else {
      assert values == {};
    }
  }

  // ---------------------------------------------------------------- the evidence pack and the workspace

  /** The readiness report and the workspace decide the evidence pack: two pack manifests that are valid over one
      file system agree on target and readiness when they list the same readiness report, and on the environment,
      the bundle's status and the deployment bundle when they list the same workspace manifest. */
  lemma {:induction false} PackDecided(env: Env, fs: FileSystem, p: string, q: string)
    requires EvidencePackValid(env, fs, p) && EvidencePackValid(env, fs, q)
    ensures var m, n := Read(fs, env.json, p), Read(fs, env.json, q);
            && (SamePath(m, n, "phaseReadiness") ==> forall field | field in {
                  "environment", "target", "bundleStatus", "ready"} :: At(m, [field]) == At(n, [field]))
            && (SamePath(m, n, "deploymentWorkspaceManifest") ==>
                  && At(m, ["environment"]) == At(n, ["environment"])
                  && At(m, ["bundleStatus"]) == At(n, ["bundleStatus"])
                  && SamePath(m, n, "deploymentBundle"))
            && (SamePath(m, n, "deploymentRedaction") ==> SamePath(m, n, "deploymentBundle"))
  {
    hide At, AllStamped, HasFormat, IsTimestamp, ArtifactPath;
  }

  /** The evidence files of a workspace are those of the bundle template, whatever the bundle; and two workspace
      manifests for one bundle in one directory record the same files with the same lengths and hashes. */
  lemma {:induction false} WorkspaceDecided(env: Env, fs: FileSystem, p: string, q: string, a: string, b: string)
    requires WorkspaceValid(env, fs, p, a) && WorkspaceValid(env, fs, q, b)
    ensures var m, n := Read(fs, env.json, p), Read(fs, env.json, q);
            var template := Read(fs, env.json, env.host.resolve("", TEMPLATE_PATH));
            && EvidenceNames(m) == EvidenceNames(template) && EvidenceNames(n) == EvidenceNames(template)
            && (a == b ==> forall field | field in {"environment", "status", "owner"} ::
                  At(m, [field]) == At(n, [field]))
            && (a == b && At(m, ["outputDir"]) == At(n, ["outputDir"]) ==>
                  forall name | name in EvidenceNames(template) ::
                    var x, y := At(m, ["evidence", name]), At(n, ["evidence", name]);
                    && WorkspacePath(env, m, x) == WorkspacePath(env, n, y)
                    && At(x, ["bytes"]) == At(y, ["bytes"]) && TextAt(x, ["sha256"]) == TextAt(y, ["sha256"]))
  {
    hide At, HasFormat, IsTimestamp, IsDigest;
  }
}
