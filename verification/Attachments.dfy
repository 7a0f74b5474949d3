/** The attachment inventory: what the intake expects, what was found on disk. */
module Attachments {
  import opened Wrappers
  import opened Files

  datatype Commands = Commands(scriptCount: nat, validatorCount: nat, scripts: seq<string>)

  datatype ExpectedFile = ExpectedFile(templatePath: string, evidenceKey: Option<string>, targetPath: string)

  datatype IntakeItem = IntakeItem(
    id: string, phase: string, title: string, ownerRole: string, blockerType: string, intakeDir: string,
    evidenceKeys: seq<string>, commandScripts: seq<string>, expectedFiles: seq<ExpectedFile>)

  datatype Intake = Intake(
    format: string, environment: string, owner: string, signoffMatrixPath: string, gapMatrixPath: string,
    commands: Commands, items: seq<IntakeItem>)

  datatype AttachedFile = AttachedFile(
    templatePath: string, evidenceKey: Option<string>, targetPath: string, resolvedPath: string,
    status: string, bytes: nat, sha256: Option<string>, findings: seq<Finding>)

  datatype Counts = Counts(expected: nat, attached: nat, missing: nat, findings: nat)

  datatype Attachment = Attachment(
    id: string, phase: string, title: string, ownerRole: string, blockerType: string, intakeDir: string,
    evidenceKeys: seq<string>, commandScripts: seq<string>, counts: Counts, files: seq<AttachedFile>)

  datatype Inventory = Inventory(
    format: string, generatedAt: string, evidenceDir: string, intakePath: string,
    environment: string, owner: string, intakeCount: nat, totals: Counts, commands: Commands,
    attachments: seq<Attachment>)

  const INTAKE_FORMAT := "sentinel-phase-evidence-intake-v1"
  const INVENTORY_FORMAT := "sentinel-phase-attachment-inventory-v1"

  // ---------------------------------------------------------------- counting

  function FindingCount(files: seq<AttachedFile>): nat {
    if files == [] then 0 else |files[0].findings| + FindingCount(files[1..])
  }

  function MissingCount(files: seq<AttachedFile>): (n: nat)
    ensures n <= |files|
  {
    if files == [] then 0 else (if files[0].status == "missing" then 1 else 0) + MissingCount(files[1..])
  }

  function Tally(files: seq<AttachedFile>): Counts {
    Counts(|files|, |files| - MissingCount(files), MissingCount(files), FindingCount(files))
  }

  function Total(attachments: seq<Attachment>): Counts {
    if attachments == [] then Counts(0, 0, 0, 0)
    else
      var first, rest := attachments[0].counts, Total(attachments[1..]);
      Counts(first.expected + rest.expected, first.attached + rest.attached,
             first.missing + rest.missing, first.findings + rest.findings)
  }

  // ---------------------------------------------------------------- the generator

  function Inspect(host: Host, fs: FileSystem, evidenceDir: string, expected: ExpectedFile): AttachedFile {
    var path := host.resolve(evidenceDir, expected.targetPath);
    if path !in fs then
      AttachedFile(expected.templatePath, NonEmpty(expected.evidenceKey), expected.targetPath, path, "missing", 0,
          None, [])
    else
      var findings := host.scan(fs[path]);
      AttachedFile(
        expected.templatePath, NonEmpty(expected.evidenceKey), expected.targetPath, path,
        if |findings| > 0 then "redaction-review-required" else "attached",
        |fs[path]|, Some(host.sha256(fs[path])), findings)
  }

  function InspectAll(host: Host, fs: FileSystem, dir: string, expected: seq<ExpectedFile>): (files: seq<AttachedFile>)
    ensures |files| == |expected|
    ensures forall i | 0 <= i < |files| :: files[i] == Inspect(host, fs, dir, expected[i])
  {
    if expected == [] then [] else [Inspect(host, fs, dir, expected[0])] + InspectAll(host, fs, dir, expected[1..])
  }

  function Attach(host: Host, fs: FileSystem, dir: string, item: IntakeItem): Attachment {
    var files := InspectAll(host, fs, dir, item.expectedFiles);
    Attachment(
      item.id, item.phase, item.title, item.ownerRole, item.blockerType, item.intakeDir,
      item.evidenceKeys, item.commandScripts, Tally(files), files)
  }

  function AttachAll(host: Host, fs: FileSystem, dir: string, items: seq<IntakeItem>): (attachments: seq<Attachment>)
    ensures |attachments| == |items|
    ensures forall i | 0 <= i < |items| :: attachments[i] == Attach(host, fs, dir, items[i])
  {
    if items == [] then [] else [Attach(host, fs, dir, items[0])] + AttachAll(host, fs, dir, items[1..])
  }

  function PrepareInventory(
    host: Host, fs: FileSystem, dir: string, intakePath: string, intake: Intake, generatedAt: string): Inventory
  {
    var attachments := AttachAll(host, fs, dir, intake.items);
    Inventory(INVENTORY_FORMAT, generatedAt, dir, intakePath, intake.environment, intake.owner,
              |attachments|, Total(attachments), intake.commands, attachments)
  }

  // ---------------------------------------------------------------- the validator

  predicate FileValid(host: Host, fs: FileSystem, dir: string, file: AttachedFile, expected: ExpectedFile) {
    && file.evidenceKey == NonEmpty(expected.evidenceKey)
    && file.templatePath == expected.templatePath
    && file.targetPath == expected.targetPath
    && file.resolvedPath == host.resolve(dir, expected.targetPath)
    && file.status in {"attached", "missing", "redaction-review-required"}
    && if file.resolvedPath in fs then
         && file.status != "missing"
         && file.sha256.Some?
         && Matches(host, fs, file.resolvedPath, file.bytes, file.sha256.value)
       else
         file.status == "missing" && file.bytes == 0 && file.sha256 == None
  }

  predicate AttachmentValid(host: Host, fs: FileSystem, dir: string, a: Attachment, item: IntakeItem) {
    && a.id == item.id && a.phase == item.phase && a.title == item.title && a.ownerRole == item.ownerRole
    && a.blockerType == item.blockerType && a.intakeDir == item.intakeDir
    && a.evidenceKeys == item.evidenceKeys && a.commandScripts == item.commandScripts
    && |a.files| == |item.expectedFiles|
    && a.counts == Tally(a.files)
    && forall j | 0 <= j < |a.files| :: FileValid(host, fs, dir, a.files[j], item.expectedFiles[j])
  }

  predicate InventoryValid(
    host: Host, fs: FileSystem, inventory: Inventory, intake: Intake, intakePath: string,
    requireComplete: bool, requireRedacted: bool)
  {
    && inventory.format == INVENTORY_FORMAT && IsTimestamp(host, inventory.generatedAt)
    && intake.format == INTAKE_FORMAT && inventory.intakePath == intakePath
    && inventory.environment == intake.environment && inventory.owner == intake.owner
    && |inventory.attachments| == |intake.items|
    && inventory.intakeCount == |inventory.attachments|
    && inventory.totals == Total(inventory.attachments)
    && inventory.commands == intake.commands
    && (forall i | 0 <= i < |intake.items| ::
          AttachmentValid(host, fs, inventory.evidenceDir, inventory.attachments[i], intake.items[i]))
    && (requireComplete ==> inventory.totals.missing == 0)
    && (requireRedacted ==> inventory.totals.findings == 0)
  }

  /** The prepared inventory is accepted while the files stay as they were, and the two strict modes
      ask exactly that no expected file is missing and that no file has a finding. */
  lemma {:induction false} PreparedInventoryValid(
      host: Host, fs: FileSystem, dir: string, intakePath: string, intake: Intake, generatedAt: string,
      requireComplete: bool, requireRedacted: bool)
    requires intake.format == INTAKE_FORMAT && IsTimestamp(host, generatedAt)
    ensures var inventory := PrepareInventory(host, fs, dir, intakePath, intake, generatedAt);
            InventoryValid(host, fs, inventory, intake, intakePath, requireComplete, requireRedacted) <==>
            && (requireComplete ==> forall i, j | 0 <= i < |intake.items| && 0 <= j < |intake.items[i].expectedFiles| ::
                  host.resolve(dir, intake.items[i].expectedFiles[j].targetPath) in fs)
            && (requireRedacted ==> forall i, j | 0 <= i < |intake.items| && 0 <= j < |intake.items[i].expectedFiles| ::
                  var path := host.resolve(dir, intake.items[i].expectedFiles[j].targetPath);
                  path in fs ==> host.scan(fs[path]) == [])
  {
    hide InventoryValid, PrepareInventory;
    PreparedMatches(host, fs, dir, intakePath, intake, generatedAt, requireComplete, requireRedacted);
    PreparedTotals(host, fs, dir, intake.items);
  }

  lemma {:induction false} PreparedMatches(
      host: Host, fs: FileSystem, dir: string, intakePath: string, intake: Intake, generatedAt: string,
      requireComplete: bool, requireRedacted: bool)
    requires intake.format == INTAKE_FORMAT && IsTimestamp(host, generatedAt)
    ensures var inventory := PrepareInventory(host, fs, dir, intakePath, intake, generatedAt);
            var totals := Total(AttachAll(host, fs, dir, intake.items));
            InventoryValid(host, fs, inventory, intake, intakePath, requireComplete, requireRedacted) <==>
            (requireComplete ==> totals.missing == 0) && (requireRedacted ==> totals.findings == 0)
  {
    hide INVENTORY_FORMAT, INTAKE_FORMAT, IsTimestamp, Total, AttachmentValid;
    var attachments := AttachAll(host, fs, dir, intake.items);
    forall i | 0 <= i < |intake.items|
      ensures AttachmentValid(host, fs, dir, attachments[i], intake.items[i])
    {
      AttachValid(host, fs, dir, intake.items[i]);
    }
  }

  lemma {:induction false} AttachValid(host: Host, fs: FileSystem, dir: string, item: IntakeItem)
    ensures AttachmentValid(host, fs, dir, Attach(host, fs, dir, item), item)
  {
    hide Tally;
    var files := InspectAll(host, fs, dir, item.expectedFiles);
    assert forall j | 0 <= j < |files| :: FileValid(host, fs, dir, files[j], item.expectedFiles[j]);
  }

  lemma {:induction false} PreparedTotals(host: Host, fs: FileSystem, dir: string, items: seq<IntakeItem>)
    ensures var totals := Total(AttachAll(host, fs, dir, items));
            && (totals.missing == 0 <==> forall i, j | 0 <= i < |items| && 0 <= j < |items[i].expectedFiles| ::
                  host.resolve(dir, items[i].expectedFiles[j].targetPath) in fs)
            && (totals.findings == 0 <==> forall i, j | 0 <= i < |items| && 0 <= j < |items[i].expectedFiles| ::
                  var path := host.resolve(dir, items[i].expectedFiles[j].targetPath);
                  path in fs ==> host.scan(fs[path]) == [])
  {
    hide Total, Tally;
    var attachments := AttachAll(host, fs, dir, items);
    TotalsZero(attachments);
    forall i, j | 0 <= i < |items| && 0 <= j < |items[i].expectedFiles|
      ensures attachments[i].files[j] == Inspect(host, fs, dir, items[i].expectedFiles[j])
    {
      assert attachments[i] == Attach(host, fs, dir, items[i]);
    }
  }

  /** A total is zero exactly when no single file contributes to it. */
  lemma {:induction false} TotalsZero(attachments: seq<Attachment>)
    requires forall i | 0 <= i < |attachments| :: attachments[i].counts == Tally(attachments[i].files)
    ensures Total(attachments).missing == 0 <==>
            forall i, j | 0 <= i < |attachments|
                && 0 <= j < |attachments[i].files| :: attachments[i].files[j].status != "missing"
    ensures Total(attachments).findings == 0 <==>
            forall i, j | 0 <= i < |attachments|
                && 0 <= j < |attachments[i].files| :: attachments[i].files[j].findings == []
  {
    if attachments != [] {
      TotalsZero(attachments[1..]);
      TallyZero(attachments[0].files);
      assert forall i | 0 <= i < |attachments| - 1 :: attachments[i + 1] == attachments[1..][i];
      assert forall i | 1 <= i < |attachments| :: attachments[i] == attachments[1..][i - 1];
    }
  }

  lemma {:induction false} TallyZero(files: seq<AttachedFile>)
    ensures MissingCount(files) == 0 <==> forall j | 0 <= j < |files| :: files[j].status != "missing"
    ensures FindingCount(files) == 0 <==> forall j | 0 <= j < |files| :: files[j].findings == []
  {
    if files != [] {
      TallyZero(files[1..]);
      assert forall j | 1 <= j < |files| :: files[j] == files[1..][j - 1];
      assert forall j | 0 <= j < |files| - 1 :: files[j + 1] == files[1..][j];
    }
  }

  // ---------------------------------------------------------------- what the counts mean

  /** All files of an inventory, one attachment after the other. */
  function AllFiles(attachments: seq<Attachment>): seq<AttachedFile> {
    if attachments == [] then [] else attachments[0].files + AllFiles(attachments[1..])
  }

  /** Counts are additive, and one file counts for itself: as missing or as attached, with its findings. */
  lemma {:induction false} TallyAppend(a: seq<AttachedFile>, b: seq<AttachedFile>, f: AttachedFile)
    ensures Tally([]) == Counts(0, 0, 0, 0)
    ensures Tally([f]).expected == 1 && Tally([f]).findings == |f.findings|
    ensures if f.status == "missing" then Tally([f]).missing == 1 && Tally([f]).attached == 0
            else Tally([f]).missing == 0 && Tally([f]).attached == 1
    ensures var x, y, both := Tally(a), Tally(b), Tally(a + b);
            && both.expected == x.expected + y.expected && both.attached == x.attached + y.attached
            && both.missing == x.missing + y.missing && both.findings == x.findings + y.findings
  {
    assert [f][1..] == [];
    if a == [] {
      assert a + b == b;
    } else {
      assert (a + b)[1..] == a[1..] + b;
      TallyAppend(a[1..], b, f);
    }
  }

  /** The totals of an accepted inventory are the counts of all its files taken together. */
  lemma {:induction false} TotalsOfAllFiles(attachments: seq<Attachment>)
    requires forall i | 0 <= i < |attachments| :: attachments[i].counts == Tally(attachments[i].files)
    ensures Total(attachments) == Tally(AllFiles(attachments))
  {
    if attachments != [] {
      TotalsOfAllFiles(attachments[1..]);
      var any := AttachedFile("", None, "", "", "", 0, None, []);
      TallyAppend(attachments[0].files, AllFiles(attachments[1..]), any);
    }
  }

  // ---------------------------------------------------------------- the validator against the generator

  /** A recorded file apart from what the scan of its text said. */
  function WithoutScan(file: AttachedFile): AttachedFile {
    file.(status := if file.status == "missing" then "missing" else "attached", findings := [])
  }

  function AttachmentWithoutScan(a: Attachment): Attachment {
    a.(counts := a.counts.(findings := 0),
       files := seq(|a.files|, j requires 0 <= j < |a.files| => WithoutScan(a.files[j])))
  }

  function Stripped(attachments: seq<Attachment>): (r: seq<Attachment>)
    ensures |r| == |attachments|
  {
    seq(|attachments|, i requires 0 <= i < |attachments| => AttachmentWithoutScan(attachments[i]))
  }

  function WithoutScans(inventory: Inventory): Inventory {
    inventory.(totals := inventory.totals.(findings := 0), attachments := Stripped(inventory.attachments))
  }

  const STATES := {"attached", "missing", "redaction-review-required"}

  predicate FindingsCounted(a: Attachment) {
    && a.counts.findings == Tally(a.files).findings
    && forall j | 0 <= j < |a.files| :: a.files[j].status in STATES
  }

  /** What is left to the record: which of three states each file is in, and its findings, which are counted. */
  predicate ScansCounted(inventory: Inventory) {
    && inventory.totals.findings == Tally(AllFiles(inventory.attachments)).findings
    && forall i | 0 <= i < |inventory.attachments| :: FindingsCounted(inventory.attachments[i])
  }

  lemma {:induction false} FileExactly(
      host: Host, fs: FileSystem, dir: string, file: AttachedFile, expected: ExpectedFile)
    ensures FileValid(host, fs, dir, file, expected) <==>
            && file.status in STATES
            && WithoutScan(file) == WithoutScan(Inspect(host, fs, dir, expected))
  {
  }

  lemma {:induction false} MissingAlike(a: seq<AttachedFile>, b: seq<AttachedFile>)
    requires |a| == |b| && forall j | 0 <= j < |a| :: a[j].status == "missing" <==> b[j].status == "missing"
    ensures MissingCount(a) == MissingCount(b)
  {
    if a != [] {
      MissingAlike(a[1..], b[1..]);
    }
  }

  /** Files that agree apart from the scans have the same tally apart from the findings. */
  lemma {:induction false} TalliesAlike(a: seq<AttachedFile>, b: seq<AttachedFile>)
    requires |a| == |b| && forall j | 0 <= j < |a| :: WithoutScan(a[j]) == WithoutScan(b[j])
    ensures Tally(a).(findings := 0) == Tally(b).(findings := 0)
  {
    forall j | 0 <= j < |a|
      ensures a[j].status == "missing" <==> b[j].status == "missing"
    {
      assert WithoutScan(a[j]).status == WithoutScan(b[j]).status;
    }
    MissingAlike(a, b);
  }

  lemma {:induction false} FilesExactly(
      host: Host, fs: FileSystem, dir: string, files: seq<AttachedFile>, expected: seq<ExpectedFile>)
    requires |files| == |expected|
    ensures (forall j | 0 <= j < |files| :: FileValid(host, fs, dir, files[j], expected[j])) <==>
            && (forall j | 0 <= j < |files| :: files[j].status in STATES)
            && forall j | 0 <= j < |files| :: WithoutScan(files[j]) == WithoutScan(Inspect(host, fs, dir, expected[j]))
  {
    hide FileValid, WithoutScan, Inspect, STATES;
    forall j | 0 <= j < |files|
      ensures FileValid(host, fs, dir, files[j], expected[j]) <==>
              && files[j].status in STATES
              && WithoutScan(files[j]) == WithoutScan(Inspect(host, fs, dir, expected[j]))
    {
      FileExactly(host, fs, dir, files[j], expected[j]);
    }
  }

  lemma {:induction false} FilesAlike(a: Attachment, b: Attachment)
    ensures AttachmentWithoutScan(a).files == AttachmentWithoutScan(b).files <==>
            && |a.files| == |b.files|
            && forall j | 0 <= j < |a.files| :: WithoutScan(a.files[j]) == WithoutScan(b.files[j])
  {
    hide WithoutScan;
    var x, y := AttachmentWithoutScan(a).files, AttachmentWithoutScan(b).files;
    assert |x| == |a.files| && |y| == |b.files|;
    assert forall j | 0 <= j < |x| :: x[j] == WithoutScan(a.files[j]);
    assert forall j | 0 <= j < |y| :: y[j] == WithoutScan(b.files[j]);
  }

  lemma {:induction false} AttachmentExactly(
      host: Host, fs: FileSystem, dir: string, a: Attachment, item: IntakeItem)
    ensures AttachmentValid(host, fs, dir, a, item) <==>
            && AttachmentWithoutScan(a) == AttachmentWithoutScan(Attach(host, fs, dir, item))
            && FindingsCounted(a)
  {
    hide FileValid, Inspect, InspectAll, WithoutScan, Tally, STATES;
    var b := Attach(host, fs, dir, item);
    FilesAlike(a, b);
    if |a.files| == |item.expectedFiles| {
      FilesExactly(host, fs, dir, a.files, item.expectedFiles);
      if forall j | 0 <= j < |a.files| :: WithoutScan(a.files[j]) == WithoutScan(b.files[j]) {
        TalliesAlike(a.files, b.files);
      }
    }
  }

  lemma {:induction false} AttachmentsExactly(
      host: Host, fs: FileSystem, dir: string, attachments: seq<Attachment>, items: seq<IntakeItem>)
    requires |attachments| == |items|
    ensures (forall i | 0 <= i < |items| :: AttachmentValid(host, fs, dir, attachments[i], items[i])) <==>
            && Stripped(attachments) == Stripped(AttachAll(host, fs, dir, items))
            && forall i | 0 <= i < |items| :: FindingsCounted(attachments[i])
  {
    hide AttachmentValid, AttachmentWithoutScan, Attach, Tally, STATES;
    var prepared := AttachAll(host, fs, dir, items);
    var x, y := Stripped(attachments), Stripped(prepared);
    assert x == y <==> forall i | 0 <= i < |items| ::
             AttachmentWithoutScan(attachments[i]) == AttachmentWithoutScan(prepared[i]) by {
      assert forall i | 0 <= i < |items| :: x[i] == AttachmentWithoutScan(attachments[i]);
      assert forall i | 0 <= i < |items| :: y[i] == AttachmentWithoutScan(prepared[i]);
    }
    forall i | 0 <= i < |items|
      ensures AttachmentValid(host, fs, dir, attachments[i], items[i]) <==>
              AttachmentWithoutScan(attachments[i]) == AttachmentWithoutScan(prepared[i])
              && FindingsCounted(attachments[i])
    {
      AttachmentExactly(host, fs, dir, attachments[i], items[i]);
    }
  }

  lemma {:induction false} TotalsAlike(a: seq<Attachment>, b: seq<Attachment>)
    requires Stripped(a) == Stripped(b)
    ensures Total(a).(findings := 0) == Total(b).(findings := 0)
  {
    assert |a| == |Stripped(a)| == |Stripped(b)| == |b|;
    if a != [] {
      assert Stripped(a)[0].counts == Stripped(b)[0].counts;
      assert Stripped(a)[1..] == Stripped(a[1..]) && Stripped(b)[1..] == Stripped(b[1..]);
      TotalsAlike(a[1..], b[1..]);
    }
  }

  /** The validator accepts exactly the inventories that the generator would write now, with the same output
      directory and time, apart from the outcome of the scans: it does not scan the files again. */
  lemma {:induction false} InventoryExactly(
      host: Host, fs: FileSystem, inventory: Inventory, intake: Intake, intakePath: string)
    ensures InventoryValid(host, fs, inventory, intake, intakePath, false, false) <==>
            && intake.format == "sentinel-phase-evidence-intake-v1"
            && inventory.format == "sentinel-phase-attachment-inventory-v1" && IsTimestamp(host, inventory.generatedAt)
            && ScansCounted(inventory)
            && WithoutScans(inventory) == WithoutScans(
                 PrepareInventory(host, fs, inventory.evidenceDir, intakePath, intake, inventory.generatedAt))
  {
    hide IsTimestamp, Total, Tally, AttachmentValid, AllFiles, Stripped, FindingsCounted, AttachAll;
    var prepared := PrepareInventory(host, fs, inventory.evidenceDir, intakePath, intake, inventory.generatedAt);
    assert |Stripped(inventory.attachments)| == |inventory.attachments|;
    assert |Stripped(prepared.attachments)| == |prepared.attachments| == |intake.items|;
    if |inventory.attachments| == |intake.items| {
      AttachmentsExactly(host, fs, inventory.evidenceDir, inventory.attachments, intake.items);
      if && Stripped(inventory.attachments) == Stripped(prepared.attachments)
         && forall i | 0 <= i < |intake.items| :: FindingsCounted(inventory.attachments[i])
      {
        TotalsAlike(inventory.attachments, prepared.attachments);
        forall i | 0 <= i < |intake.items|
          ensures inventory.attachments[i].counts == Tally(inventory.attachments[i].files)
        {
          AttachmentTallied(host, fs, inventory.evidenceDir, inventory.attachments[i], intake.items[i]);
        }
        TotalsOfAllFiles(inventory.attachments);
      }
    }
  }

  lemma {:induction false} AttachmentTallied(
      host: Host, fs: FileSystem, dir: string, a: Attachment, item: IntakeItem)
    requires AttachmentValid(host, fs, dir, a, item)
    ensures a.counts == Tally(a.files)
  {
    hide FileValid, Tally;
  }

  /** Preparing and validating: every prepared file is missing, attached or to be reviewed exactly when there is
      no such file, a file without a finding, or a file with one; and it lists the findings of the text there. */
  lemma {:induction false} PreparedStates(
      host: Host, fs: FileSystem, dir: string, intakePath: string, intake: Intake, generatedAt: string, i: nat, j: nat)
    requires i < |intake.items| && j < |intake.items[i].expectedFiles|
    ensures var prepared := PrepareInventory(host, fs, dir, intakePath, intake, generatedAt);
            var path := host.resolve(dir, intake.items[i].expectedFiles[j].targetPath);
            && i < |prepared.attachments| && j < |prepared.attachments[i].files|
            && var file := prepared.attachments[i].files[j];
               && (file.status == "missing" <==> path !in fs)
               && (file.status == "attached" <==> path in fs && host.scan(fs[path]) == [])
               && (file.status == "redaction-review-required" <==> path in fs && host.scan(fs[path]) != [])
               && file.findings == if path in fs then host.scan(fs[path]) else []
  {
    hide Total;
  }
}
