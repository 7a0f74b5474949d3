# Sentinel Vault: a verified model of its import, migration and release evidence scripts

This project models the scripts with which Sentinel Vault moves data and decides whether a release may go
ahead, and proves what they promise each other. The server, the browser extension and the console are not
modelled. `dafny verify dfyconfig.toml` checks everything.

## What is modelled

**Import (Text, CsvParser, CsvGrammar, CsvPrinter, Converter, VendorExports, ColumnMaps, ImportValidator,
Reconversion, BulkImport).** Three scripts contain the same hand-written CSV state machine. It is a method
here, with the source's three accumulators and its lookahead, proved equal to an independent specification
in two stages: cut the text into tokens, then fold the tokens from the right into records. On every text the
tokens partition the input, and the cells spell it with the structural characters erased. On every
derivation of the grammar in section 2 of RFC 4180, extended with lone LF and lone CR as line breaks, the
machine returns the non-blank records the derivation denotes; a derivation whose line break is a lone CR
followed by a line that is empty and ends in LF is included. Printing and reading back is characterised
exactly, and from it follow: what the four password-manager exports become, what any export becomes under
any column map and in any built-in format, when the import validator accepts a file and what it then
reports, that converting the file again changes no byte, and that the bulk importer reads the same entries.

**Migration (Json, Readiness, StateNormalization, SqliteMigration, MigratedData).** States are JSON values.
The database is an object with committed and working tables, and a budget of statements after which its
storage fails, so that a failure can strike anywhere. The contracts of its methods say exactly when the
migration commits and what the tables hold then; the lemmas say what that means for rows, references and the
three scripts' readiness checks.

**Evidence documents (Files, Keys, Counting, Redaction, Attachments, Waivers, Expiry, WaiverRegister,
Signoffs, SignoffRecords).** Each document has a generator and a validator. The generators' and validators' loops are
methods proved against functions on the documents; the lemmas say when a generated document is accepted,
which documents besides the generated ones are accepted, and what an accepted one means.

**The evidence chain (EvidenceChain, ReviewChain, ReleaseGate, GateVerdict, ArchiveClaims, TamperEvidence,
ReleaseSafety, ReleaseFamily, ReadyRelease).** Files are bytes under paths. Hashing, path resolution, date
parsing and JSON parsing are functions of the environment. The validators call each other as the scripts do:
release archive, closure archive, saved gate report, release gate with its nineteen checks, review bundle,
evidence pack, workspace manifest. The main results are when exactly the gate is ready and what exactly each
blocker stands for, that everything a release archive says is so, that it pins the files below it and the
commit it is for, that the waiver register decides every other document of a review, and what a ready gate
promises about every expected file. ReleaseFamily describes releases for any hash, date parser and secret
rules, any file contents, any evidence names, actions, gap phases and intake items of which the actions are
complete and no artifact is missing, any further fields in the documents and any place of the reviewed
waiver register; every document is a file of its own, and a file that one reader finds a document in has
that document's format for every reader. ReadyRelease proves that all of them are ready, and from that
exactly when a ready gate guarantees references.

**Two smaller parts (PasswordGenerator; StatusReport, BundleVerdict, ConnectorEvidence).** The password
generator's class counts; when exactly a deployment bundle is accepted and its status report ready, when the
report means acceptance, and an edit of the connector's evidence file after which it does not.

## What the model found

- A converted Bitwarden export with a login is refused by validate-normalized-import: the converter keeps the
  type `login` that Bitwarden writes, and the validator's list of types does not contain it
  (`VendorExports.BitwardenLoginRefused`).
- The waiver register validator accepts an approved waiver whose approval reference and compensating
  control are absent or empty; the review and closure checks refuse it
  (`WaiverRegister.ReferencesMayBeMissing`, `WaiverRegister.ApprovalsCompared`). A review bundle may list
  another register than the one the gate checks. For every path the gate reads no other document from, the
  ready gates whose review lists the register at that path all have references if and only if it is the path
  of the gate's own register (`ReadyRelease.ReferencesGuaranteedExactly`).
- The decision record validator does not compare how many pending actions are listed, so an accepted record
  may leave pending actions out (`Signoffs.PendingActionUnlisted`, and `Signoffs.PendingListExactly` for the
  exact condition).
- The storage inspector and the Postgres planner stop at a null vault, which the migrator accepts because
  it spreads the vault into an object first; this is their only disagreement
  (`StateNormalization.ReadinessAgrees`, `StateNormalization.NullVaultDisagrees`).
- When the checkpoint after COMMIT fails, the migration reports failure although the data is committed
  (`SqliteMigration.Database.Migrate`).
- An element with an empty id is stored under its content hash, so a reference to the empty id passes the
  orphan checks but names no row (`MigratedData.EmptyIdDangles`, and `MigratedData.ReferenceResolves` for the
  exact condition).
- The status report and the bundle validator read an evidence file's status from different fields first. When
  the connector's file is set back to the status `pilot` and names `certified` as its release status, its own
  validator still accepts it and every ready report stays ready, but the bundle validator refuses
  (`ConnectorEvidence.PromotedIsRefused`, `ConnectorEvidence.ReadyReportMayBeRefused`, and
  `StatusReport.ReadyReportAccepted` for the exact condition).

## Model

| member | source | states |
|---|---|---|
| CsvParser.ParseCsvRows | scripts/validate-normalized-import.mjs:32-61 | The one-pass loop with its three accumulators terminates on every text and returns the non-blank records of the two-stage specification. |
| CsvParser.Conservation | scripts/validate-normalized-import.mjs:37-58 | On every text, malformed or not, the tokens partition the input and the cells, concatenated in order, spell it with exactly the structural quotes, commas and line breaks erased. |
| CsvGrammar.ParserCorrect | scripts/convert-source-export.mjs:25-53 | For every derivation of the RFC 4180 grammar, with CRLF, LF and CR breaks in any mix, optional final break and unnecessary quotes, parsing the rendered text gives the non-blank records the derivation denotes. |
| CsvPrinter.PrintThenParse | scripts/convert-source-export.mjs:58-61 | Escaping, joining, ending with a newline and parsing loses the records without a non-blank cell and nothing else, whatever characters the cells hold. |
| CsvPrinter.RoundTrip | scripts/convert-source-export.mjs:177-181 | Printing then parsing is the identity if and only if every record has a non-blank cell. |
| CsvPrinter.RecordKept | scripts/validate-normalized-import.mjs:51-59 | A record that is printed and read back is kept if and only if one of its cells holds a character that is not white space. |
| CsvPrinter.FilesAppend | scripts/validate-normalized-import.mjs:32-61 | Two printed files one after the other are read as the records of the first, then those of the second. |
| Text.TrimExact | scripts/validate-normalized-import.mjs:51 | Trimming removes exactly the white space at both ends: what is taken away is white space, and what is left has none at its ends. |
| Text.BlankExactly | scripts/validate-normalized-import.mjs:51 | A text trims to nothing if and only if all its characters are white space. |
| Text.SpaceTable | scripts/validate-normalized-import.mjs:51 | The characters taken for white space are exactly those the ECMAScript standard lists. |
| Converter.First | scripts/convert-source-export.mjs:68-73 | The early-return loop yields the trimmed cell of the first filled column, and nothing exactly when no named column is filled. |
| Converter.AdaptersYieldEntries | scripts/convert-source-export.mjs:104-165 | Every adapter gives a type, a risk and tags free of separators and spaces around them; the built-in adapters give trimmed fields. |
| Converter.ConvertedEntries | scripts/convert-source-export.mjs:167-181 | A successful conversion has only complete, well-formed entries, and its file is the printed form of those entries. |
| VendorExports.VendorExportConverts | scripts/convert-source-export.mjs:115-164 | An export with the columns the converter reads of Bitwarden, Dashlane, LastPass or 1Password, in any order and among any others it does not prefer, with any texts in its cells, converts to the same logins in the same order: fields trimmed, folders, labels and favourites as tags, and nothing of any other column. |
| VendorExports.PlainExport | scripts/convert-source-export.mjs:115-164 | The columns read of each vendor, alone and in their usual order, are such an export. |
| VendorExports.VendorExportImports | scripts/validate-normalized-import.mjs:29-83 | The converted export is accepted by the import validator if and only if the vault id is not blank and every type a Bitwarden export gives is an allowed one. |
| VendorExports.BitwardenLoginRefused | scripts/validate-normalized-import.mjs:29 | A converted Bitwarden export in which a login has the type `login` is refused by the import validator. |
| ColumnMaps.ExportConverts | scripts/convert-source-export.mjs:68-181 | For every format and every column map, with any headers, cells and order: conversion succeeds if and only if no record with content names something without being complete, and the entries are then, in order, what the map or format reads of the records that name something, each field the trimmed text of the first filled column or the constant. |
| ColumnMaps.AdaptReads | scripts/convert-source-export.mjs:104-165 | Every built-in format reads a record as a column map of its own does, with one more tag for a favourite. |
| ColumnMaps.ImportMapIsImportFormat | scripts/convert-source-export.mjs:104-150 | The column map of each import header to itself converts every file exactly as the import format does. |
| ColumnMaps.TagsAppend | scripts/convert-source-export.mjs:63-66 | The tags of several values are those of each, one after the other. |
| ColumnMaps.TagsOfText | scripts/convert-source-export.mjs:63-66 | A semicolon or a comma ends a tag; a text without one is one trimmed tag, or none when it is blank. |
| ImportValidator.TagsSurvive | scripts/validate-normalized-import.mjs:116 | Splitting the joined tags gives the tags back, and only the empty list joins to the empty text. |
| ImportValidator.ValidateExactly | scripts/validate-normalized-import.mjs:66-118 | Any file is accepted if and only if its first record is the nine headers, another follows, every other record has nine acceptable cells, and the counts are the expected ones; the report has one entry per record, in order, with its cells and the password only as its hash. |
| ImportValidator.ValidatedVaults | scripts/validate-normalized-import.mjs:66-118 | The report names exactly the vault ids that occur in the file. |
| ImportValidator.ConverterOutputAccepted | scripts/validate-normalized-import.mjs:66-118 | Every file the converter writes is accepted if and only if it has an entry, the vault id is not blank, types, risks, names and user names are allowed, and the expected counts are the converted count; the redacted entries then equal the converted ones field by field, in order. |
| ImportValidator.BuiltInOutputAccepted | scripts/validate-normalized-import.mjs:73-97 | For the built-in formats only an empty result, the vault id, the types and the risks can lead to refusal. |
| Reconversion.ReconversionStable | scripts/convert-source-export.mjs:104-114 | Converting the output again as sentinel-csv gives the same entries and the same bytes when all fields are trimmed, which the built-in formats guarantee; for a vault id that is not blank, an untrimmed field always changes the bytes. |
| BulkImport.BulkImportPreserves | scripts/prepare-bulk-secret-import.mjs:54-86 | With an identity field map and the `;` separator, preparing the converter's file succeeds if and only if there is an entry, and yields the same vault and the same entries in the same order, provided the risk map keeps the risks that occur. |
| BulkImport.PrepareExactly | scripts/prepare-bulk-secret-import.mjs:54-86 | For every mapping and every file, preparing succeeds if and only if there is a record with content and all are complete and for one vault; the items are then the records in order, each field the cell of the column the map names for it, the risk the mapped one. |
| Readiness.FillCollections | scripts/inspect-storage-state.mjs:31-38 | The loop replaces exactly the required collections that are not lists by empty lists, leaves everything else, and names exactly those it replaced. |
| Readiness.PassesExactly | scripts/plan-postgres-migration.mjs:52-81 | All six checks pass if and only if the rows meet the stated conditions on payloads, vaults and members and no vault is null. |
| Readiness.ChecksExactly | scripts/plan-postgres-migration.mjs:52-81 | On lists the checks stop if and only if there is a null, or a vault whose members are not a list; otherwise each of the six says, row by row, what it is named after. |
| StateNormalization.NoSeedRows | scripts/migrate-json-to-sqlite.mjs:42-76 | A state that passes the checks is persisted with its own rows in all ten required collections; a vault changes at most in its tenant. |
| StateNormalization.NormalizeIdempotent | scripts/migrate-json-to-sqlite.mjs:42-64 | Normalizing a normalized state changes nothing, even against a second seed with the same properties. |
| StateNormalization.PersistedExactly | scripts/migrate-json-to-sqlite.mjs:42-76 | The persisted state property by property: no sessions and login failures, the migration's metadata, the state's policies over the seed's, a list of vaults, the other nine collections the state's or else the seed's, anything else as it was. |
| StateNormalization.TenantsOfVaults | scripts/migrate-json-to-sqlite.mjs:53-56 | A vault with a tenant of its own keeps it; one without gets the first tenant's id. |
| StateNormalization.ReadinessAgrees | scripts/migrate-json-to-sqlite.mjs:115-140 | The inspector and the Postgres plan pass the same states, namely those that pass the migrator and have no null vault. |
| StateNormalization.NullVaultDisagrees | scripts/inspect-storage-state.mjs:47-52 | A state with one null vault that the migrator accepts and the inspector does not. |
| SqliteMigration.TableExact | scripts/migrate-json-to-sqlite.mjs:86-89 | Rows that can be inserted have pairwise distinct effective ids; the table then has exactly one entry per row, under its id or content hash. |
| SqliteMigration.Database.ReplaceJsonRows | scripts/migrate-json-to-sqlite.mjs:81-90 | Succeeds if and only if every row binds, no effective id repeats and storage lasts; then the table holds exactly the new rows, whatever it held before. |
| SqliteMigration.Database.SyncMirrorTables | scripts/migrate-json-to-sqlite.mjs:92-106 | Succeeds if and only if all eleven collections can be inserted and storage lasts; then every mirror table and the policies row are the new ones. |
| SqliteMigration.Database.Transact | scripts/migrate-json-to-sqlite.mjs:147-179 | The committed tables become the migrated ones if and only if everything up to COMMIT succeeds, and are unchanged otherwise. |
| SqliteMigration.Database.Migrate | scripts/migrate-json-to-sqlite.mjs:147-186 | All or nothing: committed tables are the migrated ones or the old ones, with the exact condition; completion additionally needs the checkpoint. |
| SqliteMigration.RunMigration | scripts/migrate-json-to-sqlite.mjs:113-186 | A state that fails a check is refused and changes nothing; otherwise the outcome and the committed tables are as stated, for the normalized state. |
| MigratedData.MirrorsExact | scripts/migrate-json-to-sqlite.mjs:92-106 | After a commit every mirror table holds exactly its collection of the persisted state, the state row holds that state, independently of the old contents, and tables outside the migration are untouched. |
| MigratedData.MirrorsByName | scripts/migrate-json-to-sqlite.mjs:92-106 | After a commit each of the eleven tables, by its name, has one row for each element of its collection, under the element's id or content hash, with the element's JSON and the named columns' texts or null, and no other row; the state and policies rows hold the state and its policies. |
| MigratedData.ReferenceResolves | scripts/migrate-json-to-sqlite.mjs:87 | An id that passed an orphan check names a row of the table keyed by it if and only if it is not empty. |
| MigratedData.EmptyIdDangles | scripts/migrate-json-to-sqlite.mjs:87 | A state with an unnamed vault and a secret in it that passes every check and is migrated, after which the secret's vault id names no row. |
| MigratedData.ReferentialIntegrity | scripts/migrate-json-to-sqlite.mjs:122-127 | In every committed migration a secret's vault id names a vault row, and a vault member a user row, if and only if the id is not empty. |
| Redaction.ScanAttachment | scripts/prepare-phase-attachment-inventory.mjs:46-64 | The scan over lines and rules returns its specification, line by line and rule by rule; large and binary files give no finding. |
| Redaction.FindingsExact | scripts/prepare-phase-attachment-inventory.mjs:46-64 | A file of at most two million bytes without a zero byte has one finding for each line and each rule that matches it, in the order of the lines and of the rules, where a line is what stands in the text between two line feeds; other files have none. |
| Redaction.LinesAppend | scripts/prepare-phase-attachment-inventory.mjs:52 | A line feed ends the line before it, together with one carriage return right before it, and the lines after it are those of the rest. |
| Redaction.LinesExactly | scripts/prepare-phase-attachment-inventory.mjs:52 | Line i is what stands between the i-th line feed and the next, without one trailing carriage return. |
| Redaction.LinesSpell | scripts/prepare-phase-attachment-inventory.mjs:52 | The lines with their line breaks spell the text. |
| Redaction.LinesOfText | scripts/prepare-phase-attachment-inventory.mjs:52 | Splitting gives one line more than there are line feeds, and no line holds one. |
| Attachments.PreparedInventoryValid | scripts/validate-phase-attachment-inventory.mjs:36-114 | The prepared inventory is accepted while the files stay; the strict modes accept it if and only if no expected file is missing, and no present file has a finding. |
| Attachments.InventoryExactly | scripts/validate-phase-attachment-inventory.mjs:36-104 | The validator accepts exactly the inventories the generator would write now from the same intake, apart from which of three states a present file is in and from its findings, which only have to be counted. |
| Attachments.PreparedStates | scripts/prepare-phase-attachment-inventory.mjs:66-95 | Every prepared file is missing, attached or to be reviewed if and only if there is no such file, a file without a finding, or one with findings, and it lists the findings. |
| Attachments.TallyAppend | scripts/validate-phase-attachment-inventory.mjs:81-84 | Counts are additive over files, and one file counts for itself. |
| Attachments.TotalsOfAllFiles | scripts/validate-phase-attachment-inventory.mjs:51-60 | The totals of an inventory are the counts of all its files taken together. |
| Waivers.BuildExpected | scripts/validate-phase-waiver-register.mjs:46-78 | The nested loops build, per file and in order, one missing-evidence draft if it is missing and one draft per finding. |
| Waivers.PrepareWaivers | scripts/prepare-phase-waiver-register.mjs:37-82 | The generator's nested loops propose exactly those drafts, numbered from one by the length so far. |
| Waivers.DraftCount | scripts/prepare-phase-waiver-register.mjs:37-82 | There are as many waivers as missing files and findings together. |
| Waivers.DraftsAt | scripts/validate-phase-waiver-register.mjs:46-78 | The drafts of a file stand, in order, at its position. |
| Waivers.DraftOwner | scripts/validate-phase-waiver-register.mjs:46-78 | Every draft belongs to some file. |
| Waivers.OneOwner | scripts/validate-phase-waiver-register.mjs:46-78 | No draft belongs to two files. |
| Waivers.WaiverIdsDistinct | scripts/prepare-phase-waiver-register.mjs:42 | The padded ids are pairwise distinct, however many there are. |
| WaiverRegister.PrepareRegister | scripts/prepare-phase-waiver-register.mjs:37-112 | The generator's loops give the specified register. |
| WaiverRegister.ValidateRegister | scripts/validate-phase-waiver-register.mjs:40-125 | The rebuild-and-compare loop accepts if and only if the register answers the expected waivers one by one, and all are approved where that is required. |
| WaiverRegister.PreparedRegisterValid | scripts/validate-phase-waiver-register.mjs:80-117 | For every inventory the prepared register is accepted. |
| WaiverRegister.ProposedForFile | scripts/prepare-phase-waiver-register.mjs:37-82 | At a file's position the prepared register proposes a waiver for the missing file, if it is missing, and then one per finding in order, each with the attachment's fields and the reason in words. |
| WaiverRegister.WaiversCorrespond | scripts/validate-phase-waiver-register.mjs:80-117 | In an accepted register waivers and missing files and findings correspond one to one in order, their number is the sum of both totals, and the ids are distinct. |
| WaiverRegister.RegisterExactly | scripts/validate-phase-waiver-register.mjs:80-117 | The validator accepts exactly the registers the generator would write from the same inventory and decision, apart from status, reason, required approval, expiry and references of the waivers, and the counts of these. |
| WaiverRegister.SummaryAddsUp | scripts/validate-phase-waiver-register.mjs:80-96 | The summary of an accepted register adds up by status and by type to the waivers, and its two type counts are the inventory's missing files and findings. |
| WaiverRegister.ReferencesMayBeMissing | scripts/validate-phase-waiver-register.mjs:118-124 | Dropping all references from an accepted, approved register keeps it accepted, and makes the review check refuse every waiver. |
| WaiverRegister.ApprovalsCompared | scripts/validate-phase-review-bundle.mjs:183-191 | For calendar dates the review's approval test is the register's test and the presence of both references. |
| WaiverRegister.SummaryHoldsUntilExpiry | scripts/package-phase-review-bundle.mjs:92-98 | A waiver summary packaged on one day still matches on a later day if and only if no waiver expires after the first and up to the second. |
| EvidenceChain.ReviewHoldsUntilExpiry | scripts/validate-phase-review-bundle.mjs:114-191 | A review manifest valid on one day is valid on a later day, all else equal, if and only if no waiver of the register it lists expires after the first and up to the second. |
| Expiry.FormatOrdered | scripts/validate-phase-review-bundle.mjs:114-120 | Zero-padded dates compare as strings exactly as they compare as dates. |
| Expiry.DaysOrdered | scripts/validate-phase-waiver-register.mjs:123 | One date is before another if and only if its day number is smaller, and equal day numbers mean equal dates. |
| Expiry.ExpiryTestsCoincide | scripts/validate-phase-waiver-register.mjs:122-123 | For calendar dates, expiry by timestamp against the clock equals expiry by string against today's date. |
| Keys.AscendingUnique | scripts/validate-phase-decision-record.mjs:60-61 | The sorted list of distinct names is determined by the set of names, so two scripts that compute it from the same names agree. |
| Signoffs.PreparedDecisionValid | scripts/prepare-phase-decision-record.mjs:43-114 | A prepared decision record is accepted if and only if the gap matrix has an environment, an owner and a status and names the same command scripts as the action register. |
| Signoffs.PendingListExactly | scripts/validate-phase-decision-record.mjs:131-138 | An accepted record lists every pending action, in order, if and only if the length of its list is the count it states; a list cut short anywhere stays accepted. |
| Signoffs.PendingActionUnlisted | scripts/validate-phase-decision-record.mjs:131-138 | An accepted record of a register with one pending action that lists none. |
| Signoffs.MissingInPhase | scripts/validate-phase-decision-record.mjs:62-72 | In a phase exactly the mappings that are not present are recorded as missing, with template, key and the phase's name, title and keys. |
| Signoffs.MissingAppend | scripts/validate-phase-decision-record.mjs:62-72 | What is missing in several phases is what is missing in each, one after the other. |
| SignoffRecords.DecisionExactly | scripts/validate-phase-decision-record.mjs:44-139 | The validator accepts exactly the records the generator would write from the same documents, apart from the status of the required approvals and from cuts and three fields of the pending actions. |
| SignoffRecords.DecisionMeans | scripts/validate-phase-decision-record.mjs:58-139 | An accepted record approves closure if and only if the gate is ready, every action complete and every template present; its counts, key lists, owner roles and required approvals are those of the actions and phases. |
| Signoffs.PreparedMatrixValid | scripts/validate-phase-signoff-matrix.mjs:29-105 | A matrix prepared from a validated decision is accepted. |
| Signoffs.SignoffAllOrNothing | scripts/validate-phase-signoff-matrix.mjs:75-89 | Against a validated decision every approval is ready if and only if the decision approves closure, and the ready, blocked and pending counts follow. |
| Signoffs.GroupingIsPartition | scripts/prepare-phase-signoff-matrix.mjs:41-48 | Every action is in the group of exactly one owner role, group sizes and pending counts add up to the register's, and the groups' keys are together the register's keys. |
| Signoffs.GroupingKeepsOrder | scripts/prepare-phase-signoff-matrix.mjs:44 | Inside a group the register order is kept. |
| Signoffs.MatrixCountsAddUp | scripts/validate-phase-signoff-matrix.mjs:51-58 | In an accepted matrix action counts, pending counts and keys add up to the register's. |
| SignoffRecords.MatrixExactly | scripts/validate-phase-signoff-matrix.mjs:29-105 | The validator accepts exactly the matrices the generator would write, apart from a longer list of required evidence and from the phase and blocker type of listed actions. |
| SignoffRecords.ApprovalMeans | scripts/validate-phase-signoff-matrix.mjs:69-105 | In an accepted matrix an approval is ready if and only if its role's actions are complete and closure is approved; it names exactly the scripts its role's commands run, the role's blocker types and keys, and lists the role's actions in order, each with the scripts of its own commands. |
| SignoffRecords.SummaryMeans | scripts/validate-phase-signoff-matrix.mjs:51-61 | The summary of an accepted matrix counts its approvals by status, and names the register's keys and commands. |
| SignoffRecords.ScriptExactly | scripts/prepare-phase-signoff-matrix.mjs:38-40 | A script is read from a command if and only if the command is pnpm, white space, and the script up to the next white space or the end. |
| ReleaseGate.RunGate | scripts/validate-production-release-gate.mjs:70-362 | The loops and branches that push blockers and warnings yield the specified verdict, or stop where an assertion does. |
| ReleaseGate.ReadyMeansAllChecks | scripts/validate-production-release-gate.mjs:73-81 | A ready gate has every file and every check, and none of the later blockers. |
| ReleaseGate.ReadyChecks | scripts/validate-production-release-gate.mjs:83-224 | A ready gate means that the nine modelled validators accept the default files. |
| ReleaseGate.ReadyReportMeansReadyGate | scripts/validate-production-release-gate-report.mjs:56-66 | A saved report that equals the regenerated one apart from its time and says ready means that the gate is ready now. |
| GateVerdict.ReadyExactly | scripts/validate-production-release-gate.mjs:70-362 | The gate is ready if and only if the target is known, the status report readable, all nineteen files there, the nine modelled validators and the ten others accept, the bundle, the review and the closure say what they must about target, readiness, decision and tree, and no validator result blocks. |
| GateVerdict.OneTarget | scripts/validate-production-release-gate.mjs:233 | Two ready calls on one directory in one world have the same target. |
| ArchiveClaims.ReadyIsOneRelease | scripts/validate-production-release-gate.mjs:83-345 | In a ready gate the evidence pack lists the gate's own files; bundle, workspace manifest, readiness report, pack, review and closure name one target, the one the gate is called with, and the first four one environment; where the review lists the gate's own phase gate report, review and closure are of that environment as well. |
| GateVerdict.BlockersExactly | scripts/validate-production-release-gate.mjs:226-341 | A blocker of a verdict is there if and only if what it stands for holds: a missing artifact, a failed check, or a named disagreement between documents. |
| GateVerdict.FileNames | scripts/validate-production-release-gate.mjs:29-49 | The nineteen names under which the gate reports a missing file, in order. |
| GateVerdict.FilesNamed | scripts/validate-production-release-gate.mjs:29-49 | The nineteen files the gate asks for, by name. |
| GateVerdict.ReadyWarns | scripts/validate-production-release-gate.mjs:326-341 | A ready verdict warns of a dirty tree if and only if the closure records one and a clean one was not required. |
| GateVerdict.NoVerdictExactly | scripts/validate-production-release-gate.mjs:51-322 | The gate stops without a verdict if and only if the target is unknown, a document it reads is there and not JSON, the review or the closure has another format, or the closure repeats another summary than the review holds. |
| TamperEvidence.WorkspacePins | scripts/validate-deployment-evidence-workspace.mjs:33-82 | The same valid workspace manifest in two file systems pins the bundle, the readme and every evidence file. |
| TamperEvidence.PackPins | scripts/validate-phase-evidence-pack.mjs:52-63 | The same valid evidence pack manifest pins its 12 artifacts. |
| TamperEvidence.ReviewPins | scripts/validate-phase-review-bundle.mjs:58-69 | The same valid review manifest pins its 17 artifacts. |
| TamperEvidence.ClosurePins | scripts/validate-phase-closure-archive.mjs:59-61 | The same valid closure manifest pins the review manifest. |
| TamperEvidence.AttachmentsPin | scripts/validate-phase-attachment-inventory.mjs:95-104 | The same valid inventory pins every intake file: the same content in both file systems, or absent from both. |
| TamperEvidence.ArchivePinsEvidence | scripts/validate-production-release-archive.mjs:73-123 | If one release archive validates as ready in two file systems, at whatever times, and no file changed under an unchanged length and hash, both agree byte for byte on the closure manifest, the gate report and the review manifest, at whatever paths. If the closure manifest is the gate's, they agree on the review's 17 artifacts; if the review lists the gate's phase gate report, on the 12 evidence pack artifacts and every workspace file; if it lists the gate's inventory, on every intake file. |
| TamperEvidence.ArchivePinsSource | scripts/validate-phase-closure-archive.mjs:94-99 | One release archive that is valid as ready in two worlds means the same full commit hash, branch and remote in both, and a clean tree where one was required. |
| ArchiveClaims.ArchiveTells | scripts/validate-production-release-archive.mjs:49-123 | Whatever a valid archive says is so, ready or not: its verdict and counts are those the gate gives now, what it repeats of the review is what the review manifest says, and its commit, branch, remote and clean tree are git's. |
| ArchiveClaims.ReportTells | scripts/validate-production-release-gate-report.mjs:50-66 | A valid saved report has the verdict, the number of blockers and the number of warnings of the gate run now. |
| ReviewChain.PathsDecide | scripts/validate-phase-review-bundle.mjs:91-103 | In two reviews valid in one world each document's path decides the paths of the documents it was made from. |
| ReviewChain.RegisterDecidesReview | scripts/validate-phase-review-bundle.mjs:91-112 | Two review manifests that are valid in one world and list the same waiver register list the same nine documents, with the same lengths and hashes, and agree on every compared field. |
| ReviewChain.WaiversSummarized | scripts/validate-phase-review-bundle.mjs:114-120 | The manifest of an accepted review counts all waivers of the register it lists, the proposed, the approved and those whose expiry date has come. |
| ReviewChain.ReviewDecidesClosure | scripts/validate-phase-closure-archive.mjs:62-99 | Two closure manifests that are valid in one world and record the same review agree on everything they say about it, on commit, branch and remote, and on the tree where a clean one is required. |
| ReviewChain.ArtifactsNamedOnce | scripts/validate-phase-closure-archive.mjs:72-73 | An accepted closure manifest names every artifact of the review exactly once, and nothing else. |
| ReviewChain.PackDecided | scripts/validate-phase-evidence-pack.mjs:65-85 | Two valid pack manifests agree on environment, target, status and readiness if they list the same readiness report, and on environment, status and bundle if they list the same workspace manifest. |
| ReviewChain.WorkspaceDecided | scripts/validate-deployment-evidence-workspace.mjs:70-82 | A valid workspace has exactly the template's evidence files; two of them for one bundle and directory record the same files, lengths and hashes. |
| ReleaseSafety.ReadyGateIsSafe | scripts/validate-production-release-gate.mjs:185-199 | When the gate is ready, every expected file is present with its recorded size and hash and no recorded finding, or absent with an approved, unexpired missing-evidence waiver of its own; waivers and absent files are one to one; and where the review lists the register the gate checks, every waiver has concrete references. |
| ReleaseSafety.ReviewedWaiversAreConcrete | scripts/validate-phase-review-bundle.mjs:183-191 | If an accepted review bundle lists the register the gate checks, all its waivers have an approval reference and a compensating control that are not placeholders. |
| ReadyRelease.ReferencesGuaranteedExactly | scripts/package-phase-review-bundle.mjs:25-43 | For every path the gate reads no other document from: the ready gates whose review lists the waiver register at that path all have concrete references if and only if it is the path of the gate's own register. |
| ReadyRelease.ReleaseReady | scripts/validate-production-release-gate.mjs:70-362 | Every release of the family has a ready gate, with and without a clean tree required, however many of its expected files are absent. |
| ReadyRelease.ReleaseReferences | scripts/validate-phase-waiver-register.mjs:118-124 | In such a release with an absent expected file the gate's own register has concrete references if and only if it is the one under review. |
| ReleaseFamily.ReleaseCoherent | scripts/validate-phase-review-bundle.mjs:82-90 | In such a release every file has one format: what any reader finds in it, its JSON says as well. |
| ReleaseSafety.ReadyGateDecides | scripts/validate-production-release-gate.mjs:162-175 | In every ready gate the decision record approves closure if and only if no action is pending and no artifact is missing, the matrix is ready, and every approval is ready exactly then and blocked otherwise. |
| ReleaseSafety.ReadyGateIsSignedOff | scripts/validate-production-release-gate.mjs:294-314 | A ready gate whose review lists the gate's own decision record has an approving record, no pending action, no missing artifact and a sign-off matrix whose approvals are all ready. |
| ReleaseSafety.OwnRegisterOwnDecision | scripts/validate-phase-review-bundle.mjs:97-103 | A review that lists the waiver register the gate checks lists its decision record as well. |
| PasswordGenerator.ExactClassCounts | src/lib/passwordGenerator.ts:4-15 | Whatever the random choices and the final order, class j of the k enabled ones occurs ⌈(n−j)/k⌉ times if j is below the length n, and never otherwise. |
| PasswordGenerator.EveryClassAppears | src/lib/passwordGenerator.ts:4-15 | Every enabled class appears if and only if the length is at least the number of enabled classes. |
| PasswordGenerator.OnlyEnabledCharacters | src/lib/passwordGenerator.ts:10-14 | The password has the requested length and only characters of enabled classes, or of the fallback when none is enabled. |
| PasswordGenerator.OptionsKept | src/lib/passwordGenerator.ts:4-15 | By option and alphabet: the enabled ones of upper case, lower case, digits and symbols share the length, the first ones in this order taking what is left over, no other character occurs, and with none enabled it is lower case and digits. |
| PasswordGenerator.ShareExactly | src/lib/passwordGenerator.ts:11-12 | A class's share of the length is the number of the indices that fall to it. |
| PasswordGenerator.PickedEvenly | src/lib/passwordGenerator.ts:12-13 | Character k of a pool of n is picked for exactly the random numbers from k/n up to (k+1)/n, so every character has an equal share. |
| StatusReport.ValidateBundle | scripts/validate-deployment-evidence-bundle.mjs:52-107 | The loops that fill the results and then read them accept if and only if the bundle meets the stated conditions, with exactly one result per evidence file. |
| BundleVerdict.BundleExactly | scripts/validate-deployment-evidence-bundle.mjs:52-107 | A bundle is accepted if and only if its fields are complete, the twenty-six named files are there, parse and pass their validators, two have their formats, a bundle in use has a timestamp and no placeholder, and in production the thirteen named files have the named statuses and the bundle's environment. |
| StatusReport.NoneCounted | scripts/report-deployment-evidence-status.mjs:59-62 | The report counts no placeholder if and only if no place of the text matches, which is what the validator asks. |
| StatusReport.ReadyMeansEveryItem | scripts/report-deployment-evidence-status.mjs:146-166 | The totals make the report ready if and only if the bundle has no placeholder and every single item is production ready. |
| BundleVerdict.ReportExactly | scripts/report-deployment-evidence-status.mjs:59-166 | There is a report and it is ready if and only if the bundle has the format, an evidence map and no placeholder, and every listed file is there, parses, passes its validator or has its format, holds no placeholder and no blocking status, and in production has the status required of it and the bundle's environment. |
| StatusReport.OrdersAgreeExactly | scripts/report-deployment-evidence-status.mjs:115 | The two field orders find the same status exactly under a condition on the four status fields. |
| StatusReport.ReadyReportAccepted | scripts/validate-deployment-evidence-bundle.mjs:52-107 | A ready report on a production bundle means an accepted bundle if and only if the bundle's own fields are complete, every evidence file is listed, the time is an ISO timestamp and the two orders agree on the thirteen required files. |
| StatusReport.OneStatusAccepted | scripts/validate-deployment-evidence-bundle.mjs:98-107 | With exactly one of the three status fields filled in, a ready report on a complete bundle is enough. |
| StatusReport.BlockingExactly | scripts/report-deployment-evidence-status.mjs:65-80 | Evidence blocks if and only if a text under its properties, through objects at any depth, is a blocking one; of a list at the top the elements are searched, other lists are not. |
| StatusReport.BlockingTextExactly | scripts/report-deployment-evidence-status.mjs:65-80 | A text blocks if and only if it begins, in any case, with a word for what is not done yet or with a placeholder. |
| ConnectorEvidence.PromotedAccepted | scripts/validate-connector-evidence.mjs:9-44 | Setting the status of a connector file back to `pilot` with a release status of `certified` keeps it accepted by its own validator. |
| ConnectorEvidence.PromotedIsRefused | scripts/report-deployment-evidence-status.mjs:115-120 | For every production bundle with a ready report that lists a connector file, that edit keeps the report ready and makes the bundle validator refuse the bundle. |
| ConnectorEvidence.ReadyReportMayBeRefused | scripts/validate-deployment-evidence-bundle.mjs:98-107 | A complete production bundle with a ready report that the bundle validator refuses; its connector file passes its own validator. |

## Left out

- Characters are Unicode scalar values, as a decoded UTF-8 file has them; strings with lone surrogates, and the order of such strings in UTF-16 code units, are not modelled.
- Column names, evidence names and risk values that coincide with properties every JavaScript object inherits (`constructor`, `toString`).
- VendorExports.VendorExportConverts: covers logins with a name, a user name and a password; a row without one of them is refused by the converter.
- BulkImport.BulkImportPreserves: the tag separator is one character; a longer one is not modelled.
- Column maps whose constants are not texts.
- The evidence file of the converter and the report file of the validator as files: their entries are compared, their JSON text is not modelled.
- Import states that are not JSON objects at the top, SQL schemas of tables that already exist with other columns, and overwriting the target file before the transaction.
- The eleven calls that replace the mirror tables are driven by a table of their arguments; statement failures are modelled by a budget, so that a failing statement stays failing.
- The order of properties in JSON objects, and so the order of the closure archive's artifact names; their number and the names themselves are modelled.
- Values compared with assert.equal are taken to be texts, numbers or booleans; two equal objects read from two files would be refused by the scripts.
- The secret rules' patterns and the decoding of bytes are parameters of the scan; file contents that make the scripts' JSON parsers fail are unreadable documents.
- The ten checks of the release gate that are not modelled further (bundle, status, redaction, external requests, readiness, completion, hand-off, actions, gaps, intake), and the evidence-key, command and Markdown summaries of the review bundle and the evidence pack, are arbitrary functions of the file system, the time, git and the target.
- The existence of the workspace directory, path overrides on the command line, argument loops, Markdown files, and the details of reports that no later script reads.
- TamperEvidence.ArchivePinsEvidence: below the review manifest it depends on which documents are the gate's own; the scripts do not compare others.
- ReleaseSafety.ReadyGateIsSignedOff: needs a review that lists the gate's own decision record; ReleaseSafety.ReadyGateDecides says what holds without it.
- ReadyRelease.ReferencesGuaranteedExactly: is about the evidence directory `/release` and path.resolve on paths without `.` and `..`; paths of other documents the gate reads are excepted.
- ReleaseFamily.ReleaseCoherent: relates the readers by the documents' formats; the other fields of a document's JSON text are not modelled where it is read into its own type.
- ConnectorEvidence.PromotedIsRefused: only the connector's single-file validator is modelled; the other twenty-five are arbitrary functions, unchanged by the edit. That the edited file's JSON text has no placeholder is a premise.
- ConnectorEvidence.ReadyReportMayBeRefused: of the other validators only the format and the status of a file are asked for.
- PasswordGenerator.ExactClassCounts: the in-place sort with a random comparison is taken as an arbitrary rearrangement of the characters; which rearrangements a JavaScript engine can produce is not modelled, nor are lengths that are not integers.
- The counts of the status report's summary that do not enter its verdict, and the texts of its issues.
- That the whole pipeline can be run to a ready gate: the intake script only succeeds while every action is still pending.
- The server, the browser extension, the console, signing, packaging and network checks.
