/** The normalized-import validator, and what it says about the converter's output. */
module ImportValidator {
  import opened Text
  import opened Wrappers
  import opened CsvParser
  import opened CsvGrammar
  import opened CsvPrinter
  import opened Converter

  const ALLOWED_TYPES: set<string> := {
    "password", "api_key", "ssh_key", "certificate", "token", "connection_string",
    "directory_account", "registry_token"}
  const ALLOWED_RISKS: set<string> := {"low", "medium", "high"}

  datatype Redacted = Redacted(
    vaultId: string, kind: string, name: string, username: string,
    url: string, risk: string, tags: seq<string>, passwordFingerprint: string)

  datatype Report = Report(rowCount: nat, vaultIds: set<string>, redactedEntries: seq<Redacted>)

  /** What the validator is told to expect: a row count, and the count in the adapter evidence. */
  datatype Expectations = Expectations(rows: Option<nat>, convertedCount: Option<nat>)

  function StripByteOrderMark(raw: string): string {
    if raw != "" && raw[0] == '\U{FEFF}' then raw[1..] else raw
  }

  function Cell(row: Row, header: string): string {
    if header in row then row[header] else ""
  }

  predicate RowAccepted(headers: seq<string>, cells: Record) {
    var row := RowOf(headers, cells);
    && |cells| == |headers|
    && !Blank(Cell(row, "vaultId"))
    && Cell(row, "type") in ALLOWED_TYPES
    && !Blank(Cell(row, "name"))
    && !Blank(Cell(row, "username"))
    && Cell(row, "password") != ""
    && OrElse(Cell(row, "risk"), "medium") in ALLOWED_RISKS
  }

  function SplitTags(tags: string): seq<string> {
    if tags == "" then [] else TrimmedTags(SplitOn(tags, {';'}))
  }

  function Redact(row: Row, hash: string -> string): Redacted {
    Redacted(
      Cell(row, "vaultId"), Cell(row, "type"), Cell(row, "name"), Cell(row, "username"),
      Cell(row, "url"), Cell(row, "risk"), SplitTags(Cell(row, "tags")), hash(Cell(row, "password")))
  }

  function RedactAll(headers: seq<string>, records: seq<Record>, hash: string -> string): (r: seq<Redacted>)
    ensures |r| == |records|
    ensures forall i | 0 <= i < |r| :: r[i] == Redact(RowOf(headers, records[i]), hash)
  {
    if records == [] then []
    else [Redact(RowOf(headers, records[0]), hash)] + RedactAll(headers, records[1..], hash)
  }

  predicate Met(expected: Option<nat>, actual: nat) {
    expected.Some? ==> expected.value == actual
  }

  function Validate(raw: string, expected: Expectations, hash: string -> string): Result<Report> {
    var rows := Parse(StripByteOrderMark(raw));
    if |rows| < 2 then Failure("headers and at least one entry are required")
    else
      var headers := TrimAll(rows[0]);
      if headers != HEADERS then Failure("headers must match the import format")
      else if exists cells | cells in rows[1..] :: !RowAccepted(headers, cells) then Failure("row rejected")
      else if !Met(expected.rows, |rows| - 1) || !Met(expected.convertedCount, |rows| - 1) then Failure("row count")
      else
        var redacted := RedactAll(headers, rows[1..], hash);
        Success(Report(|rows| - 1, set r | r in redacted :: r.vaultId, redacted))
  }

  // ---------------------------------------------------------------- the printed rows

  lemma {:induction false} HeadersAreDistinct()
    ensures Distinct(HEADERS)
  {
    var lengths := [7, 4, 4, 8, 8, 3, 4, 4, 5];
    assert forall i | 0 <= i < 9 :: |HEADERS[i]| == lengths[i];
    assert HEADERS[1][0] == 't' && HEADERS[2][0] == 'n' && HEADERS[6][1] == 'a' && HEADERS[1][1] == 'y'
           && HEADERS[7][0] == 'r';
    assert HEADERS[3][0] == 'u' && HEADERS[4][0] == 'p';
  }

  /** Reading a nine-cell row under the import headers. */
  lemma {:induction false} NormalizedRow(cells: Record)
    requires |cells| == 9
    ensures var row := RowOf(HEADERS, cells);
            forall i | 0 <= i < 9 :: HEADERS[i] in row && row[HEADERS[i]] == cells[i]
  {
    HeadersAreDistinct();
    forall i | 0 <= i < 9
      ensures HEADERS[i] in RowOf(HEADERS, cells) && RowOf(HEADERS, cells)[HEADERS[i]] == cells[i]
    {
      RowLookup(HEADERS, cells, i);
    }
  }

  lemma {:induction false} RowOfEntry(vaultId: string, e: Entry)
    ensures var row := RowOf(HEADERS, NormalizedCells(vaultId, e));
            && "vaultId" in row && row["vaultId"] == vaultId
            && "type" in row && row["type"] == e.kind
            && "name" in row && row["name"] == e.name
            && "username" in row && row["username"] == e.username
            && "password" in row && row["password"] == e.password
            && "url" in row && row["url"] == e.url
            && "tags" in row && row["tags"] == Join(e.tags, ";")
            && "risk" in row && row["risk"] == e.risk
            && "notes" in row && row["notes"] == e.notes
  {
    var cells := NormalizedCells(vaultId, e);
    var row := RowOf(HEADERS, cells);
    hide RowOf;
    NormalizedRow(cells);
    assert HEADERS[0] in row && HEADERS[1] in row && HEADERS[2] in row && HEADERS[3] in row && HEADERS[4] in row
        && HEADERS[5] in row && HEADERS[6] in row && HEADERS[7] in row && HEADERS[8] in row;
  }

  /** Splitting the joined tags gives the tags back. */
  lemma {:induction false} TagsSurvive(tags: seq<string>)
    requires WellFormedTags(tags)
    ensures SplitTags(Join(tags, ";")) == tags
    ensures Join(tags, ";") == "" <==> tags == []
  {
    SplitOfJoin(tags, ';', {';'});
    if tags != [] {
      assert tags[0] in tags;
      TrimmedTagsUnchanged(tags);
    }
  }

  lemma {:induction false} TrimmedTagsUnchanged(tags: seq<string>)
    requires forall t | t in tags :: t != "" && Trimmed(t)
    ensures TrimmedTags(tags) == tags
  {
    if tags != [] {
      assert tags[0] in tags;
      TrimFixesTrimmed(tags[0]);
      assert forall t | t in tags[1..] :: t in tags;
      TrimmedTagsUnchanged(tags[1..]);
    }
  }

  // ---------------------------------------------------------------- the printed file

  function NormalizedFile(vaultId: string, entries: seq<Entry>): seq<Record> {
    [HEADERS] + NormalizedRecords(vaultId, entries)
  }

  lemma {:induction false} HeadersArePlain()
    ensures |HEADERS| == 9
    ensures forall i, k | 0 <= i < 9 && 0 <= k < |HEADERS[i]| :: 'A' <= HEADERS[i][k] <= 'z'
    ensures HEADERS[0] != "" && HEADERS[0][0] == 'v'
  {
  }

  lemma {:induction false} PlainCell(s: string)
    requires forall k | 0 <= k < |s| :: 'A' <= s[k] <= 'z'
    ensures !NeedsQuotes(s) && Trim(s) == s
  {
    TrimFixesTrimmed(s);
  }

  lemma {:induction false} HeaderLine()
    ensures PrintRecord(HEADERS) == Join(HEADERS, ",")
    ensures TrimAll(HEADERS) == HEADERS && HasContent(HEADERS)
    ensures Join(HEADERS, ",") != "" && Join(HEADERS, ",")[0] == 'v'
  {
    hide HEADERS, NeedsQuotes, Trim, Blank;
    HeadersArePlain();
    forall i | 0 <= i < 9
      ensures !NeedsQuotes(HEADERS[i]) && Trim(HEADERS[i]) == HEADERS[i]
    {
      PlainCell(HEADERS[i]);
    }
    EscapePlain(HEADERS);
    VaultHeaderHasContent();
  }

  lemma {:induction false} VaultHeaderHasContent()
    ensures HasContent(HEADERS)
  {
    HeadersArePlain();
    PlainCell(HEADERS[0]);
    assert HEADERS[0] in HEADERS;
  }

  lemma {:induction false} EscapePlain(cells: Record)
    requires forall i | 0 <= i < |cells| :: !NeedsQuotes(cells[i])
    ensures EscapeAll(cells) == cells
  {
    if cells != [] {
      EscapePlain(cells[1..]);
    }
  }

  /** Reading the converter's file gives the header and every record with content. */
  lemma {:induction false} ParseNormalized(vaultId: string, entries: seq<Entry>)
    ensures var csv := NormalizedCsv(vaultId, entries);
            && StripByteOrderMark(csv) == csv
            && Parse(csv) == [HEADERS] + NonBlank(NormalizedRecords(vaultId, entries))
            && csv == PrintCsv(NormalizedFile(vaultId, entries))
  {
    hide HEADERS, Parse, PrintRecord, HasContent, NormalizedCells;
    HeaderLine();
    var records := NormalizedRecords(vaultId, entries);
    var file := NormalizedFile(vaultId, entries);
    assert file[1..] == records;
    assert PrintLines(file) == [Join(HEADERS, ",")] + PrintLines(records);
    assert Join([Join(HEADERS, ",")] + PrintLines(records), "\n")[0] == 'v';
    PrintThenParse(file);
    NonBlankCons(HEADERS, records);
  }

  lemma {:induction false} VaultKeepsRecords(vaultId: string, entries: seq<Entry>)
    requires !Blank(vaultId)
    ensures NonBlank(NormalizedRecords(vaultId, entries)) == NormalizedRecords(vaultId, entries)
  {
    var records := NormalizedRecords(vaultId, entries);
    forall r | r in records
      ensures HasContent(r)
    {
      assert r[0] == vaultId;
      assert vaultId in r;
    }
    NonBlankKeepsAll(records);
  }

  // ---------------------------------------------------------------- any file

  /** A row of nine cells in the order of the import headers, as the validator asks for it. */
  predicate CellsAccepted(cells: Record) {
    && |cells| == 9
    && !AllSpace(cells[0]) && !AllSpace(cells[2]) && !AllSpace(cells[3]) && cells[4] != ""
    && cells[1] in {"password", "api_key", "ssh_key", "certificate", "token", "connection_string",
                    "directory_account", "registry_token"}
    && (cells[7] == "" || cells[7] in {"low", "medium", "high"})
  }

  /** What the report says of a row: every cell but the notes, the password only as its fingerprint. */
  function CellsRedacted(cells: Record, hash: string -> string): Redacted
    requires |cells| == 9
  {
    Redacted(cells[0], cells[1], cells[2], cells[3], cells[5], cells[7], SplitTags(cells[6]), hash(cells[4]))
  }

  lemma {:induction false} CellsOfRow(cells: Record)
    requires |cells| == 9
    ensures var row := RowOf(HEADERS, cells);
            && Cell(row, "vaultId") == cells[0] && Cell(row, "type") == cells[1] && Cell(row, "name") == cells[2]
            && Cell(row, "username") == cells[3] && Cell(row, "password") == cells[4] && Cell(row, "url") == cells[5]
            && Cell(row, "tags") == cells[6] && Cell(row, "risk") == cells[7] && Cell(row, "notes") == cells[8]
  {
    NormalizedRow(cells);
    hide RowOf;
    var h := HEADERS;
    assert h[0] == "vaultId" && h[1] == "type" && h[2] == "name" && h[3] == "username" && h[4] == "password";
    assert h[5] == "url" && h[6] == "tags" && h[7] == "risk" && h[8] == "notes";
    hide HEADERS;
  }

  lemma {:induction false} RowExactly(cells: Record, hash: string -> string)
    ensures RowAccepted(HEADERS, cells) <==> CellsAccepted(cells)
    ensures |cells| == 9 ==> Redact(RowOf(HEADERS, cells), hash) == CellsRedacted(cells, hash)
  {
    if |cells| == 9 {
      CellsOfRow(cells);
      BlankExactly(cells[0]);
      BlankExactly(cells[2]);
      BlankExactly(cells[3]);
    }
    HeaderCount();
    hide HEADERS, RowOf, Blank, SplitTags;
  }

  lemma {:induction false} HeaderCount()
    ensures |HEADERS| == 9
  {
  }

  /** The validator accepts a file exactly when its first record holds the nine import headers, another follows,
      every other record is an acceptable row, and the counts are the expected ones. The report has one entry
      for each row, in order. */
  lemma {:induction false} ValidateExactly(raw: string, expected: Expectations, hash: string -> string)
    ensures var v, rows := Validate(raw, expected, hash), Parse(StripByteOrderMark(raw));
            && (v.Success? <==>
                && |rows| >= 2
                && TrimAll(rows[0])
                   == ["vaultId", "type", "name", "username", "password", "url", "tags", "risk", "notes"]
                && (forall i | 1 <= i < |rows| :: CellsAccepted(rows[i]))
                && Met(expected.rows, |rows| - 1) && Met(expected.convertedCount, |rows| - 1))
            && (v.Success? ==> |rows| >= 2 && v.value.rowCount == |rows| - 1 == |v.value.redactedEntries|)
            && (v.Success? ==> forall i | 1 <= i < |rows| ::
                  |rows[i]| == 9 && v.value.redactedEntries[i - 1] == CellsRedacted(rows[i], hash))
  {
    hide Parse, StripByteOrderMark, RowAccepted, CellsAccepted, Redact, RowOf, TrimAll, Met, SplitTags;
    var v, rows := Validate(raw, expected, hash), Parse(StripByteOrderMark(raw));
    forall i | 1 <= i < |rows|
      ensures RowAccepted(HEADERS, rows[i]) <==> CellsAccepted(rows[i])
      ensures |rows[i]| == 9 ==> Redact(RowOf(HEADERS, rows[i]), hash) == CellsRedacted(rows[i], hash)
      ensures CellsAccepted(rows[i]) ==> |rows[i]| == 9
    {
      RowExactly(rows[i], hash);
      if CellsAccepted(rows[i]) {
        NineCells(rows[i]);
      }
    }
  }

  /** The report has the vault ids that occur. */
  lemma {:induction false} ValidatedVaults(raw: string, expected: Expectations, hash: string -> string)
    requires Validate(raw, expected, hash).Success?
    ensures var rows := Parse(StripByteOrderMark(raw));
            && |rows| >= 2
            && Validate(raw, expected, hash).value.vaultIds
               == set cells | cells in rows[1..] && cells != [] :: cells[0]
  {
    hide Parse, StripByteOrderMark, CellsAccepted, Validate, TrimAll, Met, SplitTags;
    ValidateExactly(raw, expected, hash);
    var report, rows := Validate(raw, expected, hash).value, Parse(StripByteOrderMark(raw));
    ReportedVaults(raw, expected, hash);
    assert forall i | 0 <= i < |rows| - 1 :: rows[1..][i] == rows[i + 1];
    forall i | 0 <= i < |rows| - 1
      ensures rows[1..][i] != [] && report.redactedEntries[i].vaultId == rows[1..][i][0]
    {
      assert report.redactedEntries[i + 1 - 1] == CellsRedacted(rows[i + 1], hash);
    }
    VaultsReported(rows[1..], report.redactedEntries);
  }

  lemma {:induction false} ReportedVaults(raw: string, expected: Expectations, hash: string -> string)
    ensures var v := Validate(raw, expected, hash);
            v.Success? ==> v.value.vaultIds == set r | r in v.value.redactedEntries :: r.vaultId
  {
    hide Parse, StripByteOrderMark, RowAccepted, TrimAll, Met, HEADERS, RedactAll;
  }

  lemma {:induction false} NineCells(cells: Record)
    requires CellsAccepted(cells)
    ensures |cells| == 9
  {
  }

  lemma {:induction false} VaultsReported(records: seq<Record>, redacted: seq<Redacted>)
    requires |records| == |redacted|
    requires forall i | 0 <= i < |records| :: records[i] != [] && redacted[i].vaultId == records[i][0]
    ensures (set r | r in redacted :: r.vaultId) == set cells | cells in records && cells != [] :: cells[0]
  {
    if records != [] {
      var n := |records| - 1;
      VaultsReported(records[..n], redacted[..n]);
      assert redacted == redacted[..n] + [redacted[n]] && records == records[..n] + [records[n]];
      assert (set r | r in redacted :: r.vaultId) == (set r | r in redacted[..n] :: r.vaultId) + {redacted[n].vaultId};
      assert (set cells | cells in records && cells != [] :: cells[0])
          == (set cells | cells in records[..n] && cells != [] :: cells[0]) + {records[n][0]};
    }
  }

  // ---------------------------------------------------------------- acceptance

  predicate EntryAccepted(e: Entry) {
    && e.kind in ALLOWED_TYPES && e.risk in ALLOWED_RISKS
    && !Blank(e.name) && !Blank(e.username)
  }

  predicate Acceptable(vaultId: string, entries: seq<Entry>) {
    entries != [] && !Blank(vaultId) && forall e | e in entries :: EntryAccepted(e)
  }

  /** The report entry for one converted entry. */
  function Expected(vaultId: string, e: Entry, hash: string -> string): Redacted {
    Redacted(vaultId, e.kind, e.name, e.username, e.url, e.risk, e.tags, hash(e.password))
  }

  lemma {:induction false} EntryRow(vaultId: string, e: Entry, hash: string -> string)
    requires AdapterEntry(e) && Complete(e)
    ensures RowAccepted(HEADERS, NormalizedCells(vaultId, e)) <==> !Blank(vaultId) && EntryAccepted(e)
    ensures Redact(RowOf(HEADERS, NormalizedCells(vaultId, e)), hash) == Expected(vaultId, e, hash)
  {
    hide RowOf, Blank, SplitTags;
    RowOfEntry(vaultId, e);
    TagsSurvive(e.tags);
  }

  /** Every file the converter writes is accepted exactly when it has an entry, the vault id is not
      blank, types, risks, names and user names are allowed, and the expected counts are the converted
      count. The report then lists the entries one for one, in order, with their tags. */
  lemma {:induction false} ConverterOutputAccepted(
      format: Format, vaultId: string, raw: string, expected: Expectations, hash: string -> string)
    ensures match Convert(format, vaultId, raw)
            case Failure(_) => true
            case Success(c) =>
              var v := Validate(c.csv, expected, hash);
              && (v.Success? <==> Acceptable(vaultId, c.entries)
                                  && Met(expected.rows, |c.entries|) && Met(expected.convertedCount, |c.entries|))
              && (v.Success? ==> Reports(v.value, vaultId, c.entries, hash))
  {
    hide Convert, Validate, HEADERS, NormalizedCsv, Met, AdapterEntry, Complete, Acceptable, Expected, Reports;
    match Convert(format, vaultId, raw)
    case Failure(_) =>
    case Success(c) =>
      ConvertedEntries(format, vaultId, raw);
      NormalizedAccepted(vaultId, c.entries, expected, hash);
  }

  /** The report of a file with these entries, one for one and in order. */
  predicate Reports(report: Report, vaultId: string, entries: seq<Entry>, hash: string -> string) {
    && report.rowCount == |entries|
    && report.vaultIds == {vaultId}
    && |report.redactedEntries| == |entries|
    && forall i | 0 <= i < |entries| :: report.redactedEntries[i] == Expected(vaultId, entries[i], hash)
  }

  lemma {:induction false} NormalizedAccepted(vaultId: string, entries: seq<Entry>, expected: Expectations,
        hash: string -> string)
    requires forall e | e in entries :: AdapterEntry(e) && Complete(e)
    ensures var v := Validate(NormalizedCsv(vaultId, entries), expected, hash);
            && (v.Success? <==> Acceptable(vaultId, entries)
                                && Met(expected.rows, |entries|) && Met(expected.convertedCount, |entries|))
            && (v.Success? ==> Reports(v.value, vaultId, entries, hash))
  {
    hide RowAccepted, AdapterEntry, Complete, EntryAccepted, Blank, NormalizedCells, Redact, Expected, NormalizedCsv,
      HEADERS, Parse, NonBlank, StripByteOrderMark, HasContent, RowOf;
    ParseNormalized(vaultId, entries);
    HeaderLine();
    var records := NormalizedRecords(vaultId, entries);
    var rows := [HEADERS] + NonBlank(records);
    assert rows[1..] == NonBlank(records);
    forall e | e in entries
      ensures RowAccepted(HEADERS, NormalizedCells(vaultId, e)) <==> !Blank(vaultId) && EntryAccepted(e)
      ensures Redact(RowOf(HEADERS, NormalizedCells(vaultId, e)), hash) == Expected(vaultId, e, hash)
    {
      EntryRow(vaultId, e, hash);
    }
    if Blank(vaultId) {
      forall r | r in NonBlank(records)
        ensures !RowAccepted(HEADERS, r)
      {
        assert r in records;
      }
      assert NonBlank(records) != [] ==> NonBlank(records)[0] in NonBlank(records);
    } else {
      VaultKeepsRecords(vaultId, entries);
      RecordsAccepted(vaultId, entries);
      if Acceptable(vaultId, entries) {
        ReportedVault(vaultId, RedactAll(HEADERS, records, hash), entries, hash);
      }
    }
  }

  lemma {:induction false} RecordsAccepted(vaultId: string, entries: seq<Entry>)
    requires !Blank(vaultId)
    requires forall e | e in entries ::
      RowAccepted(HEADERS, NormalizedCells(vaultId, e)) <==> !Blank(vaultId) && EntryAccepted(e)
    ensures (forall r | r in NormalizedRecords(vaultId, entries) :: RowAccepted(HEADERS, r))
       <==> (forall e | e in entries :: EntryAccepted(e))
  {
    hide RowAccepted, EntryAccepted, Blank, NormalizedCells;
    var records := NormalizedRecords(vaultId, entries);
    assert forall i | 0 <= i < |entries| :: records[i] in records && entries[i] in entries;
  }

  lemma {:induction false} ReportedVault(vaultId: string, redacted: seq<Redacted>, entries: seq<Entry>,
        hash: string -> string)
    requires |redacted| == |entries| > 0
    requires forall i | 0 <= i < |entries| :: redacted[i] == Expected(vaultId, entries[i], hash)
    ensures (set r | r in redacted :: r.vaultId) == {vaultId}
  {
    assert redacted[0] in redacted;
  }

  /** For the built-in formats only the vault id, the types and the risks can be refused. */
  lemma {:induction false} BuiltInOutputAccepted(format: Format, vaultId: string, raw: string, hash: string -> string)
    ensures match Convert(format, vaultId, raw)
            case Failure(_) => true
            case Success(c) =>
              !format.MappedCsv? ==>
                (Validate(c.csv, Expectations(None, Some(|c.entries|)), hash).Success?
                 <==> c.entries != [] && !Blank(vaultId)
                      && forall e | e in c.entries :: e.kind in ALLOWED_TYPES && e.risk in ALLOWED_RISKS)
  {
    hide Convert, Validate, ALLOWED_TYPES, ALLOWED_RISKS;
    match Convert(format, vaultId, raw)
    case Failure(_) =>
    case Success(c) =>
      ConvertedEntries(format, vaultId, raw);
      ConverterOutputAccepted(format, vaultId, raw, Expectations(None, Some(|c.entries|)), hash);
      forall e | !format.MappedCsv? && e in c.entries
        ensures !Blank(e.name) && !Blank(e.username)
      {
        TrimFixesTrimmed(e.name);
        TrimFixesTrimmed(e.username);
      }
  }
}
