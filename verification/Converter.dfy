/** The source-export converter: vendor rows become normalized entries, printed as CSV. */
module Converter {
  import opened Text
  import opened Wrappers
  import opened CsvParser
  import opened CsvPrinter

  type Row = map<string, string>

  datatype Entry = Entry(
    kind: string, name: string, username: string, password: string,
    url: string, tags: seq<string>, risk: string, notes: string)

  const HEADERS: seq<string> :=
    ["vaultId", "type", "name", "username", "password", "url", "tags", "risk", "notes"]

  // ---------------------------------------------------------------- rows as objects

  /** Object.fromEntries: missing cells are empty, a repeated header keeps its last cell. */
  function RowOf(headers: seq<string>, cells: Record): Row {
    if headers == [] then map[]
    else
      var cell := if cells == [] then "" else cells[0];
      map[headers[0] := cell] + RowOf(headers[1..], if cells == [] then [] else cells[1..])
  }

  function TrimAll(cells: Record): (r: Record)
    ensures |r| == |cells|
    ensures forall i | 0 <= i < |r| :: r[i] == Trim(cells[i])
  {
    if cells == [] then [] else [Trim(cells[0])] + TrimAll(cells[1..])
  }

  function RowsOf(headers: seq<string>, records: seq<Record>): (r: seq<Row>)
    ensures |r| == |records|
    ensures forall i | 0 <= i < |r| :: r[i] == RowOf(headers, records[i])
  {
    if records == [] then [] else [RowOf(headers, records[0])] + RowsOf(headers, records[1..])
  }

  /** parseCsv: the first record names the columns of the others. */
  function ParseRows(text: string): seq<Row> {
    var records := Parse(text);
    if records == [] then [] else RowsOf(TrimAll(records[0]), records[1..])
  }

  lemma {:induction false} RowLookup(headers: seq<string>, cells: Record, i: nat)
    requires Distinct(headers) && i < |headers|
    ensures var row := RowOf(headers, cells);
            headers[i] in row && row[headers[i]] == if i < |cells| then cells[i] else ""
  {
    var rest := if cells == [] then [] else cells[1..];
    if i == 0 {
      RowKeys(headers[1..], rest);
    } else {
      assert forall a, b | 0 <= a < b < |headers[1..]| ::
        headers[1..][a] == headers[a + 1] && headers[1..][b] == headers[b + 1];
      RowLookup(headers[1..], rest, i - 1);
    }
  }

  lemma {:induction false} RowKeys(headers: seq<string>, cells: Record)
    ensures RowOf(headers, cells).Keys == set h | h in headers
  {
    if headers != [] {
      RowKeys(headers[1..], if cells == [] then [] else cells[1..]);
      assert headers == [headers[0]] + headers[1..];
    }
  }

  // ---------------------------------------------------------------- picking values

  predicate Filled(row: Row, name: string) {
    name in row && !Blank(row[name])
  }

  /** The trimmed cell of the first named column that is filled, or nothing. */
  function FirstOf(row: Row, names: seq<string>): (value: string)
    ensures Trimmed(value)
  {
    if names == [] then ""
    else if Filled(row, names[0]) then Trim(row[names[0]])
    else FirstOf(row, names[1..])
  }

  /** first: the loop with an early return. */
  method First(row: Row, names: seq<string>) returns (value: string)
    ensures value == FirstOf(row, names)
    ensures value == "" ==> forall n | n in names :: !Filled(row, n)
    ensures value != "" ==> exists i :: 0 <= i < |names| && Filled(row, names[i]) && value == Trim(row[names[i]])
                                     && forall j | 0 <= j < i :: !Filled(row, names[j])
  {
    for i := 0 to |names|
      invariant FirstOf(row, names) == FirstOf(row, names[i..])
      invariant forall j | 0 <= j < i :: !Filled(row, names[j])
    {
      if names[i] in row && Trim(row[names[i]]) != "" {
        return Trim(row[names[i]]);
      }
      assert names[i..][1..] == names[i + 1..];
    }
    return "";
  }

  function OrElse(value: string, default: string): string {
    if value != "" then value else default
  }

  const TAG_SEPARATORS: set<char> := {';', ','}

  function TrimmedTags(pieces: seq<string>): (tags: seq<string>)
    ensures forall t | t in tags :: t != "" && Trimmed(t)
  {
    if pieces == [] then []
    else (if Trim(pieces[0]) == "" then [] else [Trim(pieces[0])]) + TrimmedTags(pieces[1..])
  }

  function SplitAll(values: seq<string>): seq<string> {
    if values == [] then [] else SplitOn(values[0], TAG_SEPARATORS) + SplitAll(values[1..])
  }

  /** Tags as the source system and the import format can both carry them. */
  predicate WellFormedTags(tags: seq<string>) {
    forall t | t in tags :: t != "" && Trimmed(t) && Avoids(t, TAG_SEPARATORS)
  }

  function NormalizeTags(values: seq<string>): (tags: seq<string>)
    ensures WellFormedTags(tags)
  {
    SplitAllAvoids(values);
    TrimmedTagsAvoid(SplitAll(values));
    TrimmedTags(SplitAll(values))
  }

  // ---------------------------------------------------------------- column maps

  datatype Spec =
    | Absent
    | Column(name: string)
    | Columns(names: seq<string>)
    | Detailed(constant: Option<string>, columns: seq<string>, constants: seq<string>)

  datatype ColumnMap = ColumnMap(
    sourceSystem: string, kind: Spec, name: Spec, username: Spec, password: Spec,
    url: Spec, tags: Spec, risk: Spec, notes: Spec)

  predicate Present(spec: Spec) {
    spec != Absent && spec != Column("")
  }

  predicate UsableMap(m: ColumnMap) {
    m.sourceSystem != "" && Present(m.name) && Present(m.username) && Present(m.password)
  }

  function MappedValue(row: Row, spec: Spec): string {
    match spec
    case Absent => ""
    case Column(name) => FirstOf(row, [name])
    case Columns(names) => FirstOf(row, names)
    case Detailed(Some(constant), _, _) => constant
    case Detailed(None, columns, _) => FirstOf(row, columns)
  }

  function ColumnValues(row: Row, columns: seq<string>): seq<string> {
    if columns == [] then [] else [FirstOf(row, [columns[0]])] + ColumnValues(row, columns[1..])
  }

  function MappedTags(row: Row, spec: Spec): seq<string> {
    match spec
    case Absent => NormalizeTags([])
    case Detailed(_, columns, constants) => NormalizeTags(ColumnValues(row, columns) + constants)
    case _ => NormalizeTags([MappedValue(row, spec)])
  }

  // ---------------------------------------------------------------- adapters

  datatype Format =
    | SentinelCsv | BitwardenCsv | DashlaneCsv | LastpassCsv | OnepasswordCsv
    | MappedCsv(columnMap: ColumnMap)

  function Adapt(format: Format, row: Row): Entry {
    match format
    case SentinelCsv => Entry(
      OrElse(FirstOf(row, ["type"]), "password"),
      FirstOf(row, ["name"]),
      FirstOf(row, ["username"]),
      FirstOf(row, ["password"]),
      FirstOf(row, ["url"]),
      NormalizeTags([FirstOf(row, ["tags"])]),
      OrElse(FirstOf(row, ["risk"]), "medium"),
      FirstOf(row, ["notes"]))
    case BitwardenCsv => Entry(
      OrElse(FirstOf(row, ["type"]), "password"),
      FirstOf(row, ["name", "login_name", "folder"]),
      FirstOf(row, ["login_username", "username"]),
      FirstOf(row, ["login_password", "password"]),
      FirstOf(row, ["login_uri", "url"]),
      NormalizeTags([FirstOf(row, ["folder"]), if FirstOf(row, ["favorite"]) == "1" then "favorite" else ""]),
      OrElse(FirstOf(row, ["risk"]), "medium"),
      FirstOf(row, ["notes"]))
    case DashlaneCsv => Entry(
      OrElse(FirstOf(row, ["type"]), "password"),
      FirstOf(row, ["name", "title"]),
      FirstOf(row, ["username", "login", "email"]),
      FirstOf(row, ["password"]),
      FirstOf(row, ["url", "website"]),
      NormalizeTags([FirstOf(row, ["collections"]), FirstOf(row, ["category"]), FirstOf(row, ["space"])]),
      OrElse(FirstOf(row, ["risk"]), "medium"),
      FirstOf(row, ["note", "notes"]))
    case LastpassCsv => Entry(
      OrElse(FirstOf(row, ["type"]), "password"),
      FirstOf(row, ["name", "grouping", "url"]),
      FirstOf(row, ["username"]),
      FirstOf(row, ["password"]),
      FirstOf(row, ["url"]),
      NormalizeTags([FirstOf(row, ["grouping"]), if FirstOf(row, ["fav"]) == "1" then "favorite" else ""]),
      OrElse(FirstOf(row, ["risk"]), "medium"),
      FirstOf(row, ["extra", "notes"]))
    case OnepasswordCsv => Entry(
      OrElse(FirstOf(row, ["type", "category"]), "password"),
      FirstOf(row, ["title", "name"]),
      FirstOf(row, ["username", "login_username"]),
      FirstOf(row, ["password", "login_password"]),
      FirstOf(row, ["website", "url", "login_uri"]),
      NormalizeTags([FirstOf(row, ["tags"]), FirstOf(row, ["vault"])]),
      OrElse(FirstOf(row, ["risk"]), "medium"),
      FirstOf(row, ["notes", "note"]))
    case MappedCsv(m) => Entry(
      OrElse(MappedValue(row, m.kind), "password"),
      MappedValue(row, m.name),
      MappedValue(row, m.username),
      MappedValue(row, m.password),
      MappedValue(row, m.url),
      MappedTags(row, m.tags),
      OrElse(MappedValue(row, m.risk), "medium"),
      MappedValue(row, m.notes))
  }

  // ---------------------------------------------------------------- conversion

  datatype Conversion = Conversion(rowCount: nat, entries: seq<Entry>, csv: string)

  predicate Named(e: Entry) {
    e.name != "" || e.username != "" || e.password != ""
  }

  predicate Complete(e: Entry) {
    e.name != "" && e.username != "" && e.password != ""
  }

  function AdaptAll(format: Format, rows: seq<Row>): (entries: seq<Entry>)
    ensures |entries| <= |rows|
    ensures forall e | e in entries :: Named(e) && exists row | row in rows :: e == Adapt(format, row)
  {
    if rows == [] then []
    else
      var e := Adapt(format, rows[0]);
      (if Named(e) then [e] else []) + AdaptAll(format, rows[1..])
  }

  function NormalizedCells(vaultId: string, e: Entry): Record {
    [vaultId, e.kind, e.name, e.username, e.password, e.url, Join(e.tags, ";"), e.risk, e.notes]
  }

  function NormalizedRecords(vaultId: string, entries: seq<Entry>): (r: seq<Record>)
    ensures |r| == |entries|
    ensures forall i | 0 <= i < |r| :: r[i] == NormalizedCells(vaultId, entries[i])
  {
    if entries == [] then []
    else [NormalizedCells(vaultId, entries[0])] + NormalizedRecords(vaultId, entries[1..])
  }

  /** The normalized CSV: the header line is joined without escaping. */
  function NormalizedCsv(vaultId: string, entries: seq<Entry>): string {
    Join([Join(HEADERS, ",")] + PrintLines(NormalizedRecords(vaultId, entries)), "\n") + "\n"
  }

  function Convert(format: Format, vaultId: string, raw: string): Result<Conversion> {
    if vaultId == "" then Failure("--vault-id is required")
    else if format.MappedCsv? && !UsableMap(format.columnMap) then Failure("mapping is incomplete")
    else
      var rows := ParseRows(raw);
      var entries := AdaptAll(format, rows);
      if exists e | e in entries :: !Complete(e) then Failure("row is missing name, username or password")
      else Success(Conversion(|rows|, entries, NormalizedCsv(vaultId, entries)))
  }

  /** An entry as every adapter builds it. */
  predicate AdapterEntry(e: Entry) {
    e.kind != "" && e.risk != "" && WellFormedTags(e.tags)
  }

  predicate TrimmedEntry(e: Entry) {
    && Trimmed(e.kind) && Trimmed(e.name) && Trimmed(e.username) && Trimmed(e.password)
    && Trimmed(e.url) && Trimmed(e.risk) && Trimmed(e.notes)
  }

  lemma {:induction false} TrimAvoids(s: string, chars: set<char>)
    requires Avoids(s, chars)
    ensures Avoids(Trim(s), chars)
  {
    TrimKeepsCharacters(s);
  }

  lemma {:induction false} TrimKeepsCharacters(s: string)
    ensures forall c | c in Trim(s) :: c in s
  {
    TrimStartKeepsCharacters(s);
  }

  lemma {:induction false} TrimStartKeepsCharacters(s: string)
    ensures forall c | c in TrimStart(s) :: c in s
  {
    if s != "" && IsSpace(s[0]) {
      TrimStartKeepsCharacters(s[1..]);
    }
  }

  lemma {:induction false} SplitAllAvoids(values: seq<string>)
    ensures forall p | p in SplitAll(values) :: Avoids(p, TAG_SEPARATORS)
  {
    if values != [] {
      SplitPiecesAvoidSeparators(values[0], TAG_SEPARATORS);
      SplitAllAvoids(values[1..]);
    }
  }

  lemma {:induction false} TrimmedTagsAvoid(pieces: seq<string>)
    requires forall p | p in pieces :: Avoids(p, TAG_SEPARATORS)
    ensures forall t | t in TrimmedTags(pieces) :: Avoids(t, TAG_SEPARATORS)
  {
    if pieces != [] {
      assert pieces[0] in pieces;
      TrimAvoids(pieces[0], TAG_SEPARATORS);
      TrimmedTagsAvoid(pieces[1..]);
    }
  }

  lemma {:induction false} DefaultsAreTrimmed(value: string)
    requires Trimmed(value)
    ensures Trimmed(OrElse(value, "password")) && Trimmed(OrElse(value, "medium"))
  {
  }

  /** Every adapter yields a type, a risk and clean tags; the built-in ones yield trimmed fields. */
  lemma {:induction false} AdaptersYieldEntries(format: Format, row: Row)
    ensures AdapterEntry(Adapt(format, row))
    ensures !format.MappedCsv? ==> TrimmedEntry(Adapt(format, row))
  {
    hide Trimmed, FirstOf, NormalizeTags, WellFormedTags, MappedValue;
    DefaultsAreTrimmed(FirstOf(row, ["type"]));
    DefaultsAreTrimmed(FirstOf(row, ["risk"]));
    DefaultsAreTrimmed(FirstOf(row, ["type", "category"]));
  }

  lemma {:induction false} ConvertedEntries(format: Format, vaultId: string, raw: string)
    ensures var c := Convert(format, vaultId, raw);
            c.Success? ==>
              && vaultId != ""
              && c.value.csv == NormalizedCsv(vaultId, c.value.entries)
              && forall e | e in c.value.entries ::
                   AdapterEntry(e) && Complete(e) && (!format.MappedCsv? ==> TrimmedEntry(e))
  {
    hide Adapt, AdapterEntry, TrimmedEntry, Complete, ParseRows, NormalizedCsv;
    var rows := ParseRows(raw);
    forall e | e in AdaptAll(format, rows)
      ensures AdapterEntry(e) && (!format.MappedCsv? ==> TrimmedEntry(e))
    {
      var row :| row in rows && e == Adapt(format, row);
      AdaptersYieldEntries(format, row);
    }
  }
}
