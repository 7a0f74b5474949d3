/** The bulk secret import: a field map turns CSV rows into one payload for one vault. */
module BulkImport {
  import opened Text
  import opened Wrappers
  import opened CsvParser
  import opened CsvPrinter
  import opened Converter
  import opened ImportValidator
  import opened Reconversion
  import opened ColumnMaps
  import opened CsvGrammar

  datatype Mapping = Mapping(
    fieldMap: map<string, string>, defaultVaultId: string, tagSeparator: Option<char>,
    riskMapping: map<string, string>)

  datatype Item = Item(vaultId: string, entry: Entry)

  datatype Payload = Payload(vaultId: string, entries: seq<Entry>)

  /** row[mapping.fieldMap[target]] || "": an unmapped target reads the column named "undefined". */
  function Field(m: Mapping, row: Row, target: string): string {
    Cell(row, if target in m.fieldMap then m.fieldMap[target] else "undefined")
  }

  function MappedRisk(m: Mapping, lower: string -> string, risk: string): string {
    var key := lower(risk);
    OrElse(if key in m.riskMapping then m.riskMapping[key] else "", OrElse(risk, "medium"))
  }

  function ReadItem(m: Mapping, lower: string -> string, row: Row): Item {
    Item(
      OrElse(Field(m, row, "vaultId"), m.defaultVaultId),
      Entry(
        OrElse(Field(m, row, "type"), "password"), Field(m, row, "name"), Field(m, row, "username"),
        Field(m, row, "password"), Field(m, row, "url"),
        TrimmedTags(SplitOn(Field(m, row, "tags"), {m.tagSeparator.GetOr(';')})),
        MappedRisk(m, lower, Field(m, row, "risk")), Field(m, row, "notes")))
  }

  function ReadItems(m: Mapping, lower: string -> string, rows: seq<Row>): (items: seq<Item>)
    ensures |items| == |rows|
    ensures forall i | 0 <= i < |items| :: items[i] == ReadItem(m, lower, rows[i])
  {
    if rows == [] then [] else [ReadItem(m, lower, rows[0])] + ReadItems(m, lower, rows[1..])
  }

  function EntriesOf(items: seq<Item>): (entries: seq<Entry>)
    ensures |entries| == |items|
    ensures forall i | 0 <= i < |items| :: entries[i] == items[i].entry
  {
    if items == [] then [] else [items[0].entry] + EntriesOf(items[1..])
  }

  function VaultsOf(items: seq<Item>): set<string> {
    set item | item in items :: item.vaultId
  }

  function Prepare(m: Mapping, lower: string -> string, text: string): Result<Payload> {
    Checked(ReadItems(m, lower, ParseRows(text)))
  }

  function Checked(items: seq<Item>): Result<Payload> {
    if exists item | item in items :: item.vaultId == "" || !Complete(item.entry) then Failure("row is missing a field")
    else if |VaultsOf(items)| != 1 then Failure("payload must target exactly one vaultId")
    else Success(Payload(items[0].vaultId, EntriesOf(items)))
  }

  predicate IdentityFields(m: Mapping) {
    && (forall h | h in HEADERS :: h in m.fieldMap && m.fieldMap[h] == h)
    && m.tagSeparator.GetOr(';') == ';'
  }

  /** The risk mapping is absent or maps the risk to itself. */
  predicate KeepsRisk(m: Mapping, lower: string -> string, risk: string) {
    lower(risk) in m.riskMapping ==> m.riskMapping[lower(risk)] == "" || m.riskMapping[lower(risk)] == risk
  }

  lemma {:induction false} FieldsOfEntry(m: Mapping, vaultId: string, e: Entry)
    requires IdentityFields(m)
    ensures var row := RowOf(HEADERS, NormalizedCells(vaultId, e));
            && Field(m, row, "vaultId") == vaultId && Field(m, row, "type") == e.kind
            && Field(m, row, "name") == e.name && Field(m, row, "username") == e.username
            && Field(m, row, "password") == e.password && Field(m, row, "url") == e.url
            && Field(m, row, "tags") == Join(e.tags, ";") && Field(m, row, "risk") == e.risk
            && Field(m, row, "notes") == e.notes
  {
    hide RowOf, NormalizedCells;
    RowOfEntry(vaultId, e);
    assert HEADERS[0] in HEADERS && HEADERS[1] in HEADERS && HEADERS[2] in HEADERS && HEADERS[3] in HEADERS
        && HEADERS[4] in HEADERS && HEADERS[5] in HEADERS && HEADERS[6] in HEADERS && HEADERS[7] in HEADERS
        && HEADERS[8] in HEADERS;
  }

  lemma {:induction false} ReadNormalized(m: Mapping, lower: string -> string, vaultId: string, e: Entry)
    requires IdentityFields(m) && AdapterEntry(e) && vaultId != "" && KeepsRisk(m, lower, e.risk)
    ensures ReadItem(m, lower, RowOf(HEADERS, NormalizedCells(vaultId, e))) == Item(vaultId, e)
  {
    hide RowOf, NormalizedCells, Field, SplitOn, TrimmedTags;
    FieldsOfEntry(m, vaultId, e);
    SplitNormalizedTags(e.tags);
  }

  lemma {:induction false} SplitNormalizedTags(tags: seq<string>)
    requires WellFormedTags(tags)
    ensures TrimmedTags(SplitOn(Join(tags, ";"), {';'})) == tags
  {
    TagsSurvive(tags);
    if tags == [] {
      assert SplitOn("", {';'}) == [""];
    }
  }

  lemma {:induction false} AllItems(m: Mapping, lower: string -> string, vaultId: string, entries: seq<Entry>)
    requires IdentityFields(m) && vaultId != ""
    requires forall e | e in entries :: AdapterEntry(e) && KeepsRisk(m, lower, e.risk)
    ensures var items := ReadItems(m, lower, RowsOf(HEADERS, NormalizedRecords(vaultId, entries)));
            && EntriesOf(items) == entries && |items| == |entries|
            && forall i | 0 <= i < |items| :: items[i] == Item(vaultId, entries[i])
  {
    hide RowOf, NormalizedCells, ReadItem, HEADERS, AdapterEntry, KeepsRisk, IdentityFields;
    var rows := RowsOf(HEADERS, NormalizedRecords(vaultId, entries));
    forall i | 0 <= i < |entries|
      ensures ReadItem(m, lower, rows[i]) == Item(vaultId, entries[i])
    {
      assert entries[i] in entries;
      ReadNormalized(m, lower, vaultId, entries[i]);
    }
  }

  /** The bulk import of the converter's output, with an identity field map, passes the single-vault
      check exactly when there is an entry, and yields the same entries in the same order. */
  lemma {:induction false} BulkImportPreserves(format: Format, vaultId: string, raw: string, m: Mapping,
        lower: string -> string)
    requires IdentityFields(m)
    ensures match Convert(format, vaultId, raw)
            case Failure(_) => true
            case Success(c) =>
              && (!Blank(vaultId) || !format.MappedCsv?)
              && (forall e | e in c.entries :: KeepsRisk(m, lower, e.risk))
              ==>
              var prepared := Prepare(m, lower, c.csv);
              && (prepared.Success? <==> c.entries != [])
              && (prepared.Success? ==> prepared.value == Payload(vaultId, c.entries))
  {
    hide Convert, Prepare, NormalizedCsv, AdapterEntry, Complete, TrimmedEntry, KeepsRisk, IdentityFields;
    match Convert(format, vaultId, raw)
    case Failure(_) =>
    case Success(c) =>
      ConvertedEntries(format, vaultId, raw);
      if && (!Blank(vaultId) || !format.MappedCsv?)
         && (forall e | e in c.entries :: KeepsRisk(m, lower, e.risk))
      {
        if Blank(vaultId) {
          TrimmedRecordsHaveContent(vaultId, c.entries);
        } else {
          VaultKeepsRecords(vaultId, c.entries);
        }
        PreparedEntries(m, lower, vaultId, c.entries);
      }
  }

  lemma {:induction false} PreparedEntries(m: Mapping, lower: string -> string, vaultId: string, entries: seq<Entry>)
    requires IdentityFields(m) && vaultId != ""
    requires forall e | e in entries :: AdapterEntry(e) && Complete(e) && KeepsRisk(m, lower, e.risk)
    requires NonBlank(NormalizedRecords(vaultId, entries)) == NormalizedRecords(vaultId, entries)
    ensures var prepared := Prepare(m, lower, NormalizedCsv(vaultId, entries));
            && (prepared.Success? <==> entries != [])
            && (prepared.Success? ==> prepared.value == Payload(vaultId, entries))
  {
    hide ParseRows, NormalizedCsv, AdapterEntry, Complete, KeepsRisk, IdentityFields, HEADERS, NonBlank, RowOf,
      ReadItem, ReadItems, Checked, RowsOf, NormalizedRecords;
    RowsOfNormalized(vaultId, entries);
    AllItems(m, lower, vaultId, entries);
    CheckedEntries(ReadItems(m, lower, RowsOf(HEADERS, NormalizedRecords(vaultId, entries))), vaultId, entries);
  }

  lemma {:induction false} CheckedEntries(items: seq<Item>, vaultId: string, entries: seq<Entry>)
    requires vaultId != "" && |items| == |entries| && EntriesOf(items) == entries
    requires forall i | 0 <= i < |items| :: items[i] == Item(vaultId, entries[i])
    requires forall e | e in entries :: Complete(e)
    ensures Checked(items).Success? <==> entries != []
    ensures Checked(items).Success? ==> Checked(items).value == Payload(vaultId, entries)
  {
    hide Complete, EntriesOf;
    assert forall i | 0 <= i < |items| :: entries[i] in entries;
    if entries == [] {
      assert VaultsOf(items) == {};
    } else {
      assert items[0] in items;
      assert VaultsOf(items) == {vaultId};
    }
  }

  // ---------------------------------------------------------------- any file, under any field map

  /** The record's cell in the last column of this name, or nothing where there is no such column. */
  ghost predicate CellIs(headers: seq<string>, cells: Record, name: string, text: string) {
    if name in headers then exists k: nat :: ColumnAt(headers, cells, name, k, text) else text == ""
  }

  /** The text of the column that the map names for a target, or of the column "undefined". */
  ghost predicate FieldIs(m: Mapping, headers: seq<string>, cells: Record, target: string, text: string) {
    CellIs(headers, cells, if target in m.fieldMap then m.fieldMap[target] else "undefined", text)
  }

  ghost predicate FieldOrElse(
    m: Mapping, headers: seq<string>, cells: Record, target: string, default: string, text: string)
  {
    || (text != "" && FieldIs(m, headers, cells, target, text))
    || (text == default && FieldIs(m, headers, cells, target, ""))
  }

  /** The risk the map gives to the lower-case text, or else the text, or else medium. */
  predicate RiskIs(m: Mapping, lower: string -> string, text: string, risk: string) {
    if lower(text) in m.riskMapping && m.riskMapping[lower(text)] != "" then risk == m.riskMapping[lower(text)]
    else if text != "" then risk == text
    else risk == "medium"
  }

  ghost predicate ItemReads(m: Mapping, lower: string -> string, headers: seq<string>, cells: Record, item: Item) {
    var e := item.entry;
    && FieldOrElse(m, headers, cells, "vaultId", m.defaultVaultId, item.vaultId)
    && FieldOrElse(m, headers, cells, "type", "password", e.kind)
    && FieldIs(m, headers, cells, "name", e.name) && FieldIs(m, headers, cells, "username", e.username)
    && FieldIs(m, headers, cells, "password", e.password) && FieldIs(m, headers, cells, "url", e.url)
    && (exists text :: FieldIs(m, headers, cells, "tags", text)
                       && e.tags == TrimmedTags(SplitOn(text, {m.tagSeparator.GetOr(';')})))
    && (exists text :: FieldIs(m, headers, cells, "risk", text) && RiskIs(m, lower, text, e.risk))
    && FieldIs(m, headers, cells, "notes", e.notes)
  }

  lemma {:induction false} FieldReads(m: Mapping, headers: seq<string>, cells: Record, target: string)
    ensures FieldIs(m, headers, cells, target, Field(m, RowOf(headers, cells), target))
  {
    CellReads(headers, cells, if target in m.fieldMap then m.fieldMap[target] else "undefined");
    hide CellIs, RowOf;
  }

  lemma {:induction false} CellReads(headers: seq<string>, cells: Record, name: string)
    ensures CellIs(headers, cells, name, Cell(RowOf(headers, cells), name))
  {
    hide ColumnAt, RowOf;
    RowHolds(headers, cells, name);
  }

  lemma {:induction false} ItemRead(m: Mapping, lower: string -> string, headers: seq<string>, cells: Record)
    ensures ItemReads(m, lower, headers, cells, ReadItem(m, lower, RowOf(headers, cells)))
  {
    hide FieldIs, Field, RowOf, SplitOn, TrimmedTags;
    FieldReads(m, headers, cells, "vaultId");
    FieldReads(m, headers, cells, "type");
    FieldReads(m, headers, cells, "name");
    FieldReads(m, headers, cells, "username");
    FieldReads(m, headers, cells, "password");
    FieldReads(m, headers, cells, "url");
    FieldReads(m, headers, cells, "tags");
    FieldReads(m, headers, cells, "risk");
    FieldReads(m, headers, cells, "notes");
  }

  /** Every item is for this vault and has a name, a user name and a password. */
  predicate OneVault(items: seq<Item>, vaultId: string) {
    && vaultId != ""
    && forall i | 0 <= i < |items| ::
         items[i].vaultId == vaultId && items[i].entry.name != "" && items[i].entry.username != ""
         && items[i].entry.password != ""
  }

  lemma {:induction false} CheckedExactly(items: seq<Item>)
    ensures Checked(items).Success? <==> items != [] && OneVault(items, items[0].vaultId)
    ensures Checked(items).Success? ==> Checked(items).value == Payload(items[0].vaultId, EntriesOf(items))
  {
    hide EntriesOf;
    var vaults := VaultsOf(items);
    if items != [] {
      assert items[0] in items && items[0].vaultId in vaults;
      if |vaults| == 1 {
        SingletonOf(vaults, items[0].vaultId);
        assert forall i | 0 <= i < |items| :: items[i].vaultId in vaults;
      }
      if OneVault(items, items[0].vaultId) {
        assert vaults == {items[0].vaultId};
      }
    }
  }

  lemma {:induction false} SingletonOf(names: set<string>, name: string)
    requires |names| == 1 && name in names
    ensures names == {name}
  {
    assert |names - {name}| == 0;
  }

  /** Whatever the field map and the file, the payload has one item for each record with content, read as the
      map says; the preparation succeeds exactly when there is a record and all of them are complete and for the
      same vault. */
  lemma {:induction false} PrepareExactly(
      m: Mapping, lower: string -> string, headers: seq<string>, records: seq<Record>) returns (items: seq<Item>)
    requires HasContent(headers)
    ensures var kept := NonBlank(records);
            |items| == |kept| && forall i | 0 <= i < |kept| :: ItemReads(m, lower, TrimAll(headers), kept[i], items[i])
    ensures var prepared := Prepare(m, lower, PrintCsv([headers] + records));
            && (prepared.Success? <==> items != [] && OneVault(items, items[0].vaultId))
            && (prepared.Success? ==> prepared.value == Payload(items[0].vaultId, EntriesOf(items)))
  {
    hide ReadItem, ItemReads, Checked, RowOf, HasContent, PrintCsv, EntriesOf;
    var kept := NonBlank(records);
    PrintThenParse([headers] + records);
    NonBlankCons(headers, records);
    assert ([headers] + kept)[1..] == kept;
    items := ReadItems(m, lower, RowsOf(TrimAll(headers), kept));
    CheckedExactly(items);
    forall i | 0 <= i < |kept|
      ensures ItemReads(m, lower, TrimAll(headers), kept[i], items[i])
    {
      ItemRead(m, lower, TrimAll(headers), kept[i]);
    }
  }
}
