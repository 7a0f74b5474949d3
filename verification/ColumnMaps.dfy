/** Column maps, told by the cells they read: what an export becomes under a map, and the built-in formats as
    maps of their own. */
module ColumnMaps {
  import opened Text
  import opened Wrappers
  import opened CsvParser
  import opened CsvGrammar
  import opened CsvPrinter
  import opened Converter

  // ---------------------------------------------------------------- what a map reads

  /** The last column of this name, and the record's cell in it. */
  predicate ColumnAt(headers: seq<string>, cells: Record, name: string, k: nat, text: string) {
    && k < |headers| && headers[k] == name && (forall l | k < l < |headers| :: headers[l] != name)
    && text == if k < |cells| then cells[k] else ""
  }

  /** The value is the column's cell without the white space around it, or nothing where there is no column. */
  ghost predicate Reads(headers: seq<string>, cells: Record, name: string, value: string) {
    || (name !in headers && value == "")
    || (exists k: nat, text :: ColumnAt(headers, cells, name, k, text) && value == Trim(text))
  }

  /** The first of the columns that gives a value gives this one, or none gives any. */
  ghost predicate ReadsFirst(headers: seq<string>, cells: Record, names: seq<string>, value: string) {
    || (value == "" && forall n | n in names :: Reads(headers, cells, n, ""))
    || (value != "" && exists i :: FoundAt(headers, cells, names, value, i))
  }

  ghost predicate FoundAt(headers: seq<string>, cells: Record, names: seq<string>, value: string, i: int) {
    && 0 <= i < |names| && Reads(headers, cells, names[i], value)
    && forall j | 0 <= j < i :: Reads(headers, cells, names[j], "")
  }

  ghost predicate SpecReads(headers: seq<string>, cells: Record, spec: Spec, value: string) {
    match spec
    case Absent => value == ""
    case Column(name) => Reads(headers, cells, name, value)
    case Columns(names) => ReadsFirst(headers, cells, names, value)
    case Detailed(Some(constant), _, _) => value == constant
    case Detailed(None, columns, _) => ReadsFirst(headers, cells, columns, value)
  }

  /** The tags of the named columns in order, then the constant ones. */
  ghost predicate TagsRead(headers: seq<string>, cells: Record, spec: Spec, tags: seq<string>) {
    match spec
    case Detailed(_, columns, constants) =>
      exists values :: EachRead(headers, cells, columns, values) && tags == NormalizeTags(values + constants)
    case _ => exists value :: SpecReads(headers, cells, spec, value) && tags == NormalizeTags([value])
  }

  ghost predicate EachRead(headers: seq<string>, cells: Record, columns: seq<string>, values: seq<string>) {
    |values| == |columns| && forall i | 0 <= i < |columns| :: Reads(headers, cells, columns[i], values[i])
  }

  ghost predicate DefaultRead(headers: seq<string>, cells: Record, spec: Spec, default: string, value: string) {
    || (SpecReads(headers, cells, spec, value) && value != "")
    || (SpecReads(headers, cells, spec, "") && value == default)
  }

  /** The entry a record becomes under a map, field by field. */
  ghost predicate MapsTo(m: ColumnMap, headers: seq<string>, cells: Record, e: Entry) {
    && DefaultRead(headers, cells, m.kind, "password", e.kind)
    && SpecReads(headers, cells, m.name, e.name) && SpecReads(headers, cells, m.username, e.username)
    && SpecReads(headers, cells, m.password, e.password) && SpecReads(headers, cells, m.url, e.url)
    && TagsRead(headers, cells, m.tags, e.tags)
    && DefaultRead(headers, cells, m.risk, "medium", e.risk) && SpecReads(headers, cells, m.notes, e.notes)
  }

  // ---------------------------------------------------------------- reading a row

  lemma {:induction false} RowHolds(headers: seq<string>, cells: Record, name: string)
    ensures name in RowOf(headers, cells) <==> name in headers
    ensures name in headers ==>
              exists k: nat :: ColumnAt(headers, cells, name, k, RowOf(headers, cells)[name])
  {
    RowKeys(headers, cells);
    if name in headers {
      var rest := if cells == [] then [] else cells[1..];
      if name in headers[1..] {
        RowKeys(headers[1..], rest);
        RowHolds(headers[1..], rest, name);
        var k: nat :| ColumnAt(headers[1..], rest, name, k, RowOf(headers[1..], rest)[name]);
        assert forall l | k + 1 < l < |headers| :: headers[l] == headers[1..][l - 1];
        assert ColumnAt(headers, cells, name, k + 1, RowOf(headers, cells)[name]);
      } else {
        RowKeys(headers[1..], rest);
        assert headers[0] == name;
        assert forall l | 0 < l < |headers| :: headers[l] == headers[1..][l - 1];
        assert ColumnAt(headers, cells, name, 0, RowOf(headers, cells)[name]);
      }
    }
  }

  lemma {:induction false} ReadsOne(headers: seq<string>, cells: Record, name: string)
    ensures Reads(headers, cells, name, FirstOf(RowOf(headers, cells), [name]))
  {
    hide ColumnAt, RowOf, Trim;
    RowHolds(headers, cells, name);
    assert [name][1..] == [];
  }

  lemma {:induction false} ReadsMany(headers: seq<string>, cells: Record, names: seq<string>)
    ensures ReadsFirst(headers, cells, names, FirstOf(RowOf(headers, cells), names))
  {
    hide Reads, RowOf, Trim;
    if names != [] {
      var row, rest := RowOf(headers, cells), names[1..];
      ReadsOne(headers, cells, names[0]);
      ReadsMany(headers, cells, rest);
      assert [names[0]][1..] == [] && names == [names[0]] + rest;
      if Filled(row, names[0]) {
        assert FoundAt(headers, cells, names, FirstOf(row, names), 0);
      } else if FirstOf(row, rest) != "" {
        var i :| FoundAt(headers, cells, rest, FirstOf(row, rest), i);
        assert forall j | 0 < j < i + 1 :: names[j] == rest[j - 1];
        assert FoundAt(headers, cells, names, FirstOf(row, rest), i + 1);
      }
    }
  }

  lemma {:induction false} ReadsSpec(headers: seq<string>, cells: Record, spec: Spec)
    ensures SpecReads(headers, cells, spec, MappedValue(RowOf(headers, cells), spec))
  {
    hide Reads, RowOf, FirstOf, ReadsFirst;
    match spec
    case Column(name) => ReadsOne(headers, cells, name);
    case Columns(names) => ReadsMany(headers, cells, names);
    case Detailed(None, columns, _) => ReadsMany(headers, cells, columns);
    case _ =>
  }

  lemma {:induction false} ReadsEach(headers: seq<string>, cells: Record, columns: seq<string>)
    ensures EachRead(headers, cells, columns, ColumnValues(RowOf(headers, cells), columns))
  {
    hide Reads, RowOf, FirstOf;
    if columns != [] {
      ReadsOne(headers, cells, columns[0]);
      ReadsEach(headers, cells, columns[1..]);
    }
  }

  lemma {:induction false} ReadsTags(headers: seq<string>, cells: Record, spec: Spec)
    ensures TagsRead(headers, cells, spec, MappedTags(RowOf(headers, cells), spec))
  {
    assert SpecReads(headers, cells, Absent, "");
    hide SpecReads, RowOf, MappedValue, EachRead, NormalizeTags;
    match spec
    case Detailed(_, columns, constants) => ReadsEach(headers, cells, columns);
    case Absent => NoTags();
    case _ => ReadsSpec(headers, cells, spec);
  }

  lemma {:induction false} NoTags()
    ensures NormalizeTags([""]) == NormalizeTags([]) == []
  {
    assert [""][1..] == [] && SplitAll([]) == [] && SplitOn("", TAG_SEPARATORS) == [""];
    assert SplitAll([""]) == [""];
  }

  lemma {:induction false} AdaptMapped(m: ColumnMap, headers: seq<string>, cells: Record)
    ensures MapsTo(m, headers, cells, Adapt(MappedCsv(m), RowOf(headers, cells)))
  {
    hide SpecReads, RowOf, MappedValue, TagsRead, MappedTags;
    ReadsSpec(headers, cells, m.kind);
    ReadsSpec(headers, cells, m.name);
    ReadsSpec(headers, cells, m.username);
    ReadsSpec(headers, cells, m.password);
    ReadsSpec(headers, cells, m.url);
    ReadsTags(headers, cells, m.tags);
    ReadsSpec(headers, cells, m.risk);
    ReadsSpec(headers, cells, m.notes);
  }

  // ---------------------------------------------------------------- tags

  lemma {:induction false} SplitAllAppend(a: seq<string>, b: seq<string>)
    ensures SplitAll(a + b) == SplitAll(a) + SplitAll(b)
  {
    if a == [] {
      assert a + b == b;
    } else {
      assert (a + b)[1..] == a[1..] + b;
      SplitAllAppend(a[1..], b);
    }
  }

  lemma {:induction false} TrimmedTagsAppend(a: seq<string>, b: seq<string>)
    ensures TrimmedTags(a + b) == TrimmedTags(a) + TrimmedTags(b)
  {
    if a == [] {
      assert a + b == b;
    } else {
      assert (a + b)[1..] == a[1..] + b;
      TrimmedTagsAppend(a[1..], b);
    }
  }

  /** The tags of several values are those of each, one after the other. */
  lemma {:induction false} TagsAppend(a: seq<string>, b: seq<string>)
    ensures NormalizeTags(a + b) == NormalizeTags(a) + NormalizeTags(b)
  {
    SplitAllAppend(a, b);
    TrimmedTagsAppend(SplitAll(a), SplitAll(b));
  }

  /** A semicolon or a comma ends a tag; a text without one is a tag, trimmed, unless it is blank. */
  lemma {:induction false} TagsOfText(a: string, separator: char, b: string)
    requires separator == ';' || separator == ','
    ensures NormalizeTags([a + [separator] + b]) == NormalizeTags([a]) + NormalizeTags([b])
    ensures ';' !in a && ',' !in a ==> NormalizeTags([a]) == if Blank(a) then [] else [Trim(a)]
  {
    SplitAtSeparator(a, separator, b, TAG_SEPARATORS);
    TrimmedTagsAppend(SplitOn(a, TAG_SEPARATORS), SplitOn(b, TAG_SEPARATORS));
    OneValue(a);
    OneValue(b);
    OneValue(a + [separator] + b);
    if ';' !in a && ',' !in a {
      SplitOfPrefix(a, "", TAG_SEPARATORS);
      assert a + "" == a && SplitOn("", TAG_SEPARATORS) == [""];
      assert SplitOn(a, TAG_SEPARATORS) == [a] && [a][1..] == [];
    }
  }

  lemma {:induction false} OneValue(a: string)
    ensures SplitAll([a]) == SplitOn(a, TAG_SEPARATORS)
  {
    assert [a][1..] == [];
  }

  lemma {:induction false} SplitAtSeparator(a: string, separator: char, b: string, separators: set<char>)
    requires separator in separators
    ensures SplitOn(a + [separator] + b, separators) == SplitOn(a, separators) + SplitOn(b, separators)
  {
    var s := a + [separator] + b;
    if a == "" {
      assert s[1..] == b;
    } else {
      assert s[1..] == a[1..] + [separator] + b;
      SplitAtSeparator(a[1..], separator, b, separators);
    }
  }

  // ---------------------------------------------------------------- conversion under a map

  predicate Unnamed(e: Entry) {
    e.name == "" && e.username == "" && e.password == ""
  }

  /** The rows that name something, in order. */
  function Chosen(rows: seq<Entry>): seq<Entry> {
    if rows == [] then [] else (if Unnamed(rows[0]) then [] else [rows[0]]) + Chosen(rows[1..])
  }

  lemma {:induction false} AdaptChooses(format: Format, rows: seq<Row>) returns (entries: seq<Entry>)
    ensures |entries| == |rows| && forall i | 0 <= i < |rows| :: entries[i] == Adapt(format, rows[i])
    ensures AdaptAll(format, rows) == Chosen(entries)
    ensures forall e :: e in AdaptAll(format, rows) <==> e in entries && !Unnamed(e)
  {
    hide Adapt;
    entries := [];
    if rows != [] {
      var rest := AdaptChooses(format, rows[1..]);
      entries := [Adapt(format, rows[0])] + rest;
      assert entries[1..] == rest;
    }
  }

  // ---------------------------------------------------------------- the built-in formats as maps

  /** The columns each built-in format reads, in the order it tries them. */
  function MapOf(format: Format): ColumnMap {
    match format
    case SentinelCsv => ColumnMap("sentinel", Column("type"), Column("name"), Column("username"), Column("password"),
      Column("url"), Column("tags"), Column("risk"), Column("notes"))
    case BitwardenCsv => ColumnMap("bitwarden", Column("type"), Columns(["name", "login_name", "folder"]),
      Columns(["login_username", "username"]), Columns(["login_password", "password"]), Columns(["login_uri", "url"]),
      Column("folder"), Column("risk"), Column("notes"))
    case DashlaneCsv => ColumnMap("dashlane", Column("type"), Columns(["name", "title"]),
      Columns(["username", "login", "email"]), Column("password"), Columns(["url", "website"]),
      Detailed(None, ["collections", "category", "space"], []), Column("risk"), Columns(["note", "notes"]))
    case LastpassCsv => ColumnMap("lastpass", Column("type"), Columns(["name", "grouping", "url"]),
      Column("username"), Column("password"), Column("url"), Column("grouping"), Column("risk"),
      Columns(["extra", "notes"]))
    case OnepasswordCsv => ColumnMap("1password", Columns(["type", "category"]), Columns(["title", "name"]),
      Columns(["username", "login_username"]), Columns(["password", "login_password"]),
      Columns(["website", "url", "login_uri"]), Detailed(None, ["tags", "vault"], []), Column("risk"),
      Columns(["notes", "note"]))
    case MappedCsv(m) => m
  }

  /** The column in which a vendor marks favourites with 1. */
  function FavoriteColumn(format: Format): Option<string> {
    match format
    case BitwardenCsv => Some("favorite")
    case LastpassCsv => Some("fav")
    case _ => None
  }

  lemma {:induction false} ReadsUnique(headers: seq<string>, cells: Record, name: string, v: string, w: string)
    requires Reads(headers, cells, name, v) && Reads(headers, cells, name, w)
    ensures v == w
  {
    hide Trim;
    if name in headers {
      var k: nat, t :| ColumnAt(headers, cells, name, k, t) && v == Trim(t);
      var l: nat, u :| ColumnAt(headers, cells, name, l, u) && w == Trim(u);
      assert k == l;
    }
  }

  lemma {:induction false} SameFields(format: Format, row: Row)
    ensures Adapt(format, row).(tags := []) == Adapt(MappedCsv(MapOf(format)), row).(tags := [])
  {
    hide FirstOf, NormalizeTags, MappedTags;
  }

  lemma {:induction false} FavoriteTag()
    ensures NormalizeTags(["favorite"]) == ["favorite"]
  {
    hide Trim, NormalizeTags;
    var s := "favorite";
    TrimFixesTrimmed(s);
    TagsOfText(s, ';', "");
  }

  /** The tags a format's map reads. */
  function MapTags(format: Format, row: Row): seq<string> {
    MappedTags(row, MapOf(format).tags)
  }

  lemma {:induction false} SameTags(format: Format, row: Row)
    ensures var favorite := FavoriteColumn(format).Some? && FirstOf(row, [FavoriteColumn(format).value]) == "1";
            Adapt(format, row).tags == MapTags(format, row) + if favorite then ["favorite"] else []
  {
    hide FirstOf, NormalizeTags;
    FavoriteTag();
    NoTags();
    match format
    case BitwardenCsv =>
      TagsAppend([FirstOf(row, ["folder"])], [FavoriteText(row, "favorite")]);
      assert [FirstOf(row, ["folder"])] + [FavoriteText(row, "favorite")]
          == [FirstOf(row, ["folder"]), FavoriteText(row, "favorite")];
    case LastpassCsv =>
      TagsAppend([FirstOf(row, ["grouping"])], [FavoriteText(row, "fav")]);
      assert [FirstOf(row, ["grouping"])] + [FavoriteText(row, "fav")]
          == [FirstOf(row, ["grouping"]), FavoriteText(row, "fav")];
    case DashlaneCsv =>
      assert ["collections", "category", "space"][1..] == ["category", "space"];
      assert ["category", "space"][1..] == ["space"] && ["space"][1..] == [];
      assert ColumnValues(row, ["space"]) == [FirstOf(row, ["space"])];
      assert ColumnValues(row, ["category", "space"]) == [FirstOf(row, ["category"]), FirstOf(row, ["space"])];
      assert ColumnValues(row, ["collections", "category", "space"]) + []
          == [FirstOf(row, ["collections"]), FirstOf(row, ["category"]), FirstOf(row, ["space"])];
    case OnepasswordCsv =>
      assert ["tags", "vault"][1..] == ["vault"] && ["vault"][1..] == [];
      assert ColumnValues(row, ["vault"]) == [FirstOf(row, ["vault"])];
      assert ColumnValues(row, ["tags", "vault"]) + [] == [FirstOf(row, ["tags"]), FirstOf(row, ["vault"])];
    case _ =>
  }

  function FavoriteText(row: Row, column: string): string {
    if FirstOf(row, [column]) == "1" then "favorite" else ""
  }

  /** A record is read as the format's map says, with one more tag for a favourite. */
  ghost predicate ReadsAs(format: Format, headers: seq<string>, cells: Record, e: Entry) {
    exists tags :: ReadsWithTags(format, headers, cells, e, tags)
  }

  ghost predicate ReadsWithTags(format: Format, headers: seq<string>, cells: Record, e: Entry, tags: seq<string>) {
    var column := FavoriteColumn(format);
    && MapsTo(MapOf(format), headers, cells, e.(tags := tags))
    && e.tags == tags + if column.Some? && Reads(headers, cells, column.value, "1") then ["favorite"] else []
  }

  lemma {:induction false} AdaptReads(format: Format, headers: seq<string>, cells: Record)
    ensures ReadsAs(format, headers, cells, Adapt(format, RowOf(headers, cells)))
  {
    hide Adapt, RowOf, MapOf, FirstOf, MapsTo, Reads;
    var row := RowOf(headers, cells);
    SameFields(format, row);
    SameTags(format, row);
    AdaptMapped(MapOf(format), headers, cells);
    MappedFields(MapOf(format), row);
    var e := Adapt(format, row);
    assert e.(tags := MapTags(format, row)) == Adapt(MappedCsv(MapOf(format)), row);
    if FavoriteColumn(format).Some? {
      var column := FavoriteColumn(format).value;
      ReadsOne(headers, cells, column);
      if Reads(headers, cells, column, "1") {
        ReadsUnique(headers, cells, column, "1", FirstOf(row, [column]));
      }
    }
    assert ReadsWithTags(format, headers, cells, e, MapTags(format, row));
  }

  lemma {:induction false} MappedFields(m: ColumnMap, row: Row)
    ensures Adapt(MappedCsv(m), row).tags == MappedTags(row, m.tags)
  {
  }

  /** The map has a source system and says where names, user names and passwords come from. */
  predicate NamesColumns(m: ColumnMap) {
    && m.sourceSystem != ""
    && m.name != Absent && m.username != Absent && m.password != Absent
    && m.name != Column("") && m.username != Column("") && m.password != Column("")
  }

  lemma {:induction false} UsableExactly(m: ColumnMap)
    ensures UsableMap(m) <==> NamesColumns(m)
  {
  }

  /** Whatever the headers, the cells and their order, an export in any format becomes what the format reads of
      each record with content; records without name, user name and password are left out, and a record with
      some of them but not all makes the conversion fail. */
  lemma {:induction false} ExportConverts(
      format: Format, vaultId: string, headers: seq<string>, records: seq<Record>) returns (rows: seq<Entry>)
    requires vaultId != "" && HasContent(headers)
    ensures var kept := NonBlank(records);
            |rows| == |kept| && forall i | 0 <= i < |kept| :: ReadsAs(format, TrimAll(headers), kept[i], rows[i])
    ensures var c := Convert(format, vaultId, PrintCsv([headers] + records));
            && (c.Success? <==> (format.MappedCsv? ==> NamesColumns(format.columnMap))
                                && forall e | e in rows :: Unnamed(e) || Complete(e))
            && (c.Success? ==>
                  c.value == Conversion(|NonBlank(records)|, Chosen(rows), NormalizedCsv(vaultId, Chosen(rows))))
  {
    hide Adapt, ReadsAs, NormalizedCsv, RowOf, HasContent, PrintCsv, UsableMap, NamesColumns;
    if format.MappedCsv? {
      UsableExactly(format.columnMap);
    }
    var kept := NonBlank(records);
    PrintThenParse([headers] + records);
    NonBlankCons(headers, records);
    assert ([headers] + kept)[1..] == kept;
    rows := AdaptChooses(format, RowsOf(TrimAll(headers), kept));
    forall i | 0 <= i < |kept|
      ensures ReadsAs(format, TrimAll(headers), kept[i], rows[i])
    {
      AdaptReads(format, TrimAll(headers), kept[i]);
    }
  }

  /** The map of each import column to itself converts every file as the import format does. */
  lemma {:induction false} ImportMapIsImportFormat(vaultId: string, raw: string)
    ensures Convert(MappedCsv(MapOf(SentinelCsv)), vaultId, raw) == Convert(SentinelCsv, vaultId, raw)
  {
    hide ParseRows, NormalizedCsv, Complete, Adapt;
    forall row
      ensures Adapt(MappedCsv(MapOf(SentinelCsv)), row) == Adapt(SentinelCsv, row)
    {
      ImportRowSame(row);
    }
    SameAdapted(MappedCsv(MapOf(SentinelCsv)), SentinelCsv, ParseRows(raw));
  }

  lemma {:induction false} ImportRowSame(row: Row)
    ensures Adapt(MappedCsv(MapOf(SentinelCsv)), row) == Adapt(SentinelCsv, row)
  {
    hide FirstOf, NormalizeTags;
  }

  lemma {:induction false} SameAdapted(f: Format, g: Format, rows: seq<Row>)
    requires forall row :: Adapt(f, row) == Adapt(g, row)
    ensures AdaptAll(f, rows) == AdaptAll(g, rows)
  {
    hide Adapt;
    if rows != [] {
      SameAdapted(f, g, rows[1..]);
    }
  }
}
