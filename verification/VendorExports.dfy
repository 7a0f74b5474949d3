/** Exports of four password managers, and what the converter makes of them. */
module VendorExports {
  import opened Text
  import opened Wrappers
  import opened CsvParser
  import opened CsvPrinter
  import opened Converter
  import opened ImportValidator

  /** A stored login, as the texts of an export's cells; other columns hold whatever `other` says. */
  datatype Login = Login(
    kind: string, name: string, username: string, password: string, url: string, notes: string,
    folder: string, labels: string, favorite: string, other: string -> string)

  predicate IsVendor(format: Format) {
    !format.SentinelCsv? && !format.MappedCsv?
  }

  /** The columns of each export that the converter reads. */
  function VendorColumns(format: Format): seq<string>
    requires IsVendor(format)
  {
    match format
    case BitwardenCsv => ["folder", "favorite", "type", "name", "notes", "login_uri", "login_username",
        "login_password"]
    case DashlaneCsv => ["name", "url", "username", "password", "note", "category", "collections"]
    case LastpassCsv => ["url", "username", "password", "extra", "name", "grouping", "fav"]
    case OnepasswordCsv => ["title", "website", "username", "password", "notes", "tags", "vault"]
  }

  /** Columns the converter would prefer, or fall back on for an empty cell, and that the export does not have. */
  function AbsentColumns(format: Format): seq<string>
    requires IsVendor(format)
  {
    match format
    case BitwardenCsv => ["url", "risk"]
    case DashlaneCsv => ["type", "risk", "website", "space", "notes"]
    case LastpassCsv => ["type", "risk", "notes"]
    case OnepasswordCsv => ["type", "category", "risk", "url", "login_uri", "note"]
  }

  /** What a login puts under a column the converter reads. */
  function VendorCells(format: Format, l: Login): (cells: Record)
    requires IsVendor(format)
    ensures |cells| == |VendorColumns(format)|
  {
    match format
    case BitwardenCsv => [l.folder, l.favorite, l.kind, l.name, l.notes, l.url, l.username, l.password]
    case DashlaneCsv => [l.name, l.url, l.username, l.password, l.notes, l.folder, l.labels]
    case LastpassCsv => [l.url, l.username, l.password, l.notes, l.name, l.folder, l.favorite]
    case OnepasswordCsv => [l.name, l.url, l.username, l.password, l.notes, l.labels, l.folder]
  }

  /** The headers of an export: the vendor's columns in any order, and any further ones. */
  predicate IsExport(format: Format, headers: seq<string>)
    requires IsVendor(format)
  {
    && Distinct(headers) && (forall h | h in headers :: Trimmed(h))
    && (forall c | c in VendorColumns(format) :: c in headers)
    && (forall c | c in AbsentColumns(format) :: c !in headers)
  }

  /** The cell of a login under a header. */
  ghost function CellUnder(format: Format, l: Login, header: string): string
    requires IsVendor(format)
  {
    if i :| 0 <= i < |VendorColumns(format)| && VendorColumns(format)[i] == header then VendorCells(format, l)[i]
    else l.other(header)
  }

  ghost function ExportCells(format: Format, headers: seq<string>, l: Login): (cells: Record)
    requires IsVendor(format)
    ensures |cells| == |headers|
  {
    seq(|headers|, i requires 0 <= i < |headers| => CellUnder(format, l, headers[i]))
  }

  /** The entry a login becomes. */
  function ExpectedEntry(format: Format, l: Login): Entry {
    Entry(
      if format.BitwardenCsv? then OrElse(Trim(l.kind), "password") else "password",
      Trim(l.name), Trim(l.username), Trim(l.password), Trim(l.url),
      if format.BitwardenCsv? || format.LastpassCsv?
      then NormalizeTags([Trim(l.folder), if Trim(l.favorite) == "1" then "favorite" else ""])
      else NormalizeTags([Trim(l.labels), Trim(l.folder)]),
      "medium", Trim(l.notes))
  }

  predicate ValidLogin(l: Login) {
    !Blank(l.name) && !Blank(l.username) && !Blank(l.password)
  }

  // ---------------------------------------------------------------- reading one row

  lemma {:induction false} OnlyColumn(row: Row, names: seq<string>, value: string)
    requires names != [] && names[0] in row && row[names[0]] == value
    requires Blank(value) ==> forall i | 1 <= i < |names| :: names[i] !in row
    ensures FirstOf(row, names) == Trim(value)
  {
    if Blank(value) {
      NoColumn(row, names[1..]);
    }
  }

  lemma {:induction false} NoColumn(row: Row, names: seq<string>)
    requires forall n | n in names :: n !in row
    ensures FirstOf(row, names) == ""
  {
    if names != [] {
      NoColumn(row, names[1..]);
    }
  }

  lemma {:induction false} EmptyTagLast(first: string, second: string)
    ensures NormalizeTags([first, second, ""]) == NormalizeTags([first, second])
  {
    assert [first, second, ""][1..][1..][1..] == [first, second][1..][1..] == [];
    assert [first, second, ""][1..] == [second, ""] && [first, second][1..] == [second];
    assert [second, ""][1..] == [""] && [second][1..] == [] && [""][1..] == [];
    assert SplitOn("", TAG_SEPARATORS) == [""];
    assert SplitAll([""]) == [""];
    var front := SplitOn(first, TAG_SEPARATORS) + SplitOn(second, TAG_SEPARATORS);
    assert SplitAll([first, second, ""]) == front + [""];
    assert SplitAll([first, second]) == front;
    BlankPieceLast(front);
  }

  lemma {:induction false} BlankPieceLast(pieces: seq<string>)
    ensures TrimmedTags(pieces + [""]) == TrimmedTags(pieces)
  {
    if pieces != [] {
      assert (pieces + [""])[1..] == pieces[1..] + [""];
      BlankPieceLast(pieces[1..]);
    }
  }

  /** The row of an exported login: its cells under the vendor's columns, nothing under the absent ones. */
  lemma {:induction false} ExportedRow(format: Format, headers: seq<string>, l: Login)
    requires IsVendor(format) && IsExport(format, headers) && Distinct(VendorColumns(format))
    ensures var row := RowOf(headers, ExportCells(format, headers, l));
            && (forall i | 0 <= i < |VendorColumns(format)| ::
                  VendorColumns(format)[i] in row && row[VendorColumns(format)[i]] == VendorCells(format, l)[i])
            && (forall i | 0 <= i < |AbsentColumns(format)| :: AbsentColumns(format)[i] !in row)
  {
    hide VendorColumns, AbsentColumns, VendorCells, RowOf;
    var cells := ExportCells(format, headers, l);
    RowKeys(headers, cells);
    forall i | 0 <= i < |VendorColumns(format)|
      ensures VendorColumns(format)[i] in RowOf(headers, cells)
      ensures RowOf(headers, cells)[VendorColumns(format)[i]] == VendorCells(format, l)[i]
    {
      var c := VendorColumns(format)[i];
      assert c in VendorColumns(format);
      var k :| 0 <= k < |headers| && headers[k] == c;
      RowLookup(headers, cells, k);
    }
    forall i | 0 <= i < |AbsentColumns(format)|
      ensures AbsentColumns(format)[i] !in RowOf(headers, cells)
    {
      assert AbsentColumns(format)[i] in AbsentColumns(format);
    }
  }

  /** Each vendor names a column once. */
  lemma {:induction false} ColumnsDistinct(format: Format)
    requires IsVendor(format)
    ensures Distinct(VendorColumns(format))
  {
    match format
    case BitwardenCsv => BitwardenDistinct();
    case DashlaneCsv => DashlaneDistinct();
    case LastpassCsv => LastpassDistinct();
    case OnepasswordCsv => OnepasswordDistinct();
  }

  lemma {:induction false} BitwardenDistinct()
    ensures Distinct(VendorColumns(BitwardenCsv))
  {
    var h := VendorColumns(BitwardenCsv);
    var lengths := [6, 8, 4, 4, 5, 9, 14, 14];
    assert forall i | 0 <= i < 8 :: |h[i]| == lengths[i];
    assert h[2][0] == 't' && h[3][0] == 'n' && h[6][6] == 'u' && h[7][6] == 'p';
  }

  lemma {:induction false} DashlaneDistinct()
    ensures Distinct(VendorColumns(DashlaneCsv))
  {
    var h := VendorColumns(DashlaneCsv);
    var lengths := [4, 3, 8, 8, 4, 8, 11];
    assert forall i | 0 <= i < 7 :: |h[i]| == lengths[i];
    assert h[0][1] == 'a' && h[4][1] == 'o' && h[2][0] == 'u' && h[3][0] == 'p' && h[5][0] == 'c';
  }

  lemma {:induction false} LastpassDistinct()
    ensures Distinct(VendorColumns(LastpassCsv))
  {
    var h := VendorColumns(LastpassCsv);
    var lengths := [3, 8, 8, 5, 4, 8, 3];
    assert forall i | 0 <= i < 7 :: |h[i]| == lengths[i];
    assert h[0][0] == 'u' && h[6][0] == 'f' && h[1][0] == 'u' && h[2][0] == 'p' && h[5][0] == 'g';
  }

  lemma {:induction false} OnepasswordDistinct()
    ensures Distinct(VendorColumns(OnepasswordCsv))
  {
    var h := VendorColumns(OnepasswordCsv);
    var lengths := [5, 7, 8, 8, 5, 4, 5];
    assert forall i | 0 <= i < 7 :: |h[i]| == lengths[i];
    assert h[0][0] == 't' && h[4][0] == 'n' && h[6][0] == 'v' && h[2][0] == 'u' && h[3][0] == 'p';
  }

  // ---------------------------------------------------------------- Bitwarden

  predicate BitwardenRow(row: Row, l: Login) {
    && "folder" in row && row["folder"] == l.folder
    && "favorite" in row && row["favorite"] == l.favorite
    && "type" in row && row["type"] == l.kind
    && "name" in row && row["name"] == l.name
    && "notes" in row && row["notes"] == l.notes
    && "login_uri" in row && row["login_uri"] == l.url
    && "login_username" in row && row["login_username"] == l.username
    && "login_password" in row && row["login_password"] == l.password
    && "url" !in row && "risk" !in row
  }

  lemma {:induction false} BitwardenCells(headers: seq<string>, l: Login)
    requires IsExport(BitwardenCsv, headers)
    ensures BitwardenRow(RowOf(headers, ExportCells(BitwardenCsv, headers, l)), l)
  {
    var c, a, v := VendorColumns(BitwardenCsv), AbsentColumns(BitwardenCsv), VendorCells(BitwardenCsv, l);
    assert c[0] == "folder" && c[1] == "favorite" && c[2] == "type" && c[3] == "name" && c[4] == "notes"
       && c[5] == "login_uri" && c[6] == "login_username" && c[7] == "login_password";
    assert a[0] == "url" && a[1] == "risk";
    assert v[0] == l.folder && v[1] == l.favorite && v[2] == l.kind && v[3] == l.name && v[4] == l.notes
       && v[5] == l.url && v[6] == l.username && v[7] == l.password;
    assert |c| == 8 && |a| == 2;
    BitwardenDistinct();
    hide RowOf, ExportCells, VendorColumns, AbsentColumns, VendorCells, IsExport;
    ExportedRow(BitwardenCsv, headers, l);
  }

  lemma {:induction false} BitwardenColumns(row: Row, l: Login)
    requires ValidLogin(l) && BitwardenRow(row, l)
    ensures FirstOf(row, ["type"]) == Trim(l.kind)
    ensures FirstOf(row, ["name", "login_name", "folder"]) == Trim(l.name)
    ensures FirstOf(row, ["login_username", "username"]) == Trim(l.username)
    ensures FirstOf(row, ["login_password", "password"]) == Trim(l.password)
    ensures FirstOf(row, ["login_uri", "url"]) == Trim(l.url)
    ensures FirstOf(row, ["folder"]) == Trim(l.folder)
    ensures FirstOf(row, ["favorite"]) == Trim(l.favorite)
    ensures FirstOf(row, ["risk"]) == ""
    ensures FirstOf(row, ["notes"]) == Trim(l.notes)
  {
    hide FirstOf, Trim;
    OnlyColumn(row, ["type"], l.kind);
    OnlyColumn(row, ["name", "login_name", "folder"], l.name);
    OnlyColumn(row, ["login_username", "username"], l.username);
    OnlyColumn(row, ["login_password", "password"], l.password);
    OnlyColumn(row, ["login_uri", "url"], l.url);
    OnlyColumn(row, ["folder"], l.folder);
    OnlyColumn(row, ["favorite"], l.favorite);
    NoColumn(row, ["risk"]);
    OnlyColumn(row, ["notes"], l.notes);
  }

  lemma {:induction false} BitwardenRead(row: Row, l: Login)
    requires ValidLogin(l) && BitwardenRow(row, l)
    ensures Adapt(BitwardenCsv, row) == ExpectedEntry(BitwardenCsv, l)
  {
    BitwardenColumns(row, l);
    hide FirstOf, NormalizeTags, BitwardenRow, ValidLogin, Trim;
  }

  // ---------------------------------------------------------------- Dashlane

  predicate DashlaneRow(row: Row, l: Login) {
    && "name" in row && row["name"] == l.name
    && "url" in row && row["url"] == l.url
    && "username" in row && row["username"] == l.username
    && "password" in row && row["password"] == l.password
    && "note" in row && row["note"] == l.notes
    && "category" in row && row["category"] == l.folder
    && "collections" in row && row["collections"] == l.labels
    && "type" !in row && "risk" !in row && "website" !in row && "space" !in row && "notes" !in row
  }

  lemma {:induction false} DashlaneCells(headers: seq<string>, l: Login)
    requires IsExport(DashlaneCsv, headers)
    ensures DashlaneRow(RowOf(headers, ExportCells(DashlaneCsv, headers, l)), l)
  {
    var c, a, v := VendorColumns(DashlaneCsv), AbsentColumns(DashlaneCsv), VendorCells(DashlaneCsv, l);
    assert c[0] == "name" && c[1] == "url" && c[2] == "username" && c[3] == "password" && c[4] == "note"
       && c[5] == "category" && c[6] == "collections";
    assert a[0] == "type" && a[1] == "risk" && a[2] == "website" && a[3] == "space" && a[4] == "notes";
    assert v[0] == l.name && v[1] == l.url && v[2] == l.username && v[3] == l.password && v[4] == l.notes
       && v[5] == l.folder && v[6] == l.labels;
    assert |c| == 7 && |a| == 5;
    DashlaneDistinct();
    hide RowOf, ExportCells, VendorColumns, AbsentColumns, VendorCells, IsExport;
    ExportedRow(DashlaneCsv, headers, l);
  }

  lemma {:induction false} DashlaneColumns(row: Row, l: Login)
    requires ValidLogin(l) && DashlaneRow(row, l)
    ensures FirstOf(row, ["type"]) == ""
    ensures FirstOf(row, ["name", "title"]) == Trim(l.name)
    ensures FirstOf(row, ["username", "login", "email"]) == Trim(l.username)
    ensures FirstOf(row, ["password"]) == Trim(l.password)
    ensures FirstOf(row, ["url", "website"]) == Trim(l.url)
    ensures FirstOf(row, ["collections"]) == Trim(l.labels)
    ensures FirstOf(row, ["category"]) == Trim(l.folder)
    ensures FirstOf(row, ["space"]) == ""
    ensures FirstOf(row, ["risk"]) == ""
    ensures FirstOf(row, ["note", "notes"]) == Trim(l.notes)
  {
    hide FirstOf, Trim;
    NoColumn(row, ["type"]);
    OnlyColumn(row, ["name", "title"], l.name);
    OnlyColumn(row, ["username", "login", "email"], l.username);
    OnlyColumn(row, ["password"], l.password);
    OnlyColumn(row, ["url", "website"], l.url);
    OnlyColumn(row, ["collections"], l.labels);
    OnlyColumn(row, ["category"], l.folder);
    NoColumn(row, ["space"]);
    NoColumn(row, ["risk"]);
    OnlyColumn(row, ["note", "notes"], l.notes);
  }

  lemma {:induction false} DashlaneRead(row: Row, l: Login)
    requires ValidLogin(l) && DashlaneRow(row, l)
    ensures Adapt(DashlaneCsv, row) == ExpectedEntry(DashlaneCsv, l)
  {
    DashlaneColumns(row, l);
    EmptyTagLast(Trim(l.labels), Trim(l.folder));
    hide FirstOf, NormalizeTags, DashlaneRow, ValidLogin, Trim;
  }

  // ---------------------------------------------------------------- Lastpass

  predicate LastpassRow(row: Row, l: Login) {
    && "url" in row && row["url"] == l.url
    && "username" in row && row["username"] == l.username
    && "password" in row && row["password"] == l.password
    && "extra" in row && row["extra"] == l.notes
    && "name" in row && row["name"] == l.name
    && "grouping" in row && row["grouping"] == l.folder
    && "fav" in row && row["fav"] == l.favorite
    && "type" !in row && "risk" !in row && "notes" !in row
  }

  lemma {:induction false} LastpassCells(headers: seq<string>, l: Login)
    requires IsExport(LastpassCsv, headers)
    ensures LastpassRow(RowOf(headers, ExportCells(LastpassCsv, headers, l)), l)
  {
    var c, a, v := VendorColumns(LastpassCsv), AbsentColumns(LastpassCsv), VendorCells(LastpassCsv, l);
    assert c[0] == "url" && c[1] == "username" && c[2] == "password" && c[3] == "extra" && c[4] == "name"
       && c[5] == "grouping" && c[6] == "fav";
    assert a[0] == "type" && a[1] == "risk" && a[2] == "notes";
    assert v[0] == l.url && v[1] == l.username && v[2] == l.password && v[3] == l.notes && v[4] == l.name
       && v[5] == l.folder && v[6] == l.favorite;
    assert |c| == 7 && |a| == 3;
    LastpassDistinct();
    hide RowOf, ExportCells, VendorColumns, AbsentColumns, VendorCells, IsExport;
    ExportedRow(LastpassCsv, headers, l);
  }

  lemma {:induction false} LastpassColumns(row: Row, l: Login)
    requires ValidLogin(l) && LastpassRow(row, l)
    ensures FirstOf(row, ["type"]) == ""
    ensures FirstOf(row, ["name", "grouping", "url"]) == Trim(l.name)
    ensures FirstOf(row, ["username"]) == Trim(l.username)
    ensures FirstOf(row, ["password"]) == Trim(l.password)
    ensures FirstOf(row, ["url"]) == Trim(l.url)
    ensures FirstOf(row, ["grouping"]) == Trim(l.folder)
    ensures FirstOf(row, ["fav"]) == Trim(l.favorite)
    ensures FirstOf(row, ["risk"]) == ""
    ensures FirstOf(row, ["extra", "notes"]) == Trim(l.notes)
  {
    hide FirstOf, Trim;
    NoColumn(row, ["type"]);
    OnlyColumn(row, ["name", "grouping", "url"], l.name);
    OnlyColumn(row, ["username"], l.username);
    OnlyColumn(row, ["password"], l.password);
    OnlyColumn(row, ["url"], l.url);
    OnlyColumn(row, ["grouping"], l.folder);
    OnlyColumn(row, ["fav"], l.favorite);
    NoColumn(row, ["risk"]);
    OnlyColumn(row, ["extra", "notes"], l.notes);
  }

  lemma {:induction false} LastpassRead(row: Row, l: Login)
    requires ValidLogin(l) && LastpassRow(row, l)
    ensures Adapt(LastpassCsv, row) == ExpectedEntry(LastpassCsv, l)
  {
    LastpassColumns(row, l);
    hide FirstOf, NormalizeTags, LastpassRow, ValidLogin, Trim;
  }

  // ---------------------------------------------------------------- Onepassword

  predicate OnepasswordRow(row: Row, l: Login) {
    && "title" in row && row["title"] == l.name
    && "website" in row && row["website"] == l.url
    && "username" in row && row["username"] == l.username
    && "password" in row && row["password"] == l.password
    && "notes" in row && row["notes"] == l.notes
    && "tags" in row && row["tags"] == l.labels
    && "vault" in row && row["vault"] == l.folder
    && "type" !in row && "category" !in row && "risk" !in row && "url" !in row && "login_uri" !in row
    && "note" !in row
  }

  lemma {:induction false} OnepasswordCells(headers: seq<string>, l: Login)
    requires IsExport(OnepasswordCsv, headers)
    ensures OnepasswordRow(RowOf(headers, ExportCells(OnepasswordCsv, headers, l)), l)
  {
    var c, a, v := VendorColumns(OnepasswordCsv), AbsentColumns(OnepasswordCsv), VendorCells(OnepasswordCsv, l);
    assert c[0] == "title" && c[1] == "website" && c[2] == "username" && c[3] == "password" && c[4] == "notes"
       && c[5] == "tags" && c[6] == "vault";
    assert a[0] == "type" && a[1] == "category" && a[2] == "risk" && a[3] == "url" && a[4] == "login_uri"
       && a[5] == "note";
    assert v[0] == l.name && v[1] == l.url && v[2] == l.username && v[3] == l.password && v[4] == l.notes
       && v[5] == l.labels && v[6] == l.folder;
    assert |c| == 7 && |a| == 6;
    OnepasswordDistinct();
    hide RowOf, ExportCells, VendorColumns, AbsentColumns, VendorCells, IsExport;
    ExportedRow(OnepasswordCsv, headers, l);
  }

  lemma {:induction false} OnepasswordColumns(row: Row, l: Login)
    requires ValidLogin(l) && OnepasswordRow(row, l)
    ensures FirstOf(row, ["type", "category"]) == ""
    ensures FirstOf(row, ["title", "name"]) == Trim(l.name)
    ensures FirstOf(row, ["username", "login_username"]) == Trim(l.username)
    ensures FirstOf(row, ["password", "login_password"]) == Trim(l.password)
    ensures FirstOf(row, ["website", "url", "login_uri"]) == Trim(l.url)
    ensures FirstOf(row, ["tags"]) == Trim(l.labels)
    ensures FirstOf(row, ["vault"]) == Trim(l.folder)
    ensures FirstOf(row, ["risk"]) == ""
    ensures FirstOf(row, ["notes", "note"]) == Trim(l.notes)
  {
    hide FirstOf, Trim;
    NoColumn(row, ["type", "category"]);
    OnlyColumn(row, ["title", "name"], l.name);
    OnlyColumn(row, ["username", "login_username"], l.username);
    OnlyColumn(row, ["password", "login_password"], l.password);
    OnlyColumn(row, ["website", "url", "login_uri"], l.url);
    OnlyColumn(row, ["tags"], l.labels);
    OnlyColumn(row, ["vault"], l.folder);
    NoColumn(row, ["risk"]);
    OnlyColumn(row, ["notes", "note"], l.notes);
  }

  lemma {:induction false} OnepasswordRead(row: Row, l: Login)
    requires ValidLogin(l) && OnepasswordRow(row, l)
    ensures Adapt(OnepasswordCsv, row) == ExpectedEntry(OnepasswordCsv, l)
  {
    OnepasswordColumns(row, l);
    hide FirstOf, NormalizeTags, OnepasswordRow, ValidLogin, Trim;
  }

  // ---------------------------------------------------------------- the plainest export

  lemma {:induction false} BitwardenPlain()
    ensures forall i | 0 <= i < |VendorColumns(BitwardenCsv)| :: |VendorColumns(BitwardenCsv)[i]| > 0
    ensures forall i, k | 0 <= i < |VendorColumns(BitwardenCsv)| && 0 <= k < |VendorColumns(BitwardenCsv)[i]| ::
              'A' <= VendorColumns(BitwardenCsv)[i][k] <= 'z'
    ensures forall c | c in AbsentColumns(BitwardenCsv) :: c !in VendorColumns(BitwardenCsv)
  {
  }

  lemma {:induction false} DashlanePlain()
    ensures forall i | 0 <= i < |VendorColumns(DashlaneCsv)| :: |VendorColumns(DashlaneCsv)[i]| > 0
    ensures forall i, k | 0 <= i < |VendorColumns(DashlaneCsv)| && 0 <= k < |VendorColumns(DashlaneCsv)[i]| ::
              'A' <= VendorColumns(DashlaneCsv)[i][k] <= 'z'
    ensures forall c | c in AbsentColumns(DashlaneCsv) :: c !in VendorColumns(DashlaneCsv)
  {
  }

  lemma {:induction false} LastpassPlain()
    ensures forall i | 0 <= i < |VendorColumns(LastpassCsv)| :: |VendorColumns(LastpassCsv)[i]| > 0
    ensures forall i, k | 0 <= i < |VendorColumns(LastpassCsv)| && 0 <= k < |VendorColumns(LastpassCsv)[i]| ::
              'A' <= VendorColumns(LastpassCsv)[i][k] <= 'z'
    ensures forall c | c in AbsentColumns(LastpassCsv) :: c !in VendorColumns(LastpassCsv)
  {
  }

  lemma {:induction false} OnepasswordPlain()
    ensures forall i | 0 <= i < |VendorColumns(OnepasswordCsv)| :: |VendorColumns(OnepasswordCsv)[i]| > 0
    ensures forall i, k | 0 <= i < |VendorColumns(OnepasswordCsv)| && 0 <= k < |VendorColumns(OnepasswordCsv)[i]| ::
              'A' <= VendorColumns(OnepasswordCsv)[i][k] <= 'z'
    ensures forall c | c in AbsentColumns(OnepasswordCsv) :: c !in VendorColumns(OnepasswordCsv)
  {
  }

  /** The vendor's columns alone, in their usual order, are the headers of an export. */
  lemma {:induction false} PlainExport(format: Format)
    requires IsVendor(format)
    ensures IsExport(format, VendorColumns(format))
  {
    hide VendorColumns, AbsentColumns;
    ColumnsDistinct(format);
    match format {
      case BitwardenCsv => BitwardenPlain();
      case DashlaneCsv => DashlanePlain();
      case LastpassCsv => LastpassPlain();
      case OnepasswordCsv => OnepasswordPlain();
    }
    var h := VendorColumns(format);
    forall c | c in h
      ensures Trimmed(c)
    {
      var i :| 0 <= i < |h| && h[i] == c;
      assert 'A' <= h[i][0] <= 'z' && 'A' <= h[i][|c| - 1] <= 'z';
    }
  }

  // ---------------------------------------------------------------- the whole export

  ghost function ExportRecords(format: Format, headers: seq<string>, logins: seq<Login>): (records: seq<Record>)
    requires IsVendor(format)
    ensures |records| == |logins|
    ensures forall i | 0 <= i < |logins| :: records[i] == ExportCells(format, headers, logins[i])
  {
    if logins == [] then []
    else [ExportCells(format, headers, logins[0])] + ExportRecords(format, headers, logins[1..])
  }

  /** The text of an export: a header line, then one line per login. */
  ghost function ExportCsv(format: Format, headers: seq<string>, logins: seq<Login>): string
    requires IsVendor(format)
  {
    PrintCsv([headers] + ExportRecords(format, headers, logins))
  }

  function ExpectedEntries(format: Format, logins: seq<Login>): (entries: seq<Entry>)
    ensures |entries| == |logins|
  {
    if logins == [] then [] else [ExpectedEntry(format, logins[0])] + ExpectedEntries(format, logins[1..])
  }

  lemma {:induction false} ReadLogin(format: Format, headers: seq<string>, l: Login)
    requires IsVendor(format) && IsExport(format, headers) && ValidLogin(l)
    ensures Adapt(format, RowOf(headers, ExportCells(format, headers, l))) == ExpectedEntry(format, l)
    ensures Complete(ExpectedEntry(format, l))
  {
    hide RowOf, ExportCells, Adapt, IsExport, NormalizeTags, Trim, BitwardenRow, DashlaneRow, LastpassRow,
      OnepasswordRow;
    var row := RowOf(headers, ExportCells(format, headers, l));
    match format
    case BitwardenCsv => BitwardenCells(headers, l); BitwardenRead(row, l);
    case DashlaneCsv => DashlaneCells(headers, l); DashlaneRead(row, l);
    case LastpassCsv => LastpassCells(headers, l); LastpassRead(row, l);
    case OnepasswordCsv => OnepasswordCells(headers, l); OnepasswordRead(row, l);
  }

  lemma {:induction false} ReadLogins(format: Format, headers: seq<string>, logins: seq<Login>)
    requires IsVendor(format) && IsExport(format, headers) && forall l | l in logins :: ValidLogin(l)
    ensures AdaptAll(format, RowsOf(headers, ExportRecords(format, headers, logins))) == ExpectedEntries(format, logins)
    ensures forall e | e in ExpectedEntries(format, logins) :: Complete(e)
  {
    hide RowOf, ExportCells, Adapt, ExpectedEntry, ValidLogin, IsVendor, IsExport;
    if logins != [] {
      ReadLogin(format, headers, logins[0]);
      ReadLogins(format, headers, logins[1..]);
      var records := ExportRecords(format, headers, logins);
      assert records[1..] == ExportRecords(format, headers, logins[1..]);
      assert RowsOf(headers, records)[1..] == RowsOf(headers, records[1..]);
    }
  }

  lemma {:induction false} HeadersHaveContent(format: Format, headers: seq<string>)
    requires IsVendor(format) && IsExport(format, headers)
    ensures TrimAll(headers) == headers && HasContent(headers)
  {
    hide Trim;
    forall i | 0 <= i < |headers|
      ensures Trim(headers[i]) == headers[i]
    {
      TrimFixesTrimmed(headers[i]);
    }
    assert VendorColumns(format)[0] != "" && VendorColumns(format)[0] in VendorColumns(format);
  }

  lemma {:induction false} LoginHasContent(format: Format, headers: seq<string>, l: Login)
    requires IsVendor(format) && IsExport(format, headers) && ValidLogin(l)
    ensures HasContent(ExportCells(format, headers, l))
  {
    hide Blank, RowOf, Trim, IsExport;
    var cells := ExportCells(format, headers, l);
    var i := if format.BitwardenCsv? then 6 else if format.LastpassCsv? then 1 else 2;
    assert VendorCells(format, l)[i] == l.username && i < |VendorColumns(format)|;
    hide VendorCells, VendorColumns, ExportCells;
    CellPresent(format, headers, l, i);
    assert l.username in cells;
  }

  lemma {:induction false} CellPresent(format: Format, headers: seq<string>, l: Login, i: nat)
    requires IsVendor(format) && IsExport(format, headers) && i < |VendorColumns(format)|
    ensures VendorCells(format, l)[i] in ExportCells(format, headers, l)
  {
    ColumnsDistinct(format);
    hide VendorColumns, VendorCells, AbsentColumns;
    assert VendorColumns(format)[i] in VendorColumns(format);
    var k :| 0 <= k < |headers| && headers[k] == VendorColumns(format)[i];
    assert ExportCells(format, headers, l)[k] == VendorCells(format, l)[i];
  }

  /** What a password manager exports is what the converter reads, whatever the texts in the cells, the
      order of the columns and the further columns: the same logins in the same order, trimmed, folders,
      labels and favourites as tags, and nothing of any other column. */
  lemma {:induction false} VendorExportConverts(
      format: Format, vaultId: string, headers: seq<string>, logins: seq<Login>)
    requires IsVendor(format) && vaultId != "" && IsExport(format, headers) && forall l | l in logins :: ValidLogin(l)
    ensures var entries := ExpectedEntries(format, logins);
            Convert(format, vaultId, ExportCsv(format, headers, logins))
            == Success(Conversion(|logins|, entries, NormalizedCsv(vaultId, entries)))
  {
    hide ExportCells, Adapt, ExpectedEntry, ValidLogin, NormalizedCsv, PrintCsv, Parse, HasContent, Complete, RowOf,
      IsExport;
    var records := [headers] + ExportRecords(format, headers, logins);
    RoundTrip(records);
    HeadersHaveContent(format, headers);
    forall r | r in ExportRecords(format, headers, logins)
      ensures HasContent(r)
    {
      var i :| 0 <= i < |logins| && r == ExportCells(format, headers, logins[i]);
      LoginHasContent(format, headers, logins[i]);
    }
    assert records[1..] == ExportRecords(format, headers, logins);
    ReadLogins(format, headers, logins);
  }

  // ---------------------------------------------------------------- on to the import validator

  /** The type a login is converted to is one the validator allows. */
  predicate TypeAllowed(format: Format, l: Login) {
    format.BitwardenCsv? ==> OrElse(Trim(l.kind), "password") in ALLOWED_TYPES
  }

  lemma {:induction false} ExpectedAccepted(format: Format, l: Login)
    requires ValidLogin(l)
    ensures EntryAccepted(ExpectedEntry(format, l)) <==> TypeAllowed(format, l)
  {
    TypesAndRisks();
    hide Trimmed, Trim, NormalizeTags, ALLOWED_TYPES, ALLOWED_RISKS;
    TrimFixesTrimmed(Trim(l.name));
    TrimFixesTrimmed(Trim(l.username));
  }

  lemma {:induction false} TypesAndRisks()
    ensures "password" in ALLOWED_TYPES && "login" !in ALLOWED_TYPES && "medium" in ALLOWED_RISKS
  {
  }

  lemma {:induction false} EntriesAcceptable(format: Format, vaultId: string, logins: seq<Login>)
    requires logins != [] && forall l | l in logins :: ValidLogin(l)
    ensures Acceptable(vaultId, ExpectedEntries(format, logins)) <==>
            !Blank(vaultId) && forall l | l in logins :: TypeAllowed(format, l)
  {
    hide ExpectedEntry, EntryAccepted, ValidLogin, Blank, TypeAllowed;
    ExpectedAccepted(format, logins[0]);
    assert logins == [logins[0]] + logins[1..];
    if |logins| > 1 {
      EntriesAcceptable(format, vaultId, logins[1..]);
    } else {
      assert ExpectedEntries(format, logins[1..]) == [];
    }
  }

  /** The import validator accepts a converted export exactly when the vault id is not blank and, for a
      Bitwarden export, every type is one it knows. */
  lemma {:induction false} VendorExportImports(
      format: Format, vaultId: string, headers: seq<string>, logins: seq<Login>, hash: string -> string)
    requires IsVendor(format) && vaultId != "" && IsExport(format, headers)
    requires logins != [] && forall l | l in logins :: ValidLogin(l)
    ensures match Convert(format, vaultId, ExportCsv(format, headers, logins))
            case Failure(_) => false
            case Success(c) =>
              Validate(c.csv, Expectations(None, Some(|logins|)), hash).Success?
              <==> !Blank(vaultId) && forall l | l in logins :: TypeAllowed(format, l)
  {
    hide Convert, Validate, ExportCsv, ValidLogin, Blank, Acceptable, Reports, ExpectedEntry, IsVendor, IsExport,
      TypeAllowed;
    VendorExportConverts(format, vaultId, headers, logins);
    ConverterOutputAccepted(
      format, vaultId, ExportCsv(format, headers, logins), Expectations(None, Some(|logins|)), hash);
    EntriesAcceptable(format, vaultId, logins);
  }

  lemma {:induction false} LoginNotAllowed(l: Login)
    requires l.kind == "login"
    ensures !TypeAllowed(BitwardenCsv, l)
  {
    TypesAndRisks();
    hide ALLOWED_TYPES, Trim;
    TrimFixesTrimmed("login");
  }

  /** The type that Bitwarden gives a login is not one of them. */
  lemma {:induction false} BitwardenLoginRefused(
      vaultId: string, headers: seq<string>, logins: seq<Login>, hash: string -> string)
    requires vaultId != "" && IsExport(BitwardenCsv, headers) && forall l | l in logins :: ValidLogin(l)
    requires exists l | l in logins :: l.kind == "login"
    ensures match Convert(BitwardenCsv, vaultId, ExportCsv(BitwardenCsv, headers, logins))
            case Failure(_) => false
            case Success(c) => Validate(c.csv, Expectations(None, Some(|logins|)), hash).Failure?
  {
    hide Convert, Validate, ExportCsv, ValidLogin, Blank, IsExport, TypeAllowed;
    var l :| l in logins && l.kind == "login";
    LoginNotAllowed(l);
    VendorExportImports(BitwardenCsv, vaultId, headers, logins, hash);
  }
}
