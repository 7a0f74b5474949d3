/** Converting a normalized CSV once more, as sentinel-csv. */
module Reconversion {
  import opened Text
  import opened Wrappers
  import opened CsvParser
  import opened CsvPrinter
  import opened Converter
  import opened ImportValidator

  /** An entry after its printed row has been read by the sentinel-csv adapter. */
  function Retrimmed(e: Entry): Entry {
    Entry(
      OrElse(Trim(e.kind), "password"), Trim(e.name), Trim(e.username), Trim(e.password),
      Trim(e.url), e.tags, OrElse(Trim(e.risk), "medium"), Trim(e.notes))
  }

  lemma {:induction false} FirstOfOne(row: Row, name: string)
    requires name in row
    ensures FirstOf(row, [name]) == Trim(row[name])
  {
  }

  lemma {:induction false} JoinedTagsTrimmed(tags: seq<string>)
    requires WellFormedTags(tags)
    ensures Trimmed(Join(tags, ";"))
    ensures tags != [] ==> Join(tags, ";") != "" && !IsSpace(Join(tags, ";")[0])
  {
    if |tags| > 1 {
      assert forall t | t in tags[1..] :: t in tags;
      JoinedTagsTrimmed(tags[1..]);
      assert tags[0] in tags;
    } else if |tags| == 1 {
      assert tags[0] in tags;
    }
  }

  lemma {:induction false} TagsReadBack(tags: seq<string>)
    requires WellFormedTags(tags)
    ensures NormalizeTags([Trim(Join(tags, ";"))]) == tags
  {
    var joined := Join(tags, ";");
    JoinedTagsTrimmed(tags);
    TrimFixesTrimmed(joined);
    SplitOfJoin(tags, ';', TAG_SEPARATORS);
    var pieces := SplitOn(joined, TAG_SEPARATORS);
    assert SplitAll([joined]) == pieces + SplitAll([]);
    assert pieces + [] == pieces;
    if tags == [] {
      assert Trim("") == "" && pieces == [""] && pieces[1..] == [];
      assert TrimmedTags(pieces) == TrimmedTags([]);
    } else {
      TrimmedTagsUnchanged(tags);
    }
  }

  lemma {:induction false} ReadEntry(vaultId: string, e: Entry)
    requires AdapterEntry(e)
    ensures Adapt(SentinelCsv, RowOf(HEADERS, NormalizedCells(vaultId, e))) == Retrimmed(e)
  {
    hide FirstOf, RowOf, Trim, NormalizeTags, NormalizedCells;
    var row := RowOf(HEADERS, NormalizedCells(vaultId, e));
    RowOfEntry(vaultId, e);
    FirstOfOne(row, "type");
    FirstOfOne(row, "name");
    FirstOfOne(row, "username");
    FirstOfOne(row, "password");
    FirstOfOne(row, "url");
    FirstOfOne(row, "tags");
    FirstOfOne(row, "risk");
    FirstOfOne(row, "notes");
    TagsReadBack(e.tags);
  }

  lemma {:induction false} RetrimmedFixed(e: Entry)
    requires TrimmedEntry(e) && AdapterEntry(e)
    ensures Retrimmed(e) == e
  {
    TrimFixesTrimmed(e.kind);
    TrimFixesTrimmed(e.name);
    TrimFixesTrimmed(e.username);
    TrimFixesTrimmed(e.password);
    TrimFixesTrimmed(e.url);
    TrimFixesTrimmed(e.risk);
    TrimFixesTrimmed(e.notes);
  }

  lemma {:induction false} ReadEntries(vaultId: string, entries: seq<Entry>)
    requires forall e | e in entries :: AdapterEntry(e) && Complete(e) && TrimmedEntry(e)
    ensures AdaptAll(SentinelCsv, RowsOf(HEADERS, NormalizedRecords(vaultId, entries))) == entries
  {
    hide Adapt, HEADERS, TrimmedEntry, AdapterEntry, NormalizedCells, RowOf, Retrimmed;
    if entries != [] {
      assert entries[0] in entries;
      ReadEntry(vaultId, entries[0]);
      RetrimmedFixed(entries[0]);
      ReadEntries(vaultId, entries[1..]);
      var records := NormalizedRecords(vaultId, entries);
      assert records[1..] == NormalizedRecords(vaultId, entries[1..]);
      assert RowsOf(HEADERS, records)[1..] == RowsOf(HEADERS, records[1..]);
      assert [entries[0]] + entries[1..] == entries;
    }
  }

  lemma {:induction false} TrimmedRecordsHaveContent(vaultId: string, entries: seq<Entry>)
    requires forall e | e in entries :: Complete(e) && TrimmedEntry(e)
    ensures NonBlank(NormalizedRecords(vaultId, entries)) == NormalizedRecords(vaultId, entries)
  {
    var records := NormalizedRecords(vaultId, entries);
    forall r | r in records
      ensures HasContent(r)
    {
      var i :| 0 <= i < |records| && r == records[i];
      assert entries[i] in entries;
      TrimFixesTrimmed(entries[i].name);
      assert r[2] in r;
    }
    NonBlankKeepsAll(records);
  }

  lemma {:induction false} RowsOfNormalized(vaultId: string, entries: seq<Entry>)
    ensures ParseRows(NormalizedCsv(vaultId, entries))
         == RowsOf(HEADERS, NonBlank(NormalizedRecords(vaultId, entries)))
  {
    hide HEADERS, Parse, NonBlank, NormalizedCsv, RowOf, NormalizedCells;
    ParseNormalized(vaultId, entries);
    HeaderLine();
    var rest := NonBlank(NormalizedRecords(vaultId, entries));
    assert ([HEADERS] + rest)[1..] == rest;
  }

  /** Converting the converter's own output again changes nothing when the fields are trimmed: the
      text is byte for byte the same and no row is dropped. For a vault id that is not blank this
      is exact: an untrimmed field always changes the text. */
  lemma {:induction false} ReconversionStable(format: Format, vaultId: string, raw: string)
    ensures match Convert(format, vaultId, raw)
            case Failure(_) => true
            case Success(c) =>
              var again := Convert(SentinelCsv, vaultId, c.csv);
              var trimmed := forall e | e in c.entries :: TrimmedEntry(e);
              && (!format.MappedCsv? ==> trimmed)
              && (trimmed ==> again == Success(Conversion(|c.entries|, c.entries, c.csv)))
              && (!Blank(vaultId) && again.Success? && again.value.csv == c.csv ==> trimmed)
  {
    hide Convert, TrimmedEntry, AdapterEntry, Complete, NormalizedCsv;
    match Convert(format, vaultId, raw)
    case Failure(_) =>
    case Success(c) =>
      ConvertedEntries(format, vaultId, raw);
      if forall e | e in c.entries :: TrimmedEntry(e) {
        TrimmedStable(vaultId, c.entries);
      }
      var again := Convert(SentinelCsv, vaultId, c.csv);
      if !Blank(vaultId) && again.Success? && again.value.csv == c.csv {
        ConvertedEntries(SentinelCsv, vaultId, c.csv);
        SameTextTrimmed(vaultId, c.entries, again.value.entries);
      }
  }

  lemma {:induction false} TrimmedStable(vaultId: string, entries: seq<Entry>)
    requires vaultId != ""
    requires forall e | e in entries :: AdapterEntry(e) && Complete(e) && TrimmedEntry(e)
    ensures Convert(SentinelCsv, vaultId, NormalizedCsv(vaultId, entries))
         == Success(Conversion(|entries|, entries, NormalizedCsv(vaultId, entries)))
  {
    hide HEADERS, TrimmedEntry, AdapterEntry, NormalizedCells, RowOf, NormalizedCsv, ParseRows, Adapt, Complete;
    RowsOfNormalized(vaultId, entries);
    TrimmedRecordsHaveContent(vaultId, entries);
    ReadEntries(vaultId, entries);
  }

  lemma {:induction false} SameTextTrimmed(vaultId: string, entries: seq<Entry>, again: seq<Entry>)
    requires !Blank(vaultId) && NormalizedCsv(vaultId, entries) == NormalizedCsv(vaultId, again)
    requires forall e | e in again :: TrimmedEntry(e)
    ensures forall e | e in entries :: TrimmedEntry(e)
  {
    hide HEADERS, NormalizedCsv, Parse, Blank, NonBlank, Trimmed;
    ParseNormalized(vaultId, entries);
    ParseNormalized(vaultId, again);
    VaultKeepsRecords(vaultId, entries);
    VaultKeepsRecords(vaultId, again);
    var a, b := NormalizedRecords(vaultId, entries), NormalizedRecords(vaultId, again);
    assert ([HEADERS] + a)[1..] == a && ([HEADERS] + b)[1..] == b;
    forall i | 0 <= i < |entries|
      ensures TrimmedEntry(entries[i])
    {
      assert again[i] in again;
      SameCells(vaultId, entries[i], again[i]);
    }
  }

  lemma {:induction false} SameCells(vaultId: string, e: Entry, f: Entry)
    requires NormalizedCells(vaultId, e) == NormalizedCells(vaultId, f)
    requires TrimmedEntry(f)
    ensures TrimmedEntry(e)
  {
    var a, b := NormalizedCells(vaultId, e), NormalizedCells(vaultId, f);
    assert a[1] == b[1] && a[2] == b[2] && a[3] == b[3] && a[4] == b[4] && a[5] == b[5] && a[7] == b[7] && a[8] == b[8];
  }
}
