/** The CSV writer of the export converter, and its round trip through the reader. */
module CsvPrinter {
  import opened Text
  import opened Wrappers
  import opened CsvParser
  import opened CsvGrammar

  predicate NeedsQuotes(text: string) {
    exists c | c in text :: IsSpecial(c)
  }

  function CsvEscape(text: string): string {
    if NeedsQuotes(text) then "\"" + DoubleQuotes(text) + "\"" else text
  }

  function EscapeAll(cells: Record): (r: seq<string>)
    ensures |r| == |cells|
  {
    if cells == [] then [] else [CsvEscape(cells[0])] + EscapeAll(cells[1..])
  }

  function PrintRecord(cells: Record): string {
    Join(EscapeAll(cells), ",")
  }

  function PrintLines(records: seq<Record>): (r: seq<string>)
    ensures |r| == |records|
  {
    if records == [] then [] else [PrintRecord(records[0])] + PrintLines(records[1..])
  }

  /** Lines joined by line feeds, with one more at the end of the file. */
  function PrintCsv(records: seq<Record>): string {
    Join(PrintLines(records), "\n") + "\n"
  }

  /** Reading back what was printed loses the records without content, and nothing else. */
  lemma {:induction false} PrintThenParse(records: seq<Record>)
    ensures Parse(PrintCsv(records)) == NonBlank(records)
  {
    if records == [] {
      ParserCorrect(File([Line([Bare("")], LF)], None));
      PrintedFile([[]]);
      SingleText([Bare("")]);
      NonBlankCons([""], []);
      EmptyRecordIsBlank();
      assert PrintLines([[]]) == [""];
      assert PrintCsv([]) == "\n" == PrintCsv([[]]);
    } else {
      PrintedFile(records);
      ParserCorrect(File(LinesOf(records), None));
      DenotedContent(records);
    }
  }

  /** The round trip is the identity exactly when every record has a cell that is not blank. */
  lemma {:induction false} RoundTrip(records: seq<Record>)
    ensures Parse(PrintCsv(records)) == records <==> forall r | r in records :: HasContent(r)
  {
    PrintThenParse(records);
    NonBlankKeepsAll(records);
  }

  lemma {:induction false} NonBlankKeepsAll(records: seq<Record>)
    ensures NonBlank(records) == records <==> forall r | r in records :: HasContent(r)
  {
    if records != [] {
      NonBlankKeepsAll(records[1..]);
      if HasContent(records[0]) {
        assert NonBlank(records)[1..] == NonBlank(records[1..]);
      }
    }
  }

  /** A printed record is read back exactly when one of its cells holds a character that is not white space. */
  lemma {:induction false} RecordKept(record: Record)
    ensures Parse(PrintCsv([record])) ==
            if exists cell | cell in record :: exists c | c in cell :: !IsSpace(c) then [record] else []
  {
    PrintThenParse([record]);
    forall cell | cell in record
      ensures Blank(cell) <==> AllSpace(cell)
    {
      BlankExactly(cell);
    }
    assert [record][1..] == [];
  }

  /** Two files printed one after the other are read as the records of the first, then those of the second. */
  lemma {:induction false} FilesAppend(first: seq<Record>, second: seq<Record>)
    ensures Parse(PrintCsv(first + second)) == Parse(PrintCsv(first)) + Parse(PrintCsv(second))
  {
    PrintThenParse(first);
    PrintThenParse(second);
    PrintThenParse(first + second);
    NonBlankAppend(first, second);
  }

  lemma {:induction false} NonBlankAppend(first: seq<Record>, second: seq<Record>)
    ensures NonBlank(first + second) == NonBlank(first) + NonBlank(second)
  {
    if first == [] {
      assert first + second == second;
    } else {
      assert (first + second)[1..] == first[1..] + second;
      NonBlankAppend(first[1..], second);
    }
  }

  // ---------------------------------------------------------------- printed text is in the grammar

  function FieldOf(text: string): Field {
    if NeedsQuotes(text) then Quoted(text) else Bare(text)
  }

  function FieldsOf(cells: Record): (r: seq<Field>)
    ensures WellFormedFields(r)
  {
    if cells == [] then [Bare("")]
    else if |cells| == 1 then [FieldOf(cells[0])]
    else [FieldOf(cells[0])] + FieldsOf(cells[1..])
  }

  function LinesOf(records: seq<Record>): (r: seq<Line>)
    ensures |r| == |records| && forall line | line in r :: WellFormedFields(line.fields)
  {
    if records == [] then [] else [Line(FieldsOf(records[0]), LF)] + LinesOf(records[1..])
  }

  lemma {:induction false} PrintedFields(cells: Record)
    ensures PrintRecord(cells) == RenderFields(FieldsOf(cells))
  {
    if |cells| > 1 {
      PrintedFields(cells[1..]);
      assert FieldsOf(cells)[1..] == FieldsOf(cells[1..]);
      assert EscapeAll(cells)[1..] == EscapeAll(cells[1..]);
    }
  }

  lemma {:induction false} PrintedFile(records: seq<Record>)
    requires records != []
    ensures PrintCsv(records) == Render(LinesOf(records), None)
  {
    PrintedFields(records[0]);
    var lines := LinesOf(records);
    assert lines[0] == Line(FieldsOf(records[0]), LF) && lines[1..] == LinesOf(records[1..]);
    if |records| == 1 {
      assert Render(lines[1..], None) == "";
      assert RenderFields(lines[0].fields) + "\n" + "" == RenderFields(lines[0].fields) + "\n";
    } else {
      PrintedFile(records[1..]);
      assert PrintLines(records)[1..] == PrintLines(records[1..]);
      var first, rest := PrintRecord(records[0]), Join(PrintLines(records[1..]), "\n");
      assert (first + "\n" + rest) + "\n" == first + "\n" + (rest + "\n");
    }
  }

  lemma {:induction false} DenotedFields(cells: Record)
    ensures Texts(FieldsOf(cells)) == if cells == [] then [""] else cells
  {
    if |cells| <= 1 {
      SingleText(FieldsOf(cells));
    } else {
      DenotedFields(cells[1..]);
      assert FieldsOf(cells)[1..] == FieldsOf(cells[1..]);
      assert [cells[0]] + cells[1..] == cells;
    }
  }

  lemma {:induction false} DenotedContent(records: seq<Record>)
    ensures NonBlank(Denote(LinesOf(records), None)) == NonBlank(records)
  {
    if records != [] {
      DenotedContent(records[1..]);
      DenotedFields(records[0]);
      EmptyRecordIsBlank();
      assert LinesOf(records)[1..] == LinesOf(records[1..]);
      NonBlankCons(Texts(FieldsOf(records[0])), Denote(LinesOf(records[1..]), None));
    }
  }
}
