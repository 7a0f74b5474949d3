/** The CSV format of RFC 4180, section 2, as derivations and the text each derivation renders to.
    Line breaks may be CRLF, LF or a lone CR, in any mix, and any field may be quoted. */
module CsvGrammar {
  import opened Text
  import opened Wrappers
  import opened CsvParser

  datatype Field = Bare(text: string) | Quoted(text: string)
  datatype LineBreak = CRLF | LF | CR
  datatype Line = Line(fields: seq<Field>, end: LineBreak)
  /** Terminated records, then perhaps a last record without a line break. */
  datatype File = File(lines: seq<Line>, last: Option<seq<Field>>)

  predicate IsSpecial(c: char) {
    c == '"' || c == ',' || IsBreak(c)
  }

  predicate WellFormedField(f: Field) {
    f.Bare? ==> forall c | c in f.text :: !IsSpecial(c)
  }

  predicate WellFormedFields(fields: seq<Field>) {
    fields != [] && forall f | f in fields :: WellFormedField(f)
  }

  predicate WellFormed(file: File) {
    && (forall line | line in file.lines :: WellFormedFields(line.fields))
    && (file.last.Some? ==> WellFormedFields(file.last.value))
  }

  function DoubleQuotes(s: string): string {
    if s == "" then "" else (if s[0] == '"' then "\"\"" else [s[0]]) + DoubleQuotes(s[1..])
  }

  function RenderField(f: Field): string {
    match f
    case Bare(text) => text
    case Quoted(text) => "\"" + DoubleQuotes(text) + "\""
  }

  function RenderFields(fields: seq<Field>): string
    requires fields != []
  {
    if |fields| == 1 then RenderField(fields[0])
    else RenderField(fields[0]) + "," + RenderFields(fields[1..])
  }

  function RenderBreak(b: LineBreak): string {
    match b
    case CRLF => "\r\n"
    case LF => "\n"
    case CR => "\r"
  }

  function Render(lines: seq<Line>, last: Option<seq<Field>>): string
    requires WellFormed(File(lines, last))
  {
    if lines == [] then
      match last
      case None => ""
      case Some(fields) => RenderFields(fields)
    else
      RenderFields(lines[0].fields) + RenderBreak(lines[0].end) + Render(lines[1..], last)
  }

  /** The record a list of fields denotes: its texts. */
  function Texts(fields: seq<Field>): (r: Record)
    ensures |r| == |fields|
  {
    if fields == [] then [] else [fields[0].text] + Texts(fields[1..])
  }

  function Denote(lines: seq<Line>, last: Option<seq<Field>>): seq<Record> {
    if lines == [] then
      match last
      case None => []
      case Some(fields) => [Texts(fields)]
    else
      [Texts(lines[0].fields)] + Denote(lines[1..], last)
  }

  /** The state machine returns exactly the non-blank records a derivation denotes. */
  lemma {:induction false} ParserCorrect(file: File)
    requires WellFormed(file)
    ensures Parse(Render(file.lines, file.last)) == NonBlank(Denote(file.lines, file.last))
  {
    ParseLines(file.lines, file.last);
  }

  // ---------------------------------------------------------------- fields

  /** A text that continues after a field: at its end, a comma or a line break. */
  predicate AfterField(rest: string) {
    rest == "" || rest[0] == ',' || IsBreak(rest[0])
  }

  lemma {:induction false} RawOfBare(text: string, rest: string)
    requires forall c | c in text :: !IsSpecial(c)
    ensures RawRecords(text + rest) == Continue([], text, RawRecords(rest))
  {
    if text == "" {
      assert text + rest == rest;
      ContinueNothing(RawRecords(rest));
    } else {
      RawOfBare(text[1..], rest);
      assert (text + rest)[1..] == text[1..] + rest;
      var tokens := Lex(text + rest, false);
      assert text[0] in text;
      assert tokens[0] == Literal(text[0]) && tokens[1..] == Lex(text[1..] + rest, false);
      ContinueContent([], [text[0]], text[1..], RawRecords(rest));
      assert [text[0]] + text[1..] == text;
    }
  }

  /** Inside quotes, the rendering of one character is one token with that content. */
  lemma {:induction false} LexInsideQuotes(c: char, more: string)
    ensures var s := (if c == '"' then "\"\"" else [c]) + more;
            var tokens := Lex(s, true);
            tokens != [] && tokens[1..] == Lex(more, true) && tokens[0].Content() == [c]
            && !tokens[0].Comma? && !tokens[0].Break?
  {
    var s := (if c == '"' then "\"\"" else [c]) + more;
    if c == '"' {
      assert s[2..] == more;
    } else {
      assert s[1..] == more;
    }
  }

  lemma {:induction false} ClosingQuote(rest: string)
    requires AfterField(rest)
    ensures Records(Lex("\"" + rest, true)) == Continue([], "", RawRecords(rest))
  {
    assert ("\"" + rest)[1..] == rest;
    assert Lex("\"" + rest, true) == [Quote] + Lex(rest, false);
    assert ([Quote] + Lex(rest, false))[1..] == Lex(rest, false);
  }

  lemma {:induction false} RawInsideQuotes(text: string, rest: string)
    requires AfterField(rest)
    ensures Records(Lex(DoubleQuotes(text) + "\"" + rest, true)) == Continue([], text, RawRecords(rest))
    decreases |text|
  {
    hide Lex, RawRecords, Continue;
    if text == "" {
      ClosingQuote(rest);
      assert DoubleQuotes(text) + "\"" + rest == "\"" + rest;
    } else {
      var more := DoubleQuotes(text[1..]) + "\"" + rest;
      RawInsideQuotes(text[1..], rest);
      LexInsideQuotes(text[0], more);
      assert DoubleQuotes(text) + "\"" + rest == (if text[0] == '"' then "\"\"" else [text[0]]) + more;
      ContinueContent([], [text[0]], text[1..], RawRecords(rest));
      assert [text[0]] + text[1..] == text;
    }
  }

  lemma {:induction false} OpeningQuote(inner: string)
    ensures RawRecords("\"" + inner) == Continue([], "", Records(Lex(inner, true)))
  {
    assert ("\"" + inner)[1..] == inner;
    var tokens := Lex("\"" + inner, false);
    assert tokens[0] == Quote && tokens[1..] == Lex(inner, true);
  }

  lemma {:induction false} RawOfField(f: Field, rest: string)
    requires WellFormedField(f) && AfterField(rest)
    ensures RawRecords(RenderField(f) + rest) == Continue([], f.text, RawRecords(rest))
  {
    match f
    case Bare(text) => RawOfBare(text, rest);
    case Quoted(text) =>
      RawInsideQuotes(text, rest);
      var inner := DoubleQuotes(text) + "\"" + rest;
      assert RenderField(f) + rest == "\"" + inner;
      OpeningQuote(inner);
      ContinueNothing(Records(Lex(inner, true)));
  }

  lemma {:induction false} RawOfComma(rest: string)
    ensures RawRecords("," + rest) == Continue([""], "", RawRecords(rest))
  {
    assert ("," + rest)[1..] == rest;
    var tokens := Lex("," + rest, false);
    assert tokens[0] == Comma && tokens[1..] == Lex(rest, false);
  }

  // ---------------------------------------------------------------- records

  /** Fields in front of the end of a record become one whole record. */
  lemma {:induction false} RawOfFields(fields: seq<Field>, rest: string)
    requires WellFormedFields(fields)
    requires AfterField(rest) && RawRecords(rest)[0] == [""]
    ensures RawRecords(RenderFields(fields) + rest) == [Texts(fields)] + RawRecords(rest)[1..]
  {
    hide RawRecords, Continue, RenderField, WellFormedField, IsBreak;
    var f := fields[0];
    assert f in fields;
    if |fields| == 1 {
      RawOfField(f, rest);
      LastCell(f.text, RawRecords(rest));
      SingleText(fields);
    } else {
      var more := RenderFields(fields[1..]) + rest;
      RawOfFields(fields[1..], rest);
      RawOfComma(more);
      RawOfField(f, "," + more);
      FieldsInFront(RenderField(f), RenderFields(fields[1..]), rest);
      FirstCellInFront(f.text, RawRecords(more));
      assert [f.text] + Texts(fields[1..]) == Texts(fields);
    }
  }

  lemma {:induction false} SingleText(fields: seq<Field>)
    requires |fields| == 1
    ensures Texts(fields) == [fields[0].text]
  {
    assert fields[1..] == [];
    assert [fields[0].text] + [] == [fields[0].text];
  }

  lemma {:induction false} FieldsInFront(a: string, b: string, rest: string)
    ensures (a + "," + b) + rest == a + ("," + (b + rest))
  {
  }

  lemma {:induction false} LastCell(text: string, records: seq<Record>)
    requires Open(records) && records[0] == [""]
    ensures Continue([], text, records) == [[text]] + records[1..]
  {
    assert text + "" == text;
    assert records[0][1..] == [];
    assert [] + [text] + [] == [text];
  }

  lemma {:induction false} FirstCellInFront(text: string, records: seq<Record>)
    requires Open(records)
    ensures Continue([], text, Continue([""], "", records)) == [[text] + records[0]] + records[1..]
  {
    ContinueComma([], text, records);
    assert [] + [text] == [text];
    assert "" + records[0][0] == records[0][0];
    assert [text] + [records[0][0]] + records[0][1..] == [text] + records[0];
  }

  /** A line break ends the record before it. Only CR followed by LF merges with what follows. */
  lemma {:induction false} RawOfBreak(b: LineBreak, rest: string)
    ensures var merges := b == CR && rest != "" && rest[0] == '\n';
            RawRecords(RenderBreak(b) + rest) == [[""]] + RawRecords(if merges then rest[1..] else rest)
  {
    var s := RenderBreak(b) + rest;
    var n := |BreakAt(s)|;
    var tokens := Lex(s, false);
    assert tokens[0].Break? && tokens[1..] == Lex(s[n..], false);
    if b == CRLF {
      assert s[2..] == rest;
    } else {
      assert s[1..] == rest;
      if b == CR && rest != "" && rest[0] == '\n' {
        assert s[2..] == rest[1..];
      }
    }
  }

  // ---------------------------------------------------------------- files

  lemma {:induction false} RenderedStart(f: Field)
    requires WellFormedField(f)
    ensures RenderField(f) == "" ==> f == Bare("")
    ensures RenderField(f) != "" ==> RenderField(f)[0] == '"' || !IsSpecial(RenderField(f)[0])
  {
  }

  lemma {:induction false} LineFeedStartsEmptyRecord(fields: seq<Field>, tail: string)
    requires WellFormedFields(fields)
    requires RenderFields(fields) + tail != "" && (RenderFields(fields) + tail)[0] == '\n'
    ensures fields == [Bare("")] && tail != "" && tail[0] == '\n'
  {
    RenderedStart(fields[0]);
    assert |fields| == 1 ==> fields == [fields[0]];
  }

  lemma {:induction false} NonBlankCons(record: Record, records: seq<Record>)
    ensures NonBlank([record] + records) == (if HasContent(record) then [record] else []) + NonBlank(records)
  {
    assert ([record] + records)[1..] == records;
  }

  lemma {:induction false} EmptyRecordIsBlank()
    ensures !HasContent([""])
  {
  }

  lemma {:induction false} ParseLast(last: Option<seq<Field>>)
    requires WellFormed(File([], last))
    ensures Parse(Render([], last)) == NonBlank(Denote([], last))
  {
    hide HasContent;
    EmptyRecordIsBlank();
    assert RawRecords("") == [[""]];
    NonBlankCons([""], []);
    if last.Some? {
      RawOfFields(last.value, "");
      assert RenderFields(last.value) + "" == RenderFields(last.value);
    }
  }

  lemma {:induction false} ParseLines(lines: seq<Line>, last: Option<seq<Field>>)
    requires WellFormed(File(lines, last))
    ensures Parse(Render(lines, last)) == NonBlank(Denote(lines, last))
    decreases |lines|
  {
    hide Lex, Records, HasContent;
    EmptyRecordIsBlank();
    if lines == [] {
      ParseLast(last);
    } else {
      var line, rest := lines[0], Render(lines[1..], last);
      assert line in lines;
      var merges := line.end == CR && rest != "" && rest[0] == '\n';
      var after := if merges then rest[1..] else rest;
      RawOfBreak(line.end, rest);
      RawOfFields(line.fields, RenderBreak(line.end) + rest);
      assert RenderFields(line.fields) + RenderBreak(line.end) + rest
          == RenderFields(line.fields) + (RenderBreak(line.end) + rest);
      assert ([[""]] + RawRecords(after))[1..] == RawRecords(after);
      NonBlankCons(Texts(line.fields), RawRecords(after));
      NonBlankCons(Texts(line.fields), Denote(lines[1..], last));
      if merges {
        MergedBreak(lines[1..], last);
      } else {
        ParseLines(lines[1..], last);
      }
    }
  }

  /** CR, an empty record and LF read as one CRLF: only a blank record disappears. */
  lemma {:induction false} MergedBreak(lines: seq<Line>, last: Option<seq<Field>>)
    requires WellFormed(File(lines, last))
    requires var s := Render(lines, last); s != "" && s[0] == '\n'
    ensures Parse(Render(lines, last)[1..]) == NonBlank(Denote(lines, last))
    decreases |lines|, 0
  {
    hide Parse, HasContent, NonBlank;
    EmptyRecordIsBlank();
    if lines == [] {
      LineFeedStartsEmptyRecord(last.value, "");
    } else {
      var line, rest := lines[0], Render(lines[1..], last);
      assert line in lines;
      var s := Render(lines, last);
      assert s == RenderFields(line.fields) + (RenderBreak(line.end) + rest);
      LineFeedStartsEmptyRecord(line.fields, RenderBreak(line.end) + rest);
      assert RenderFields(line.fields) == "" && line.end == LF;
      assert s == "\n" + rest;
      assert s[1..] == rest;
      SingleText(line.fields);
      NonBlankCons([""], Denote(lines[1..], last));
      ParseLines(lines[1..], last);
    }
  }
}
