/** The CSV reader shared by the import scripts: a one-pass state machine over characters.

    The machine is specified in two independent stages. `Lex` cuts the text into tokens, each
    remembering the characters it came from; `Records` folds the tokens, from the last to the
    first, into records of cells. The method keeps three accumulators and goes forwards. */
module CsvParser {
  import opened Text

  type Record = seq<string>

  datatype Token =
    | Literal(c: char)        // an ordinary character, or anything but a quote inside quotes
    | DoubledQuote            // "" inside quotes: stands for one quote
    | Quote                   // opens or closes a quoted stretch
    | Comma                   // ends a cell
    | Break(source: string)   // ends a record: CRLF, LF or CR
  {
    /** The input characters the token was cut from. */
    function Source(): string {
      match this
      case Literal(c) => [c]
      case DoubledQuote => "\"\""
      case Quote => "\""
      case Comma => ","
      case Break(s) => s
    }

    /** The characters the token adds to a cell: none for the structural tokens. */
    function Content(): string {
      match this
      case Literal(c) => [c]
      case DoubledQuote => "\""
      case _ => ""
    }
  }

  predicate IsBreak(c: char) {
    c == '\n' || c == '\r'
  }

  /** The line break at the start of s: a carriage return takes a following line feed with it. */
  function BreakAt(s: string): (b: string)
    requires s != "" && IsBreak(s[0])
    ensures b <= s && 1 <= |b| <= 2
  {
    if s[0] == '\r' && |s| > 1 && s[1] == '\n' then s[..2] else s[..1]
  }

  function Lex(text: string, quoted: bool): (tokens: seq<Token>)
    decreases |text|
  {
    if text == "" then []
    else if quoted && text[0] == '"' && |text| > 1 && text[1] == '"' then [DoubledQuote] + Lex(text[2..], quoted)
    else if text[0] == '"' then [Quote] + Lex(text[1..], !quoted)
    else if !quoted && text[0] == ',' then [Comma] + Lex(text[1..], quoted)
    else if !quoted && IsBreak(text[0]) then [Break(BreakAt(text))] + Lex(text[|BreakAt(text)|..], quoted)
    else [Literal(text[0])] + Lex(text[1..], quoted)
  }

  /** At least one record, the first with at least one cell. */
  predicate Open(records: seq<Record>) {
    records != [] && records[0] != []
  }

  /** Continues an unfinished record (its finished cells, then a cell begun) with what follows. */
  function Continue(cells: Record, begun: string, records: seq<Record>): (r: seq<Record>)
    requires Open(records)
    ensures Open(r)
  {
    [cells + [begun + records[0][0]] + records[0][1..]] + records[1..]
  }

  /** The records a token sequence stands for, blank ones included. */
  function Records(tokens: seq<Token>): (r: seq<Record>)
    ensures Open(r)
  {
    if tokens == [] then [[""]]
    else
      var rest := Records(tokens[1..]);
      match tokens[0]
      case Comma => Continue([""], "", rest)
      case Break(_) => [[""]] + rest
      case t => Continue([], t.Content(), rest)
  }

  predicate HasContent(record: Record) {
    exists cell | cell in record :: !Blank(cell)
  }

  function NonBlank(records: seq<Record>): (r: seq<Record>)
    ensures forall x | x in r :: HasContent(x) && x in records
  {
    if records == [] then []
    else (if HasContent(records[0]) then [records[0]] else []) + NonBlank(records[1..])
  }

  /** All records of a text, before blank ones are dropped. */
  function RawRecords(text: string): (r: seq<Record>)
    ensures Open(r)
  {
    Records(Lex(text, false))
  }

  /** What the scripts read from a text. */
  function Parse(text: string): seq<Record> {
    NonBlank(RawRecords(text))
  }

  // ---------------------------------------------------------------- the state machine

  /** parseCsvRows: one pass over the text, without backtracking. */
  method ParseCsvRows(text: string) returns (rows: seq<Record>)
    ensures rows == Parse(text)
  {
    hide Outcome;
    rows := [];
    var row: Record, value: string, quoted := [], "", false;
    var index := 0;
    OutcomeAtStart(text);
    while index < |text|
      invariant 0 <= index <= |text|
      invariant Parse(text) == Outcome(rows, row, value, text, index, quoted)
    {
      var c := text[index];
      var hasNext := index + 1 < |text|;
      OutcomeStep(rows, row, value, text, index, quoted);
      if quoted && c == '"' && hasNext && text[index + 1] == '"' {
        value := value + "\"";
        index := index + 1;
      } else if c == '"' {
        quoted := !quoted;
      } else if !quoted && c == ',' {
        row := row + [value];
        value := "";
      } else if !quoted && (c == '\n' || c == '\r') {
        if c == '\r' && hasNext && text[index + 1] == '\n' {
          index := index + 1;
        }
        row := row + [value];
        if HasContent(row) {
          rows := rows + [row];
        }
        row := [];
        value := "";
      } else {
        value := value + [c];
      }
      index := index + 1;
    }
    FinishLast(rows, row, value, text, quoted);
    row := row + [value];
    if HasContent(row) {
      rows := rows + [row];
    }
  }

  /** The final rows, seen from the middle of the pass. */
  ghost function Outcome(
    rows: seq<Record>, row: Record, value: string, text: string, index: nat, quoted: bool): seq<Record>
    requires index <= |text|
  {
    rows + NonBlank(Continue(row, value, Records(Lex(text[index..], quoted))))
  }

  lemma {:induction false} OutcomeAtStart(text: string)
    ensures Outcome([], [], "", text, 0, false) == Parse(text)
  {
    assert text[0..] == text;
    ContinueNothing(RawRecords(text));
  }

  lemma {:induction false} OutcomeStep(rows: seq<Record>, row: Record, value: string, text: string, index: nat,
        quoted: bool)
    requires index < |text|
    ensures var c := text[index];
            var doubled := index + 1 < |text| && text[index + 1] == '"';
            var crlf := c == '\r' && index + 1 < |text| && text[index + 1] == '\n';
            Outcome(rows, row, value, text, index, quoted) ==
            if quoted && c == '"' && doubled then
              Outcome(rows, row, value + "\"", text, index + 2, quoted)
            else if c == '"' then
              Outcome(rows, row, value, text, index + 1, !quoted)
            else if !quoted && c == ',' then
              Outcome(rows, row + [value], "", text, index + 1, quoted)
            else if !quoted && IsBreak(c) then
              Outcome(Append(rows, row + [value]), [], "", text, if crlf then index + 2 else index + 1, quoted)
            else
              Outcome(rows, row, value + [c], text, index + 1, quoted)
  {
    LexStep(text, index, quoted);
    var tokens := Lex(text[index..], quoted);
    TokenStep(row, value, tokens);
    match tokens[0]
    case Break(_) => NonBlankFirst(rows, row + [value], Continue([], "", Records(tokens[1..])));
    case Quote => assert value + "" == value;
    case _ =>
  }

  lemma {:induction false} FinishLast(rows: seq<Record>, row: Record, value: string, text: string, quoted: bool)
    ensures Outcome(rows, row, value, text, |text|, quoted)
         == Append(rows, row + [value])
  {
    assert text[|text|..] == "";
    var last := [[""]];
    assert last[0][1..] == [] && last[1..] == [];
    assert value + "" == value && row + [value] + [] == row + [value];
    assert Continue(row, value, last) == [row + [value]];
    NonBlankFirst(rows, row + [value], []);
    assert [row + [value]] + [] == [row + [value]];
  }

  /** The first token at an index and where the next one starts. */
  lemma {:induction false} LexStep(text: string, index: nat, quoted: bool)
    requires index < |text|
    ensures var tokens := Lex(text[index..], quoted);
            var c := text[index];
            var doubled := index + 1 < |text| && text[index + 1] == '"';
            var crlf := c == '\r' && index + 1 < |text| && text[index + 1] == '\n';
            && tokens != []
            && if quoted && c == '"' && doubled then
                 tokens[0] == DoubledQuote && tokens[1..] == Lex(text[index + 2..], quoted)
               else if c == '"' then
                 tokens[0] == Quote && tokens[1..] == Lex(text[index + 1..], !quoted)
               else if !quoted && c == ',' then
                 tokens[0] == Comma && tokens[1..] == Lex(text[index + 1..], quoted)
               else if !quoted && IsBreak(c) then
                 tokens[0].Break? && tokens[1..] == Lex(text[if crlf then index + 2 else index + 1..], quoted)
               else
                 tokens[0] == Literal(c) && tokens[1..] == Lex(text[index + 1..], quoted)
  {
    var tail := text[index..];
    assert tail[0] == text[index] && tail[1..] == text[index + 1..];
    if index + 1 < |text| {
      assert tail[1] == text[index + 1] && tail[2..] == text[index + 2..];
    }
  }

  lemma {:induction false} ContinueNothing(records: seq<Record>)
    requires Open(records)
    ensures Continue([], "", records) == records
  {
    var cell := records[0][0];
    assert "" + cell == cell;
    assert [] + [cell] + records[0][1..] == records[0];
    assert [records[0]] + records[1..] == records;
  }

  lemma {:induction false} ContinueContent(cells: Record, begun: string, more: string, records: seq<Record>)
    requires Open(records)
    ensures Continue(cells, begun, Continue([], more, records)) == Continue(cells, begun + more, records)
  {
    var cell := records[0][0];
    var inner := Continue([], more, records);
    assert inner[0] == [more + cell] + records[0][1..];
    assert inner[0][1..] == records[0][1..] && inner[1..] == records[1..];
    assert begun + (more + cell) == (begun + more) + cell;
  }

  lemma {:induction false} ContinueComma(cells: Record, begun: string, records: seq<Record>)
    requires Open(records)
    ensures Continue(cells, begun, Continue([""], "", records)) == Continue(cells + [begun], "", records)
  {
    var cell := records[0][0];
    var inner := Continue([""], "", records);
    assert "" + cell == cell;
    assert inner[0] == [""] + ([cell] + records[0][1..]);
    assert inner[0][1..] == [cell] + records[0][1..] && inner[1..] == records[1..];
    assert begun + "" == begun;
    assert cells + [begun] + ([cell] + records[0][1..]) == (cells + [begun]) + [cell] + records[0][1..];
  }

  lemma {:induction false} ContinueBreak(cells: Record, begun: string, records: seq<Record>)
    requires Open(records)
    ensures Continue(cells, begun, [[""]] + records) == [cells + [begun]] + records
  {
    var inner := [[""]] + records;
    assert inner[1..] == records && inner[0][1..] == [];
    assert begun + "" == begun;
    assert cells + [begun] + [] == cells + [begun];
  }

  /** Keeps a finished record unless it is blank. */
  function Append(rows: seq<Record>, row: Record): seq<Record> {
    if HasContent(row) then rows + [row] else rows
  }

  /** Dropping blank records commutes with finishing one more record. */
  lemma {:induction false} NonBlankFirst(rows: seq<Record>, row: Record, records: seq<Record>)
    ensures rows + NonBlank([row] + records) == Append(rows, row) + NonBlank(records)
  {
    assert ([row] + records)[1..] == records;
  }

  /** How one token moves the unfinished record and cell. */
  lemma {:induction false} TokenStep(cells: Record, begun: string, tokens: seq<Token>)
    requires tokens != []
    ensures var rest := Records(tokens[1..]);
            var all := Continue(cells, begun, Records(tokens));
            match tokens[0]
            case Comma => all == Continue(cells + [begun], "", rest)
            case Break(_) => all == [cells + [begun]] + Continue([], "", rest)
            case t => all == Continue(cells, begun + t.Content(), rest)
  {
    var rest := Records(tokens[1..]);
    match tokens[0]
    case Comma => ContinueComma(cells, begun, rest);
    case Break(_) =>
      ContinueBreak(cells, begun, rest);
      ContinueNothing(rest);
    case t => ContinueContent(cells, begun, t.Content(), rest);
  }

  // ---------------------------------------------------------------- nothing is lost

  function Sources(tokens: seq<Token>): string {
    if tokens == [] then "" else tokens[0].Source() + Sources(tokens[1..])
  }

  function Contents(tokens: seq<Token>): string {
    if tokens == [] then "" else tokens[0].Content() + Contents(tokens[1..])
  }

  function Concat(cells: Record): string {
    if cells == [] then "" else cells[0] + Concat(cells[1..])
  }

  function ConcatAll(records: seq<Record>): string {
    if records == [] then "" else Concat(records[0]) + ConcatAll(records[1..])
  }

  /** On every text, well formed or not, the tokens partition the input, and the cells in order
      spell the input with exactly its structural tokens erased. */
  lemma {:induction false} Conservation(text: string)
    ensures var tokens := Lex(text, false);
            Sources(tokens) == text && ConcatAll(RawRecords(text)) == Contents(tokens)
  {
    LexPartitions(text, false);
    RecordsKeepContents(Lex(text, false));
  }

  lemma {:induction false} LexFirst(text: string, quoted: bool)
    requires text != ""
    ensures var tokens := Lex(text, quoted);
            && tokens != []
            && 1 <= |tokens[0].Source()| <= |text|
            && text == tokens[0].Source() + text[|tokens[0].Source()|..]
            && tokens[1..] == Lex(text[|tokens[0].Source()|..], if tokens[0].Quote? then !quoted else quoted)
  {
    var n := if quoted && text[0] == '"' && |text| > 1 && text[1] == '"' then 2
             else if !quoted && IsBreak(text[0]) then |BreakAt(text)|
             else 1;
    assert text[..n] + text[n..] == text;
  }

  lemma {:induction false} LexPartitions(text: string, quoted: bool)
    ensures Sources(Lex(text, quoted)) == text
    decreases |text|
  {
    if text != "" {
      LexFirst(text, quoted);
      var first := Lex(text, quoted)[0];
      LexPartitions(text[|first.Source()|..], if first.Quote? then !quoted else quoted);
    }
  }

  lemma {:induction false} RecordsKeepContents(tokens: seq<Token>)
    ensures ConcatAll(Records(tokens)) == Contents(tokens)
  {
    if tokens == [] {
      assert ConcatAll([[""]]) == Concat([""]) + ConcatAll([]);
    } else {
      var rest := Records(tokens[1..]);
      RecordsKeepContents(tokens[1..]);
      match tokens[0]
      case Break(_) =>
        assert ([[""]] + rest)[1..] == rest;
        assert Concat([""]) == "";
      case Comma =>
        ContinueConcat([""], "", rest);
      case t =>
        ContinueConcat([], t.Content(), rest);
    }
  }

  lemma {:induction false} ContinueConcat(cells: Record, begun: string, records: seq<Record>)
    requires Open(records) && (cells == [] || cells == [""])
    ensures ConcatAll(Continue(cells, begun, records)) == begun + ConcatAll(records)
  {
    var a, b, c := records[0][0], Concat(records[0][1..]), ConcatAll(records[1..]);
    var joined := [begun + a] + records[0][1..];
    assert joined[1..] == records[0][1..];
    assert Concat(joined) == begun + a + b;
    assert cells + [begun + a] + records[0][1..] == cells + joined;
    if cells == [""] {
      assert (cells + joined)[1..] == joined;
      assert "" + Concat(joined) == Concat(joined);
    } else {
      assert cells + joined == joined;
    }
    assert Concat(cells + joined) == Concat(joined);
    var r := [cells + joined] + records[1..];
    assert r[1..] == records[1..];
    assert (begun + a + b) + c == begun + ((a + b) + c);
  }
}
