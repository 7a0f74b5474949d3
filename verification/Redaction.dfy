/** The secret scan of an attachment: every rule against every line. The rules' patterns and the decoding
    of bytes are parameters. */
module Redaction {
  import opened Files

  datatype Rule = Rule(name: string, matches: string -> bool)

  const SCAN_LIMIT: nat := 2_000_000

  /** Large files, and files with a zero byte, are not scanned. */
  predicate Skipped(bytes: Bytes) {
    |bytes| > SCAN_LIMIT || 0 in bytes
  }

  /** split(/\r?\n/) */
  function SplitLines(s: string): (lines: seq<string>)
    ensures lines != []
  {
    if s == "" then [""]
    else if s[0] == '\n' then [""] + SplitLines(s[1..])
    else if s[0] == '\r' && |s| > 1 && s[1] == '\n' then [""] + SplitLines(s[2..])
    else
      var rest := SplitLines(s[1..]);
      [[s[0]] + rest[0]] + rest[1..]
  }

  function LineFeeds(s: string): nat {
    if s == "" then 0 else (if s[0] == '\n' then 1 else 0) + LineFeeds(s[1..])
  }

  /** There is one line more than there are line feeds, and no line holds one. */
  lemma {:induction false} LinesOfText(s: string)
    ensures |SplitLines(s)| == LineFeeds(s) + 1
    ensures forall line | line in SplitLines(s) :: '\n' !in line
  {
    if s == "" {
    } else if s[0] == '\r' && |s| > 1 && s[1] == '\n' {
      LinesOfText(s[2..]);
      assert s[1..][1..] == s[2..];
    } else {
      LinesOfText(s[1..]);
      var rest := SplitLines(s[1..]);
      assert rest[0] in rest && forall line | line in rest[1..] :: line in rest;
    }
  }

  function WithoutReturn(s: string): string {
    if s != "" && s[|s| - 1] == '\r' then s[..|s| - 1] else s
  }

  /** A text without a line feed is its own only line. */
  lemma {:induction false} SingleLine(s: string)
    requires '\n' !in s
    ensures SplitLines(s) == [s]
  {
    if s != "" {
      SingleLine(s[1..]);
      assert [s[0]] + s[1..] == s;
    }
  }

  lemma {:induction false} FeedFirst(s: string)
    ensures SplitLines("\n" + s) == [""] + SplitLines(s)
    ensures SplitLines("\r\n" + s) == [""] + SplitLines(s)
  {
    assert ("\n" + s)[1..] == s && ("\r\n" + s)[2..] == s;
  }

  lemma {:induction false} CharFirst(c: char, s: string)
    requires c != '\n' && !(c == '\r' && s != "" && s[0] == '\n')
    ensures SplitLines([c] + s) == [[c] + SplitLines(s)[0]] + SplitLines(s)[1..]
  {
    assert ([c] + s)[1..] == s;
  }

  lemma {:induction false} SingleEmptyLine(s: string)
    ensures s != "" && |SplitLines(s)| == 1 ==> SplitLines(s)[0] != ""
  {
    var lines := SplitLines(s);
    assert s != "" && |lines| == 1 ==> |lines[0]| > 0;
  }

  /** A line feed ends the last line before it, together with one carriage return that stands right before
      it, and the lines after it are those of the text after it. */
  lemma {:induction false} LinesAppend(a: string, b: string)
    ensures var lines, n := SplitLines(a), |SplitLines(a)| - 1;
            SplitLines(a + "\n" + b) == lines[..n] + [WithoutReturn(lines[n])] + SplitLines(b)
  {
    hide SplitLines;
    var s := a + "\n" + b;
    if a == "" {
      SingleLine(a);
      FeedFirst(b);
      assert s == "\n" + b;
    } else if a[0] == '\n' {
      LinesAppend(a[1..], b);
      FeedFirst(a[1..]);
      FeedFirst(a[1..] + "\n" + b);
      assert a == "\n" + a[1..] && s == "\n" + (a[1..] + "\n" + b);
    } else if a == "\r" {
      SingleLine(a);
      FeedFirst(b);
      assert s == "\r\n" + b;
    } else if a[0] == '\r' && a[1] == '\n' {
      LinesAppend(a[2..], b);
      FeedFirst(a[2..]);
      FeedFirst(a[2..] + "\n" + b);
      assert a == "\r\n" + a[2..] && s == "\r\n" + (a[2..] + "\n" + b);
    } else {
      LinesAppend(a[1..], b);
      CharFirst(a[0], a[1..]);
      CharFirst(a[0], a[1..] + "\n" + b);
      assert a == [a[0]] + a[1..] && s == [a[0]] + (a[1..] + "\n" + b);
      LastLineGrows(a[0], a[1..]);
    }
  }

  lemma {:induction false} LastLineGrows(c: char, s: string)
    requires c != '\r' || s != ""
    ensures var line := SplitLines(s)[0];
            |SplitLines(s)| == 1 ==> WithoutReturn([c] + line) == [c] + WithoutReturn(line)
  {
    var line := SplitLines(s)[0];
    if |SplitLines(s)| == 1 && line == "" {
      SingleEmptyLine(s);
    } else if line != "" {
      assert ([c] + line)[..|line|] == [c] + line[..|line| - 1];
    }
  }

  /** The text between two line feeds that follow each other, or before the first or after the last, without
      a carriage return before the line feed that ends it: line i when i line feeds come before it. */
  predicate LineAt(s: string, i: nat, line: string, from: nat, to: nat) {
    && from <= to <= |s|
    && (from == 0 || s[from - 1] == '\n') && (to == |s| || s[to] == '\n') && '\n' !in s[from..to]
    && LineFeeds(s[..from]) == i
    && line == if to == |s| then s[from..to] else WithoutReturn(s[from..to])
  }

  ghost predicate IsLine(s: string, i: nat, line: string) {
    exists from: nat, to: nat :: LineAt(s, i, line, from, to)
  }

  lemma {:induction false} FeedsOf(a: string, b: string)
    ensures LineFeeds(a + b) == LineFeeds(a) + LineFeeds(b)
    ensures LineFeeds(a) == 0 <==> '\n' !in a
  {
    if a == "" {
      assert a + b == b;
    } else {
      assert (a + b)[1..] == a[1..] + b;
      FeedsOf(a[1..], b);
      assert a == [a[0]] + a[1..];
    }
  }

  /** A text with a line feed, cut at its first one. */
  lemma {:induction false} FirstFeed(s: string) returns (a: string, b: string)
    requires '\n' in s
    ensures s == a + "\n" + b && '\n' !in a && |b| < |s|
  {
    if s[0] == '\n' {
      a, b := "", s[1..];
    } else {
      a, b := FirstFeed(s[1..]);
      a := [s[0]] + a;
    }
  }

  /** The place of a line in the text after the first line feed, and in the whole text. */
  lemma {:induction false} LineShifts(a: string, b: string, i: nat, line: string, from: nat, to: nat)
    requires '\n' !in a
    ensures var s, n := a + "\n" + b, |a| + 1;
            LineAt(b, i, line, from, to) <==> LineAt(s, i + 1, line, from + n, to + n)
  {
    hide LineFeeds, WithoutReturn;
    var s, n := a + "\n" + b, |a| + 1;
    assert s[n - 1] == '\n' && forall k | 0 <= k < |b| :: s[k + n] == b[k];
    if from <= to <= |b| {
      assert s[from + n..to + n] == b[from..to];
      FeedsBefore(a, b, from);
    }
  }

  lemma {:induction false} FeedsBefore(a: string, b: string, from: nat)
    requires '\n' !in a && from <= |b|
    ensures LineFeeds((a + "\n" + b)[..from + |a| + 1]) == LineFeeds(b[..from]) + 1
  {
    assert (a + "\n" + b)[..from + |a| + 1] == a + ("\n" + b[..from]);
    FeedsOf(a, "\n" + b[..from]);
    FeedsOf("\n", b[..from]);
    OneFeed();
    hide LineFeeds;
  }

  lemma {:induction false} OneFeed()
    ensures LineFeeds("\n") == 1
  {
    assert "\n"[1..] == "";
  }

  /** The first line of a text with a line feed. */
  lemma {:induction false} FirstLineAt(a: string, b: string, i: nat, line: string, from: nat, to: nat)
    requires '\n' !in a && from <= |a|
    ensures LineAt(a + "\n" + b, i, line, from, to) <==> from == 0 && to == |a| && i == 0 && line == WithoutReturn(a)
  {
    var s := a + "\n" + b;
    assert s[|a|] == '\n' && s[..|a|] == a && s[..0] == "";
    if from <= to <= |s| && to > |a| {
      assert s[from..to][|a| - from] == '\n';
    }
    if from < to < |a| {
      assert s[to] == a[to];
    }
  }

  lemma {:induction false} OnlyLine(s: string, i: nat, line: string)
    requires '\n' !in s
    ensures IsLine(s, i, line) <==> i == 0 && line == s
  {
    FeedsOf(s, "");
    assert s[0..|s|] == s && s[..0] == "";
    if IsLine(s, i, line) {
      var from: nat, to: nat :| LineAt(s, i, line, from, to);
      assert from == 0 && to == |s|;
    }
    if i == 0 && line == s {
      assert LineAt(s, i, line, 0, |s|);
    }
  }

  /** A later line begins after the first line feed. */
  lemma {:induction false} LaterLine(a: string, b: string, i: nat, line: string, from: nat, to: nat)
    requires '\n' !in a && from > |a| && LineAt(a + "\n" + b, i, line, from, to)
    ensures i > 0 && to > |a| && LineAt(b, i - 1, line, from - |a| - 1, to - |a| - 1)
  {
    var n := |a| + 1;
    assert from <= to <= |a + "\n" + b| == n + |b|;
    FeedsBefore(a, b, from - n);
    LineIndex(a + "\n" + b, i, line, from, to);
    hide LineAt, LineFeeds;
    LineShifts(a, b, i - 1, line, from - n, to - n);
  }

  lemma {:induction false} LineIndex(s: string, i: nat, line: string, from: nat, to: nat)
    requires LineAt(s, i, line, from, to)
    ensures from <= to <= |s| && LineFeeds(s[..from]) == i
  {
  }

  lemma {:induction false} LineSteps(a: string, b: string, i: nat, line: string)
    requires '\n' !in a
    ensures IsLine(a + "\n" + b, i, line) <==>
            if i == 0 then line == WithoutReturn(a) else IsLine(b, i - 1, line)
  {
    hide LineAt;
    var s := a + "\n" + b;
    if IsLine(s, i, line) {
      var from: nat, to: nat :| LineAt(s, i, line, from, to);
      if from <= |a| {
        FirstLineAt(a, b, i, line, from, to);
      } else {
        LaterLine(a, b, i, line, from, to);
      }
    }
    if i == 0 && line == WithoutReturn(a) {
      FirstLineAt(a, b, i, line, 0, |a|);
    }
    if i > 0 && IsLine(b, i - 1, line) {
      var from: nat, to: nat :| LineAt(b, i - 1, line, from, to);
      LineShifts(a, b, i - 1, line, from, to);
    }
  }

  /** The i-th line is what stands between the line feeds around it. */
  lemma {:induction false} LinesExactly(s: string, i: nat, line: string)
    ensures i < |SplitLines(s)| && SplitLines(s)[i] == line <==> IsLine(s, i, line)
    decreases |s|
  {
    hide SplitLines, IsLine;
    if '\n' !in s {
      SingleLine(s);
      OnlyLine(s, i, line);
    } else {
      var a, b := FirstFeed(s);
      SingleLine(a);
      LinesAppend(a, b);
      assert [a][..0] == [];
      LineSteps(a, b, i, line);
      if i > 0 {
        LinesExactly(b, i - 1, line);
      }
    }
  }

  /** Each line with the line break that followed it, one after the other. */
  function Spell(lines: seq<string>, breaks: seq<string>): string
    requires |lines| == |breaks| + 1
  {
    if breaks == [] then lines[0] else lines[0] + breaks[0] + Spell(lines[1..], breaks[1..])
  }

  /** The lines and the line breaks between them spell the text. */
  lemma {:induction false} LinesSpell(s: string) returns (breaks: seq<string>)
    ensures |SplitLines(s)| == |breaks| + 1 && Spell(SplitLines(s), breaks) == s
    ensures forall b | b in breaks :: b == "\n" || b == "\r\n"
    decreases |s|
  {
    hide SplitLines;
    if '\n' !in s {
      SingleLine(s);
      breaks := [];
    } else {
      var a, b := FirstFeed(s);
      SingleLine(a);
      LinesAppend(a, b);
      assert [a][..0] == [];
      var rest := LinesSpell(b);
      var first := if a != "" && a[|a| - 1] == '\r' then "\r\n" else "\n";
      breaks := [first] + rest;
      assert SplitLines(s) == [WithoutReturn(a)] + SplitLines(b);
      assert WithoutReturn(a) + first == a + "\n";
      assert s == WithoutReturn(a) + first + Spell(SplitLines(b), rest);
      assert SplitLines(s)[1..] == SplitLines(b) && breaks[1..] == rest;
    }
  }

  function LineFindings(rules: seq<Rule>, line: string, n: nat): seq<Finding> {
    if rules == [] then []
    else
      var last := rules[|rules| - 1];
      LineFindings(rules[..|rules| - 1], line, n) + if last.matches(line) then [Finding(last.name, n)] else []
  }

  function Findings(rules: seq<Rule>, lines: seq<string>): seq<Finding> {
    if lines == [] then []
    else
      var n := |lines|;
      Findings(rules, lines[..n - 1]) + LineFindings(rules, lines[n - 1], n)
  }

  function Scan(rules: seq<Rule>, decode: Bytes -> string, bytes: Bytes): seq<Finding> {
    if Skipped(bytes) then [] else Findings(rules, SplitLines(decode(bytes)))
  }

  /** scanAttachment */
  method ScanAttachment(rules: seq<Rule>, decode: Bytes -> string, bytes: Bytes) returns (findings: seq<Finding>)
    ensures findings == Scan(rules, decode, bytes)
  {
    findings := [];
    if Skipped(bytes) {
      return;
    }
    var lines := SplitLines(decode(bytes));
    for i := 0 to |lines|
      invariant findings == Findings(rules, lines[..i])
    {
      ghost var before := findings;
      for r := 0 to |rules|
        invariant findings == before + LineFindings(rules[..r], lines[i], i + 1)
      {
        assert rules[..r + 1][..r] == rules[..r];
        if rules[r].matches(lines[i]) {
          findings := findings + [Finding(rules[r].name, i + 1)];
        }
      }
      assert rules[..|rules|] == rules;
      assert lines[..i + 1][..i] == lines[..i];
    }
    assert lines[..|lines|] == lines;
  }

  // ---------------------------------------------------------------- what is found

  /** A place where a rule is tried: the line and the rule. */
  datatype Place = Place(line: nat, rule: nat) {
    predicate Before(other: Place) {
      line < other.line || (line == other.line && rule < other.rule)
    }
  }

  /** The rules that match a line. */
  function Hits(rules: seq<Rule>, line: string): (hits: seq<nat>)
    ensures forall k | 0 <= k < |hits| :: hits[k] < |rules|
  {
    if rules == [] then []
    else
      var last := |rules| - 1;
      Hits(rules[..last], line) + if rules[last].matches(line) then [last] else []
  }

  lemma {:induction false} HitsExactly(rules: seq<Rule>, line: string)
    ensures forall k, l | 0 <= k < l < |Hits(rules, line)| :: Hits(rules, line)[k] < Hits(rules, line)[l]
    ensures forall r: nat :: r in Hits(rules, line) <==> r < |rules| && rules[r].matches(line)
  {
    if rules != [] {
      var last := |rules| - 1;
      HitsExactly(rules[..last], line);
      assert forall r | 0 <= r < last :: rules[..last][r] == rules[r];
    }
  }

  lemma {:induction false} HitsFound(rules: seq<Rule>, line: string, n: nat)
    ensures |LineFindings(rules, line, n)| == |Hits(rules, line)|
    ensures forall k | 0 <= k < |Hits(rules, line)| ::
              LineFindings(rules, line, n)[k] == Finding(rules[Hits(rules, line)[k]].name, n)
  {
    if rules != [] {
      var last := |rules| - 1;
      HitsFound(rules[..last], line, n);
      assert forall r | 0 <= r < last :: rules[..last][r] == rules[r];
    }
  }

  function Added(n: nat, rules: seq<nat>): (places: seq<Place>)
    ensures |places| == |rules| && forall k | 0 <= k < |rules| :: places[k] == Place(n, rules[k])
  {
    seq(|rules|, k requires 0 <= k < |rules| => Place(n, rules[k]))
  }

  /** The places where a rule matches, line by line, and within a line in the order of the rules. */
  function Places(rules: seq<Rule>, lines: seq<string>): seq<Place> {
    if lines == [] then []
    else
      var n := |lines| - 1;
      Places(rules, lines[..n]) + Added(n, Hits(rules, lines[n]))
  }

  predicate IsPlace(rules: seq<Rule>, lines: seq<string>, p: Place) {
    p.line < |lines| && p.rule < |rules| && rules[p.rule].matches(lines[p.line])
  }

  lemma {:induction false} AddedExactly(n: nat, rules: seq<nat>, p: Place)
    ensures p in Added(n, rules) <==> p.line == n && p.rule in rules
  {
    if p.line == n && p.rule in rules {
      var k :| 0 <= k < |rules| && rules[k] == p.rule;
      assert Added(n, rules)[k] == p;
    }
  }

  lemma {:induction false} PlacesExactly(rules: seq<Rule>, lines: seq<string>, p: Place)
    ensures p in Places(rules, lines) <==> IsPlace(rules, lines, p)
  {
    hide Hits;
    if lines != [] {
      var n := |lines| - 1;
      PlacesExactly(rules, lines[..n], p);
      HitsExactly(rules, lines[n]);
      AddedExactly(n, Hits(rules, lines[n]), p);
    }
  }

  lemma {:induction false} PlacesOrdered(rules: seq<Rule>, lines: seq<string>)
    ensures forall k, l | 0 <= k < l < |Places(rules, lines)| ::
              Places(rules, lines)[k].Before(Places(rules, lines)[l])
  {
    hide Hits;
    if lines != [] {
      var n := |lines| - 1;
      PlacesOrdered(rules, lines[..n]);
      HitsExactly(rules, lines[n]);
      forall p | p in Places(rules, lines[..n])
        ensures p.line < n
      {
        PlacesExactly(rules, lines[..n], p);
      }
    }
  }

  lemma {:induction false} PlacesFound(rules: seq<Rule>, lines: seq<string>)
    ensures |Findings(rules, lines)| == |Places(rules, lines)|
    ensures forall k | 0 <= k < |Places(rules, lines)| ::
              var p := Places(rules, lines)[k];
              p.rule < |rules| && Findings(rules, lines)[k] == Finding(rules[p.rule].name, p.line + 1)
  {
    hide LineFindings;
    if lines != [] {
      var n := |lines| - 1;
      PlacesFound(rules, lines[..n]);
      HitsFound(rules, lines[n], n + 1);
    }
  }

  /** One finding, its line and its rule. */
  ghost predicate Matched(rules: seq<Rule>, text: string, p: Place, f: Finding) {
    && p.rule < |rules| && f == Finding(rules[p.rule].name, p.line + 1)
    && exists line :: IsLine(text, p.line, line) && rules[p.rule].matches(line)
  }

  /** A file of at most two million bytes without a zero byte has one finding for each rule and each line it
      matches, in the order of the lines and of the rules; a line is what stands in the text between two line
      feeds. Other files have none. */
  lemma {:induction false} FindingsExact(rules: seq<Rule>, decode: Bytes -> string, bytes: Bytes)
    returns (hits: seq<Place>)
    ensures |hits| == |Scan(rules, decode, bytes)| && forall k, l | 0 <= k < l < |hits| :: hits[k].Before(hits[l])
    ensures forall k | 0 <= k < |hits| :: Matched(rules, decode(bytes), hits[k], Scan(rules, decode, bytes)[k])
    ensures forall p, f | Matched(rules, decode(bytes), p, f) :: p in hits <==> |bytes| <= 2_000_000 && 0 !in bytes
  {
    hide SplitLines, Findings, IsLine, Places;
    var s, lines := decode(bytes), SplitLines(decode(bytes));
    hits := if Skipped(bytes) then [] else Places(rules, lines);
    PlacesFound(rules, lines);
    PlacesOrdered(rules, lines);
    forall p
      ensures p in Places(rules, lines) <==> IsPlace(rules, lines, p)
    {
      PlacesExactly(rules, lines, p);
    }
    forall i: nat, line
      ensures IsLine(s, i, line) <==> i < |lines| && lines[i] == line
    {
      LinesExactly(s, i, line);
    }
    forall k | 0 <= k < |hits|
      ensures Matched(rules, s, hits[k], Scan(rules, decode, bytes)[k])
    {
      assert hits[k] in Places(rules, lines);
      assert IsLine(s, hits[k].line, lines[hits[k].line]);
    }
  }
}
