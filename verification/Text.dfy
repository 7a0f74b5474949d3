/** JavaScript string operations used by the scripts: trim, split, join and the code-unit order. */
module Text {

  /** White space and line terminators, the characters String.prototype.trim removes
      (ECMA-262, section 22.1.3.32). */
  predicate IsSpace(c: char) {
    var n := c as int;
    || 0x9 <= n <= 0xD
    || n in {0x20, 0xA0, 0x1680, 0x2028, 0x2029, 0x202F, 0x205F, 0x3000, 0xFEFF}
    || 0x2000 <= n <= 0x200A
  }

  /** The same characters as the standard lists them: tab, line tabulation, form feed, space, no-break space,
      byte order mark and the space separators; then the line terminators. */
  const WHITE_SPACE: string :=
    "\t\U{000B}\U{000C}\U{0020}\U{00A0}\U{FEFF}\U{1680}\U{2000}\U{2001}\U{2002}\U{2003}\U{2004}\U{2005}\U{2006}"
    + "\U{2007}\U{2008}\U{2009}\U{200A}\U{202F}\U{205F}\U{3000}" + "\n\r\U{2028}\U{2029}"

  lemma {:induction false} SpaceTable(c: char)
    ensures IsSpace(c) <==> c in WHITE_SPACE
  {
  }

  function TrimStart(s: string): (r: string)
    ensures r == "" || !IsSpace(r[0])
  {
    if s != "" && IsSpace(s[0]) then TrimStart(s[1..]) else s
  }

  function TrimEnd(s: string): (r: string)
    ensures r <= s
    ensures r == "" || !IsSpace(r[|r| - 1])
  {
    if s != "" && IsSpace(s[|s| - 1]) then TrimEnd(s[..|s| - 1]) else s
  }

  function Trim(s: string): (r: string)
    ensures Trimmed(r)
  {
    TrimEnd(TrimStart(s))
  }

  predicate Trimmed(s: string) {
    s == "" || (!IsSpace(s[0]) && !IsSpace(s[|s| - 1]))
  }

  predicate Blank(s: string) {
    Trim(s) == ""
  }

  predicate AllSpace(s: string) {
    forall c | c in s :: IsSpace(c)
  }

  lemma {:induction false} TrimStartSplits(s: string)
    ensures exists a :: AllSpace(a) && s == a + TrimStart(s)
  {
    if s != "" && IsSpace(s[0]) {
      TrimStartSplits(s[1..]);
      var a :| AllSpace(a) && s[1..] == a + TrimStart(s[1..]);
      assert s == [s[0]] + s[1..] == [s[0]] + a + TrimStart(s);
      assert AllSpace([s[0]] + a);
    } else {
      assert AllSpace("") && s == "" + s;
    }
  }

  lemma {:induction false} TrimEndSplits(s: string)
    ensures exists b :: AllSpace(b) && s == TrimEnd(s) + b
  {
    if s != "" && IsSpace(s[|s| - 1]) {
      var init, last := s[..|s| - 1], s[|s| - 1];
      TrimEndSplits(init);
      var b :| AllSpace(b) && init == TrimEnd(init) + b;
      assert s == init + [last] == TrimEnd(s) + (b + [last]);
      assert AllSpace(b + [last]);
    } else {
      assert AllSpace("") && s == s + "";
    }
  }

  /** Trim removes the white space at both ends and nothing else: what is left neither begins nor ends with
      white space, and what is taken away is white space. */
  lemma {:induction false} TrimExact(s: string)
    ensures Trimmed(Trim(s))
    ensures exists a, b :: AllSpace(a) && AllSpace(b) && s == a + Trim(s) + b
  {
    TrimStartSplits(s);
    TrimEndSplits(TrimStart(s));
    var a :| AllSpace(a) && s == a + TrimStart(s);
    var b :| AllSpace(b) && TrimStart(s) == Trim(s) + b;
    assert s == a + Trim(s) + b;
  }

  /** A text is blank exactly when all its characters are white space. */
  lemma {:induction false} BlankExactly(s: string)
    ensures Blank(s) <==> AllSpace(s)
  {
    TrimExact(s);
    var a, b :| AllSpace(a) && AllSpace(b) && s == a + Trim(s) + b;
    if Trim(s) != "" {
      assert Trim(s)[0] == s[|a|];
    }
  }

  lemma {:induction false} TrimFixesTrimmed(s: string)
    ensures Trimmed(s) <==> Trim(s) == s
  {
  }

  function Join(parts: seq<string>, separator: string): string {
    if parts == [] then ""
    else if |parts| == 1 then parts[0]
    else parts[0] + separator + Join(parts[1..], separator)
  }

  /** split on every character of a class: always at least one piece. */
  function SplitOn(s: string, separators: set<char>): (pieces: seq<string>)
    ensures |pieces| >= 1
  {
    if s == "" then [""]
    else
      var rest := SplitOn(s[1..], separators);
      if s[0] in separators then [""] + rest
      else [[s[0]] + rest[0]] + rest[1..]
  }

  predicate Avoids(s: string, chars: set<char>) {
    forall c | c in s :: c !in chars
  }

  lemma {:induction false} SplitPiecesAvoidSeparators(s: string, separators: set<char>)
    ensures forall p | p in SplitOn(s, separators) :: Avoids(p, separators) && (forall c | c in p :: c in s)
  {
    if s != "" {
      SplitPiecesAvoidSeparators(s[1..], separators);
      var rest := SplitOn(s[1..], separators);
      assert rest[0] in rest;
      assert forall p | p in rest[1..] :: p in rest;
    }
  }

  lemma {:induction false} SplitOfPrefix(p: string, rest: string, separators: set<char>)
    requires Avoids(p, separators)
    ensures var r := SplitOn(rest, separators);
            SplitOn(p + rest, separators) == [p + r[0]] + r[1..]
  {
    if p == "" {
      assert p + rest == rest;
      var r := SplitOn(rest, separators);
      assert p + r[0] == r[0] && r == [r[0]] + r[1..];
    } else {
      assert (p + rest)[1..] == p[1..] + rest;
      SplitOfPrefix(p[1..], rest, separators);
      var r := SplitOn(rest, separators);
      assert [p[0]] + (p[1..] + r[0]) == p + r[0];
    }
  }

  /** split undoes join when no part contains a separator. */
  lemma {:induction false} SplitOfJoin(parts: seq<string>, separator: char, separators: set<char>)
    requires separator in separators && forall p | p in parts :: Avoids(p, separators)
    ensures SplitOn(Join(parts, [separator]), separators) == if parts == [] then [""] else parts
  {
    if parts == [] {
    } else if |parts| == 1 {
      assert parts[0] + "" == parts[0];
      SplitOfPrefix(parts[0], "", separators);
      assert parts == [parts[0]];
    } else {
      var tail := Join(parts[1..], [separator]);
      assert forall p | p in parts[1..] :: p in parts;
      SplitOfJoin(parts[1..], separator, separators);
      assert parts[0] + [separator] + tail == parts[0] + ([separator] + tail);
      assert ([separator] + tail)[1..] == tail;
      SplitOfPrefix(parts[0], [separator] + tail, separators);
      assert parts[0] + "" == parts[0];
      assert parts == [parts[0]] + parts[1..];
    }
  }

  /** The relational operator < on strings: lexicographic by code unit. */
  predicate Less(a: string, b: string)
    decreases |a|
  {
    b != "" && (a == "" || a[0] < b[0] || (a[0] == b[0] && Less(a[1..], b[1..])))
  }

  predicate AtMost(a: string, b: string) {
    !Less(b, a)
  }

  lemma {:induction false} LessTransitive(a: string, b: string, c: string)
    requires Less(a, b) && Less(b, c)
    ensures Less(a, c)
    decreases |a|
  {
    if a != "" && a[0] == b[0] == c[0] {
      LessTransitive(a[1..], b[1..], c[1..]);
    }
  }

  lemma {:induction false} LessTotal(a: string, b: string)
    ensures Less(a, b) || Less(b, a) || a == b
    ensures !(Less(a, b) && Less(b, a)) && !Less(a, a)
    decreases |a|
  {
    if a != "" && b != "" && a[0] == b[0] {
      LessTotal(a[1..], b[1..]);
      assert a == [a[0]] + a[1..] && b == [b[0]] + b[1..];
    }
    if a != "" {
      LessTotal(a[1..], a[1..]);
    }
  }

  /** String(n) for a non-negative integer. */
  function Decimal(n: nat): (s: string)
    ensures s != "" && '0' <= s[0] <= '9' && (n > 0 ==> s[0] != '0')
  {
    var digit := ['0' + (n % 10) as char];
    if n < 10 then digit else Decimal(n / 10) + digit
  }

  lemma {:induction false} DecimalInjective(a: nat, b: nat)
    requires Decimal(a) == Decimal(b)
    ensures a == b
    decreases a
  {
    var s, t := Decimal(a), Decimal(b);
    assert s[|s| - 1] == t[|t| - 1];
    if a >= 10 && b >= 10 {
      assert s[..|s| - 1] == Decimal(a / 10) && t[..|t| - 1] == Decimal(b / 10);
      DecimalInjective(a / 10, b / 10);
    }
  }

  /** padStart(2, "0") on a non-empty text. */
  function PadTwo(s: string): string {
    if |s| < 2 then "0" + s else s
  }

  /** Padded numbers from one on never repeat, at any length. */
  lemma {:induction false} PaddedInjective(a: nat, b: nat)
    requires a >= 1 && b >= 1 && PadTwo(Decimal(a)) == PadTwo(Decimal(b))
    ensures a == b
  {
    var s, t := Decimal(a), Decimal(b);
    if |s| < 2 && |t| < 2 {
      assert ("0" + s)[1..] == s && ("0" + t)[1..] == t;
    }
    DecimalInjective(a, b);
  }

  predicate Distinct(names: seq<string>) {
    forall i, j | 0 <= i < j < |names| :: names[i] != names[j]
  }

  predicate IsDigit(c: char) {
    '0' <= c <= '9'
  }

  function LowerChar(c: char): char {
    if 'A' <= c <= 'Z' then (c as int + 32) as char else c
  }

  /** A literal pattern under the flag i matches at this index. */
  predicate StartsAt(s: string, i: nat, pattern: string) {
    i + |pattern| <= |s| && forall k | 0 <= k < |pattern| :: LowerChar(s[i + k]) == LowerChar(pattern[k])
  }
}
